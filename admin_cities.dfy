// The administration handlers of the cities table: create, update and
// delete. A (name, country) pair is never given to two cities, and a
// delete refused because the city is in use is answered 400.

module AdminCities {
  import opened Common
  import opened Text
  import Users
  import Numbers
  import Ordering
  import Pagination
  import Query
  import CityRepository
  import AdminUsers
  import AdminReviews

  type City = CityRepository.City

  /** The request body of create and update. */
  datatype CityInput = CityInput(name: string, region: string, country: string)

  /** The binding rules: name and country of 2 to 100 characters, region of
      at most 100. */
  predicate ValidInput(input: Option<CityInput>)
  {
    && input.Some?
    && 2 <= |input.value.name| <= 100
    && |input.value.region| <= 100
    && 2 <= |input.value.country| <= 100
  }

  const CityNotFound: string := "Город не найден"
  const CityTaken: string := "Город с таким названием уже существует в указанной стране"
  const CheckFailed: string := "Ошибка при проверке существования города"
  const CreateFailed: string := "Ошибка при создании города"
  const UpdateFailed: string := "Ошибка при обновлении города"
  const DeleteFailed: string := "Ошибка при удалении города"
  const CityDeleted: string := "Город успешно удален"

  /** The city is at that name in that country, and is not the excepted
      one. */
  predicate Clashes(c: City, name: string, country: string, except: Option<int>)
  {
    c.name == name && c.country == country && (except.None? || c.id != except.value)
  }

  /** No two cities share name and country. */
  predicate UniquePlaces(rows: seq<City>)
  {
    forall i, j :: 0 <= i < j < |rows| ==> !(rows[i].name == rows[j].name && rows[i].country == rows[j].country)
  }

  /** The listing query the handlers search with: only the name as search
      text, every other field left at its zero value. */
  function SearchFilter(name: string): Query.CityFilter
  {
    Query.CityFilter(name, "", "", "", 0, 0)
  }

  /** The duplicate test of the create and update handlers as written: a
      clash counts only if it is on the first page of the search for the
      name, ten cities ordered by name. */
  predicate ClashOnFirstPageAsWritten(rows: seq<City>, name: string, country: string, except: Option<int>)
  {
    exists c :: c in CityRepository.Listed(rows, SearchFilter(name)) && Clashes(c, name, country, except)
  }

  /** The search keeps every row when each row matches. */
  lemma {:induction false} FilterKeepsMatching(rows: seq<City>, f: Query.CityFilter)
    requires forall k :: 0 <= k < |rows| ==> CityRepository.Matches(rows[k], f)
    ensures CityRepository.Filter(rows, f) == rows
  {
    if |rows| > 0 {
      FilterKeepsMatching(rows[1..], f);
      assert rows == [rows[0]] + rows[1..];
    }
  }

  /** Ten cities "AB" in the country "K", then the city "B" there. */
  function Crowded(): (rows: seq<City>)
    ensures |rows| == 11
  {
    seq(10, i => CityRepository.City(i + 1, "AB", "", "K")) + [CityRepository.City(11, "B", "", "K")]
  }

  /** Searching for "B" matches both names. */
  lemma SearchMatchesBoth(c: City)
    requires c.name == "AB" || c.name == "B"
    ensures CityRepository.Matches(c, SearchFilter("B"))
  {
    assert ToLower("B") == "" + "b" + "";
    if c.name == "AB" {
      assert ToLower("AB") == "a" + "b" + "";
      InfixContained("a", "b", "");
    } else {
      InfixContained("", "b", "");
    }
  }

  lemma CrowdedHead()
    ensures forall k :: 0 <= k < 10 ==> Crowded()[k].name == "AB"
  {
  }

  lemma CrowdedSorted()
    ensures Ordering.SortedBy(Crowded(), CityRepository.CityName)
  {
    var rows := Crowded();
    assert Ordering.StrLe("AB", "AB") && Ordering.StrLe("AB", "B") && Ordering.StrLe("B", "B");
    forall i, j | 0 <= i < j < |rows|
      ensures Ordering.StrLe(rows[i].name, rows[j].name)
    {
      assert rows[i].name == "AB";
    }
  }

  /** On the crowded table the search for "B" lists every city in table
      order, so its first page is the first ten rows. */
  lemma CrowdedListing()
    ensures CityRepository.Listed(Crowded(), SearchFilter("B")) == Pagination.PageRows(Crowded(), 1, 10)
  {
    var rows := Crowded();
    var f := SearchFilter("B");
    forall k | 0 <= k < |rows|
      ensures CityRepository.Matches(rows[k], f)
    {
      SearchMatchesBoth(rows[k]);
    }
    FilterKeepsMatching(rows, f);
    CrowdedSorted();
    Ordering.SortByKeepsSorted(rows, CityRepository.CityName);
  }

  /** Ten cities "AB" in one country push the city "B" of that country off
      the first page of the search for "B", so as written a second "B" is
      admitted there although one exists. */
  lemma FirstPageMissesClash()
    ensures Clashes(Crowded()[10], "B", "K", None)
    ensures !ClashOnFirstPageAsWritten(Crowded(), "B", "K", None)
    ensures !UniquePlaces(Crowded() + [CityRepository.City(12, "B", "", "K")])
  {
    CrowdedFirstPage();
    var more := Crowded() + [CityRepository.City(12, "B", "", "K")];
    assert more[10].name == more[11].name && more[10].country == more[11].country;
  }

  /** The first page of the search for "B" holds only the cities "AB". */
  lemma CrowdedFirstPage()
    ensures forall c :: c in CityRepository.Listed(Crowded(), SearchFilter("B")) ==> c.name == "AB"
  {
    var rows := Crowded();
    CrowdedListing();
    var page := Pagination.PageRows(rows, 1, 10);
    assert Pagination.Offset(1, 10) == 0;
    CrowdedHead();
    forall c | c in page
      ensures c.name == "AB"
    {
      var k :| 0 <= k < |page| && page[k] == c;
      assert page[k] == rows[k] && k < 10;
    }
  }

  /** The handlers' loop over candidate cities. */
  method FindClash(candidates: seq<City>, name: string, country: string, except: Option<int>) returns (clash: bool)
    ensures clash <==> exists k :: 0 <= k < |candidates| && Clashes(candidates[k], name, country, except)
  {
    var k := 0;
    while k < |candidates|
      invariant 0 <= k <= |candidates|
      invariant forall j :: 0 <= j < k ==> !Clashes(candidates[j], name, country, except)
    {
      if Clashes(candidates[k], name, country, except) {
        return true;
      }
      k := k + 1;
    }
    return false;
  }

  lemma AppendKeepsUniquePlaces(rows: seq<City>, c: City)
    requires UniquePlaces(rows)
    requires forall k :: 0 <= k < |rows| ==> !Clashes(rows[k], c.name, c.country, None)
    ensures UniquePlaces(rows + [c])
  {
    var r := rows + [c];
    forall i, j | 0 <= i < j < |r|
      ensures !(r[i].name == r[j].name && r[i].country == r[j].country)
    {
      if j == |rows| {
        assert r[i] == rows[i];
      } else {
        assert r[i] == rows[i] && r[j] == rows[j];
      }
    }
  }

  lemma RewriteKeepsUniquePlaces(rows: seq<City>, given: City)
    requires UniquePlaces(rows)
    requires forall i, j :: 0 <= i < j < |rows| ==> rows[i].id != rows[j].id
    requires forall k :: 0 <= k < |rows| ==> !Clashes(rows[k], given.name, given.country, Some(given.id))
    ensures UniquePlaces(CityRepository.Rewrite(rows, given))
  {
    var r := CityRepository.Rewrite(rows, given);
    forall i, j | 0 <= i < j < |r|
      ensures !(r[i].name == r[j].name && r[i].country == r[j].country)
    {
      CityRepository.RewriteEffect(rows, given, i);
      CityRepository.RewriteEffect(rows, given, j);
    }
  }

  lemma {:induction false} RemoveKeepsUniquePlaces(rows: seq<City>, id: int)
    requires UniquePlaces(rows)
    ensures UniquePlaces(CityRepository.Remove(rows, id))
  {
    if |rows| > 0 {
      assert UniquePlaces(rows[1..]) by {
        forall i, j | 0 <= i < j < |rows[1..]|
          ensures !(rows[1..][i].name == rows[1..][j].name && rows[1..][i].country == rows[1..][j].country)
        {
          assert rows[1..][i] == rows[i + 1] && rows[1..][j] == rows[j + 1];
        }
      }
      RemoveKeepsUniquePlaces(rows[1..], id);
      var rest := CityRepository.Remove(rows[1..], id);
      forall x | x in rest
        ensures !(x.name == rows[0].name && x.country == rows[0].country)
      {
        CityRepository.RemoveEffect(rows[1..], id, x);
        var k :| 0 <= k < |rows[1..]| && rows[1..][k] == x;
        assert rows[k + 1] == x;
      }
      var r := CityRepository.Remove(rows, id);
      if rows[0].id != id {
        assert r == [rows[0]] + rest;
        forall i, j | 0 <= i < j < |r|
          ensures !(r[i].name == r[j].name && r[i].country == r[j].country)
        {
          if i == 0 {
            assert r[j] == rest[j - 1] && r[j] in rest;
          } else {
            assert r[i] == rest[i - 1] && r[j] == rest[j - 1];
          }
        }
      }
    }
  }

  /** CreateCity: 403, 400 for a body that does not bind, 500 when the
      search fails, 400 when a city of that name is in that country, 500
      when the insert fails; otherwise 201 with the new city. The search
      covers every city. */
  method CreateCity(store: CityRepository.CityStore, caller: Option<Users.Role>, input: Option<CityInput>,
                    searchFails: bool, insertFails: bool)
    returns (reply: Reply, created: Option<City>)
    requires store.Valid()
    modifies store
    ensures store.Valid()
    ensures !AdminUsers.IsAdmin(caller) ==> reply == Reply(Forbidden, AdminUsers.NoRights)
    ensures AdminUsers.IsAdmin(caller) && !ValidInput(input) ==> reply == Reply(BadRequest, AdminReviews.Invalid)
    ensures (AdminUsers.IsAdmin(caller) && ValidInput(input) && !searchFails
      && exists k :: 0 <= k < |old(store.rows)| && Clashes(old(store.rows)[k], input.value.name, input.value.country, None)) ==>
      reply == Reply(BadRequest, CityTaken)
    ensures reply.status == Created <==>
      && AdminUsers.IsAdmin(caller) && ValidInput(input) && !searchFails && !insertFails
      && forall k :: 0 <= k < |old(store.rows)| ==> !Clashes(old(store.rows)[k], input.value.name, input.value.country, None)
    ensures reply.status == InternalError ==>
      (reply.msg == CheckFailed && searchFails) || (reply.msg == CreateFailed && insertFails)
    ensures reply.status == Created ==>
      && created == Some(CityRepository.City(old(store.nextID), input.value.name, input.value.region, input.value.country))
      && store.rows == old(store.rows) + [created.value]
    ensures reply.status != Created ==> created.None? && store.rows == old(store.rows)
    ensures UniquePlaces(old(store.rows)) ==> UniquePlaces(store.rows)
  {
    if !AdminUsers.IsAdmin(caller) {
      return Reply(Forbidden, AdminUsers.NoRights), None;
    }
    if !ValidInput(input) {
      return Reply(BadRequest, AdminReviews.Invalid), None;
    }
    var name, region, country := input.value.name, input.value.region, input.value.country;
    if searchFails {
      return Reply(InternalError, CheckFailed), None;
    }
    var clash := FindClash(store.rows, name, country, None);
    if clash {
      return Reply(BadRequest, CityTaken), None;
    }
    if insertFails {
      return Reply(InternalError, CreateFailed), None;
    }
    var city := CityRepository.City(0, name, region, country);
    if UniquePlaces(store.rows) {
      AppendKeepsUniquePlaces(store.rows, city.(id := store.nextID));
    }
    var id := store.Create(city);
    return Reply(Created, ""), Some(city.(id := id));
  }

  /** UpdateCity: 403, 400 for an id that is not a number, 400 for a body
      that does not bind, 404 for an unknown id; when name or country
      change, 500 when the search fails and 400 when another city holds
      the pair; 500 when the write fails; otherwise the three columns are
      written. */
  method UpdateCity(store: CityRepository.CityStore, caller: Option<Users.Role>, idText: string, input: Option<CityInput>,
                    searchFails: bool, writeFails: bool)
    returns (reply: Reply)
    requires store.Valid()
    modifies store
    ensures store.Valid()
    ensures !AdminUsers.IsAdmin(caller) ==> reply == Reply(Forbidden, AdminUsers.NoRights)
    ensures AdminUsers.IsAdmin(caller) && Numbers.Atoi(idText).None? ==> reply == Reply(BadRequest, AdminUsers.BadID)
    ensures AdminUsers.IsAdmin(caller) && Numbers.Atoi(idText).Some? && !ValidInput(input) ==>
      reply == Reply(BadRequest, AdminReviews.Invalid)
    ensures (AdminUsers.IsAdmin(caller) && Numbers.Atoi(idText).Some? && ValidInput(input)
      && CityRepository.FindByID(old(store.rows), Numbers.Atoi(idText).value).None?) ==>
      reply == Reply(NotFound, CityNotFound)
    ensures reply == Reply(BadRequest, CityTaken) ==>
      exists k :: 0 <= k < |old(store.rows)|
        && Clashes(old(store.rows)[k], input.value.name, input.value.country, Some(Numbers.Atoi(idText).value))
    ensures (AdminUsers.IsAdmin(caller) && Numbers.Atoi(idText).Some? && ValidInput(input)
      && CityRepository.FindByID(old(store.rows), Numbers.Atoi(idText).value).Some? && !searchFails && !writeFails
      && UniquePlaces(old(store.rows))) ==>
      (reply.status == Ok <==>
        forall k :: 0 <= k < |old(store.rows)| ==>
          !Clashes(old(store.rows)[k], input.value.name, input.value.country, Some(Numbers.Atoi(idText).value)))
    ensures reply.status == InternalError ==>
      (reply.msg == CheckFailed && searchFails) || (reply.msg == UpdateFailed && writeFails)
    ensures reply.status == Ok ==>
      && AdminUsers.IsAdmin(caller) && ValidInput(input) && Numbers.Atoi(idText).Some?
      && CityRepository.FindByID(old(store.rows), Numbers.Atoi(idText).value).Some?
      && store.rows == CityRepository.Rewrite(old(store.rows),
           CityRepository.City(Numbers.Atoi(idText).value, input.value.name, input.value.region, input.value.country))
    ensures reply.status != Ok ==> store.rows == old(store.rows)
    ensures UniquePlaces(old(store.rows)) ==> UniquePlaces(store.rows)
  {
    if !AdminUsers.IsAdmin(caller) {
      return Reply(Forbidden, AdminUsers.NoRights);
    }
    var parsed := Numbers.Atoi(idText);
    if parsed.None? {
      return Reply(BadRequest, AdminUsers.BadID);
    }
    var id := parsed.value;
    if !ValidInput(input) {
      return Reply(BadRequest, AdminReviews.Invalid);
    }
    var name, region, country := input.value.name, input.value.region, input.value.country;
    var found := store.GetByID(id);
    if found.Failure? {
      return Reply(NotFound, CityNotFound);
    }
    var current := found.value;
    if current.name != name || current.country != country {
      if searchFails {
        return Reply(InternalError, CheckFailed);
      }
      var clash := FindClash(store.rows, name, country, Some(id));
      if clash {
        return Reply(BadRequest, CityTaken);
      }
    } else if UniquePlaces(store.rows) {
      var m :| 0 <= m < |store.rows| && store.rows[m] == current;
      assert forall k :: 0 <= k < |store.rows| && store.rows[k].id != id ==> k != m;
    }
    if writeFails {
      return Reply(InternalError, UpdateFailed);
    }
    var given := CityRepository.City(id, name, region, country);
    if UniquePlaces(store.rows) {
      RewriteKeepsUniquePlaces(store.rows, given);
    }
    store.Update(given);
    return Reply(Ok, "");
  }

  /** DeleteCity: 403, 400 for an id that is not a number, 404 for an
      unknown id; a failed delete whose error mentions use is answered 400
      with that error, any other failed delete 500; otherwise 200. */
  method DeleteCity(store: CityRepository.CityStore, caller: Option<Users.Role>, idText: string,
                    companyCities: seq<Option<int>>, userCities: seq<Option<int>>, checkError: Option<string>)
    returns (reply: Reply)
    requires store.Valid()
    modifies store
    ensures store.Valid()
    ensures !AdminUsers.IsAdmin(caller) ==> reply == Reply(Forbidden, AdminUsers.NoRights)
    ensures AdminUsers.IsAdmin(caller) && Numbers.Atoi(idText).None? ==> reply == Reply(BadRequest, AdminUsers.BadID)
    ensures (AdminUsers.IsAdmin(caller) && Numbers.Atoi(idText).Some?
      && CityRepository.FindByID(old(store.rows), Numbers.Atoi(idText).value).None?) ==>
      reply == Reply(NotFound, CityNotFound)
    ensures reply.status == Ok <==>
      && AdminUsers.IsAdmin(caller) && Numbers.Atoi(idText).Some?
      && CityRepository.FindByID(old(store.rows), Numbers.Atoi(idText).value).Some? && checkError.None?
      && Some(Numbers.Atoi(idText).value) !in companyCities && Some(Numbers.Atoi(idText).value) !in userCities
    ensures (AdminUsers.IsAdmin(caller) && Numbers.Atoi(idText).Some?
      && CityRepository.FindByID(old(store.rows), Numbers.Atoi(idText).value).Some? && checkError.None?
      && (Some(Numbers.Atoi(idText).value) in companyCities || Some(Numbers.Atoi(idText).value) in userCities)) ==>
      reply == Reply(BadRequest, CityRepository.InUseMessage)
    ensures reply.status == InternalError ==> checkError.Some? && reply.msg == DeleteFailed
    ensures reply.status == Ok ==>
      reply.msg == CityDeleted && store.rows == CityRepository.Remove(old(store.rows), Numbers.Atoi(idText).value)
    ensures reply.status != Ok ==> store.rows == old(store.rows)
    ensures UniquePlaces(old(store.rows)) ==> UniquePlaces(store.rows)
  {
    if !AdminUsers.IsAdmin(caller) {
      return Reply(Forbidden, AdminUsers.NoRights);
    }
    var parsed := Numbers.Atoi(idText);
    if parsed.None? {
      return Reply(BadRequest, AdminUsers.BadID);
    }
    var id := parsed.value;
    var found := store.GetByID(id);
    if found.Failure? {
      return Reply(NotFound, CityNotFound);
    }
    if UniquePlaces(store.rows) {
      RemoveKeepsUniquePlaces(store.rows, id);
    }
    CityRepository.InUseMessageMarked();
    var r := store.Delete(id, companyCities, userCities, checkError);
    if r.Fail? {
      if Contains(r.msg, "используется") {
        return Reply(BadRequest, r.msg);
      }
      return Reply(InternalError, DeleteFailed);
    }
    return Reply(Ok, CityDeleted);
  }
}
