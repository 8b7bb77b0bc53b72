// The cities table: lookup by id, the filtered, ordered and paginated
// listing, insert, update of the three text columns, and a delete that is
// refused while a company or a user profile refers to the city.

module CityRepository {
  import opened Common
  import opened Text
  import Ordering
  import Pagination
  import Query

  datatype City = City(id: int, name: string, region: string, country: string)

  /** The first city with that id. */
  function FindByID(rows: seq<City>, id: int): (r: Option<City>)
    ensures r.Some? ==> r.value in rows && r.value.id == id
    ensures r.None? <==> forall k :: 0 <= k < |rows| ==> rows[k].id != id
  {
    if |rows| == 0 then None else if rows[0].id == id then Some(rows[0]) else FindByID(rows[1..], id)
  }

  /** `UPDATE cities SET name, region, country WHERE id`. */
  function Rewrite(rows: seq<City>, given: City): (r: seq<City>)
    ensures |r| == |rows|
  {
    seq(|rows|, k requires 0 <= k < |rows| => if rows[k].id == given.id then given else rows[k])
  }

  /** Update changes the three columns of the row with that id and no other
      row. */
  lemma RewriteEffect(rows: seq<City>, given: City, k: int)
    requires 0 <= k < |rows|
    ensures Rewrite(rows, given)[k].id == rows[k].id
    ensures rows[k].id != given.id ==> Rewrite(rows, given)[k] == rows[k]
    ensures rows[k].id == given.id ==>
      (Rewrite(rows, given)[k].name, Rewrite(rows, given)[k].region, Rewrite(rows, given)[k].country)
        == (given.name, given.region, given.country)
  {
  }

  /** `DELETE FROM cities WHERE id`. */
  function Remove(rows: seq<City>, id: int): seq<City>
  {
    if |rows| == 0 then []
    else
      var head := if rows[0].id == id then [] else [rows[0]];
      head + Remove(rows[1..], id)
  }

  lemma {:induction false} RemoveEffect(rows: seq<City>, id: int, x: City)
    ensures x in Remove(rows, id) <==> x in rows && x.id != id
  {
    if |rows| > 0 {
      RemoveEffect(rows[1..], id, x);
      assert rows == [rows[0]] + rows[1..];
    }
  }

  predicate IdsBelow(rows: seq<City>, nextID: int)
  {
    && (forall k :: 0 <= k < |rows| ==> 1 <= rows[k].id < nextID)
    && (forall i, j :: 0 <= i < j < |rows| ==> rows[i].id != rows[j].id)
  }

  lemma {:induction false} RemoveKeepsIds(rows: seq<City>, id: int, nextID: int)
    requires IdsBelow(rows, nextID)
    ensures IdsBelow(Remove(rows, id), nextID)
  {
    if |rows| > 0 {
      RemoveKeepsIds(rows[1..], id, nextID);
      forall x | x in Remove(rows[1..], id)
        ensures x.id != rows[0].id
      {
        RemoveEffect(rows[1..], id, x);
        var k :| 0 <= k < |rows[1..]| && rows[1..][k] == x;
        assert rows[k + 1] == x;
      }
    }
  }

  /** The WHERE clause of the listing: the search matches name or region,
      the country must be equal; an empty filter field is no condition. */
  predicate Matches(c: City, f: Query.CityFilter)
  {
    && (f.search == "" || ILike(c.name, f.search) || ILike(c.region, f.search))
    && (f.country == "" || c.country == f.country)
  }

  /** The rows the WHERE clause keeps, in table order. */
  function Filter(rows: seq<City>, f: Query.CityFilter): (r: seq<City>)
    ensures |r| <= |rows|
  {
    if |rows| == 0 then []
    else
      var head := if Matches(rows[0], f) then [rows[0]] else [];
      head + Filter(rows[1..], f)
  }

  lemma {:induction false} FilterEffect(rows: seq<City>, f: Query.CityFilter, x: City)
    ensures x in Filter(rows, f) <==> x in rows && Matches(x, f)
  {
    if |rows| > 0 {
      FilterEffect(rows[1..], f, x);
      assert rows == [rows[0]] + rows[1..];
    }
  }

  function CityName(c: City): string { c.name }
  function CityRegion(c: City): string { c.region }

  /** ORDER BY: by region when asked, by name otherwise; DESC only for
      "desc". Rows with equal keys keep their table order ascending. */
  function Ordered(rows: seq<City>, f: Query.CityFilter): seq<City>
  {
    var asc := if f.sortBy == "region" then Ordering.SortBy(rows, CityRegion) else Ordering.SortBy(rows, CityName);
    if Pagination.AscUnlessDesc(f.sortOrder) == Pagination.Asc then asc else Ordering.Reverse(asc)
  }

  /** What GetAll returns: the requested page of the ordered matches. */
  function Listed(rows: seq<City>, f: Query.CityFilter): seq<City>
  {
    Pagination.PageRows(Ordered(Filter(rows, f), f),
      Pagination.NormalisePage(f.page), Pagination.NormaliseLimit(f.limit))
  }

  /** Every listed city matches the filter, and a page holds at most the
      limit, ten by default. */
  lemma ListedMatches(rows: seq<City>, f: Query.CityFilter)
    ensures |Listed(rows, f)| <= Pagination.NormaliseLimit(f.limit)
    ensures f.limit <= 0 ==> |Listed(rows, f)| <= 10
    ensures forall c :: c in Listed(rows, f) ==> c in rows && Matches(c, f)
  {
    var matched := Filter(rows, f);
    var ordered := Ordered(matched, f);
    assert multiset(ordered) == multiset(matched) by {
      if f.sortBy == "region" {
        Ordering.SortBySorted(matched, CityRegion);
        Ordering.ReverseSameElements(Ordering.SortBy(matched, CityRegion));
      } else {
        Ordering.SortBySorted(matched, CityName);
        Ordering.ReverseSameElements(Ordering.SortBy(matched, CityName));
      }
    }
    forall c | c in Listed(rows, f)
      ensures c in rows && Matches(c, f)
    {
      assert c in ordered;
      assert c in multiset(matched);
      FilterEffect(rows, f, c);
    }
  }

  /** The refusal of Delete. */
  const InUseMessage: string := "город " + "используется" + " в компаниях или профилях пользователей и не может быть удален"

  /** The reference check failing in the database. */
  function CheckError(err: string): string
  {
    "ошибка при проверке использования города: " + err
  }

  lemma InUseMessageMarked()
    ensures Contains(InUseMessage, "используется")
  {
    InfixContained("город ", "используется", " в компаниях или профилях пользователей и не может быть удален");
  }

  /** How many of the given city references name the city. */
  function CountRefs(refs: seq<Option<int>>, id: int): nat
  {
    if |refs| == 0 then 0 else (if refs[0] == Some(id) then 1 else 0) + CountRefs(refs[1..], id)
  }

  lemma {:induction false} CountRefsPositive(refs: seq<Option<int>>, id: int)
    ensures CountRefs(refs, id) > 0 <==> Some(id) in refs
  {
    if |refs| > 0 {
      CountRefsPositive(refs[1..], id);
      assert refs == [refs[0]] + refs[1..];
    }
  }

  /** The cities table. */
  class CityStore {
    var rows: seq<City>
    var nextID: int

    predicate Valid()
      reads this
    {
      nextID >= 1 && IdsBelow(rows, nextID)
    }

    constructor ()
      ensures Valid() && rows == []
    {
      rows, nextID := [], 1;
    }

    /** GetAll: the page of the ordered matching cities and the number of
        all matching cities. */
    method GetAll(f: Query.CityFilter) returns (page: seq<City>, total: nat)
      ensures page == Listed(rows, f)
      ensures total == |Filter(rows, f)|
      ensures forall c :: c in page ==> c in rows && Matches(c, f)
    {
      ListedMatches(rows, f);
      var matched := Filter(rows, f);
      total := |matched|;
      page := Pagination.PageRows(Ordered(matched, f),
        Pagination.NormalisePage(f.page), Pagination.NormaliseLimit(f.limit));
    }

    /** GetByID: the city, or "город не найден". */
    method GetByID(id: int) returns (r: Result<City>)
      ensures r.Success? <==> FindByID(rows, id).Some?
      ensures r.Success? ==> r.value == FindByID(rows, id).value
      ensures r.Failure? ==> r.msg == "город не найден"
    {
      var found := FindByID(rows, id);
      if found.None? {
        return Failure("город не найден");
      }
      return Success(found.value);
    }

    /** Create: inserts the city under a fresh id. */
    method Create(city: City) returns (id: int)
      requires Valid()
      modifies this
      ensures Valid()
      ensures id == old(nextID) && FindByID(old(rows), id).None?
      ensures rows == old(rows) + [city.(id := id)]
    {
      id := nextID;
      assert forall k :: 0 <= k < |rows| ==> rows[k].id != id;
      rows := rows + [city.(id := id)];
      nextID := nextID + 1;
    }

    /** Update: name, region and country of the row with `city.id`. */
    method Update(city: City)
      requires Valid()
      modifies this
      ensures Valid()
      ensures rows == Rewrite(old(rows), city) && nextID == old(nextID)
    {
      rows := Rewrite(rows, city);
    }

    /** Delete: the check counts companies, then users, naming the city;
        the first positive count refuses the delete and changes nothing.
        Otherwise the city is removed. */
    method Delete(id: int, companyCities: seq<Option<int>>, userCities: seq<Option<int>>, checkError: Option<string>)
      returns (r: Outcome)
      requires Valid()
      modifies this
      ensures Valid()
      ensures nextID == old(nextID)
      ensures checkError.Some? ==> r == Fail(CheckError(checkError.value))
      ensures checkError.None? ==> (r.Done? <==> Some(id) !in companyCities && Some(id) !in userCities)
      ensures checkError.None? && r.Fail? ==> r.msg == InUseMessage
      ensures r.Fail? ==> rows == old(rows)
      ensures r.Done? ==> rows == Remove(old(rows), id)
    {
      if checkError.Some? {
        return Fail(CheckError(checkError.value));
      }
      var counts := [CountRefs(companyCities, id), CountRefs(userCities, id)];
      CountRefsPositive(companyCities, id);
      CountRefsPositive(userCities, id);
      var found := FirstInUse(counts);
      if found.Some? {
        return Fail(InUseMessage);
      }
      assert counts[0] == 0 && counts[1] == 0;
      RemoveKeepsIds(rows, id, nextID);
      rows := Remove(rows, id);
      return Done;
    }
  }
}
