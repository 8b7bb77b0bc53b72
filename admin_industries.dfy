// The administration handlers of the industries table: create, update and
// delete. A name is never given to two industries, an update with an empty
// colour keeps the old one, and a delete whose error mentions use is
// answered 400.

module AdminIndustries {
  import opened Common
  import opened Text
  import Users
  import Numbers
  import IndustryRepository
  import AdminUsers
  import AdminReviews

  type Industry = IndustryRepository.Industry

  /** The request body of create and update. */
  datatype IndustryInput = IndustryInput(name: string, color: string)

  /** The binding rules: a name of 2 to 100 characters and a colour of at
      most 20. */
  predicate ValidInput(input: Option<IndustryInput>)
  {
    input.Some? && 2 <= |input.value.name| <= 100 && |input.value.color| <= 20
  }

  const IndustryTaken: string := "Индустрия с таким названием уже существует"
  const IndustryNotFound: string := "Индустрия не найдена"
  const CreateFailed: string := "Ошибка при создании индустрии"
  const UpdateFailed: string := "Ошибка при обновлении индустрии"
  const DeleteFailed: string := "Ошибка при удалении индустрии"
  const IndustryDeleted: string := "Индустрия успешно удалена"

  /** No two industries share a name. */
  predicate UniqueNames(rows: seq<Industry>)
  {
    forall i, j :: 0 <= i < j < |rows| ==> rows[i].name != rows[j].name
  }

  /** The row an update writes: the new name, and the new colour unless it
      is empty. */
  function Edited(current: Industry, input: IndustryInput): (r: Industry)
    ensures r.id == current.id && r.name == input.name
    ensures input.color == "" ==> r.color == current.color
    ensures input.color != "" ==> r.color == input.color
  {
    current.(name := input.name, color := if input.color != "" then input.color else current.color)
  }

  lemma AppendKeepsUniqueNames(rows: seq<Industry>, x: Industry)
    requires UniqueNames(rows)
    requires IndustryRepository.FindByName(rows, x.name).None?
    ensures UniqueNames(rows + [x])
  {
    var r := rows + [x];
    forall i, j | 0 <= i < j < |r|
      ensures r[i].name != r[j].name
    {
      if j == |rows| {
        assert r[i] == rows[i];
      } else {
        assert r[i] == rows[i] && r[j] == rows[j];
      }
    }
  }

  lemma RewriteKeepsUniqueNames(rows: seq<Industry>, given: Industry)
    requires UniqueNames(rows)
    requires forall i, j :: 0 <= i < j < |rows| ==> rows[i].id != rows[j].id
    requires forall k :: 0 <= k < |rows| && rows[k].id != given.id ==> rows[k].name != given.name
    ensures UniqueNames(IndustryRepository.Rewrite(rows, given))
  {
  }

  lemma {:induction false} RemoveKeepsUniqueNames(rows: seq<Industry>, id: int)
    requires UniqueNames(rows)
    ensures UniqueNames(IndustryRepository.Remove(rows, id))
  {
    if |rows| > 0 {
      assert UniqueNames(rows[1..]) by {
        forall i, j | 0 <= i < j < |rows[1..]|
          ensures rows[1..][i].name != rows[1..][j].name
        {
          assert rows[1..][i] == rows[i + 1] && rows[1..][j] == rows[j + 1];
        }
      }
      RemoveKeepsUniqueNames(rows[1..], id);
      var rest := IndustryRepository.Remove(rows[1..], id);
      forall x | x in rest
        ensures x.name != rows[0].name
      {
        IndustryRepository.RemoveEffect(rows[1..], id, x);
        var k :| 0 <= k < |rows[1..]| && rows[1..][k] == x;
        assert rows[k + 1] == x;
      }
      var r := IndustryRepository.Remove(rows, id);
      if rows[0].id != id {
        assert r == [rows[0]] + rest;
        forall i, j | 0 <= i < j < |r|
          ensures r[i].name != r[j].name
        {
          if i == 0 {
            assert r[j] == rest[j - 1] && r[j] in rest;
          } else {
            assert r[i] == rest[i - 1] && r[j] == rest[j - 1];
          }
        }
      }
    }
  }

  /** CreateIndustry: 403, 400 for a body that does not bind, 400 for a
      name already held, 500 when the insert fails; otherwise 201 with the
      new industry. */
  method CreateIndustry(store: IndustryRepository.IndustryStore, caller: Option<Users.Role>, input: Option<IndustryInput>, insertFails: bool)
    returns (reply: Reply, created: Option<Industry>)
    requires store.Valid()
    modifies store
    ensures store.Valid()
    ensures !AdminUsers.IsAdmin(caller) ==> reply == Reply(Forbidden, AdminUsers.NoRights)
    ensures AdminUsers.IsAdmin(caller) && !ValidInput(input) ==> reply == Reply(BadRequest, AdminReviews.Invalid)
    ensures (AdminUsers.IsAdmin(caller) && ValidInput(input)
      && IndustryRepository.FindByName(old(store.rows), input.value.name).Some?) ==>
      reply == Reply(BadRequest, IndustryTaken)
    ensures reply.status == Created <==>
      && AdminUsers.IsAdmin(caller) && ValidInput(input) && !insertFails
      && IndustryRepository.FindByName(old(store.rows), input.value.name).None?
    ensures reply.status == InternalError ==> reply.msg == CreateFailed && insertFails
    ensures reply.status == Created ==>
      && created == Some(IndustryRepository.Industry(old(store.nextID), input.value.name, input.value.color))
      && store.rows == old(store.rows) + [created.value]
    ensures reply.status != Created ==> created.None? && store.rows == old(store.rows)
    ensures store.links == old(store.links)
    ensures UniqueNames(old(store.rows)) ==> UniqueNames(store.rows)
  {
    if !AdminUsers.IsAdmin(caller) {
      return Reply(Forbidden, AdminUsers.NoRights), None;
    }
    if !ValidInput(input) {
      return Reply(BadRequest, AdminReviews.Invalid), None;
    }
    var name, color := input.value.name, input.value.color;
    var existing := store.GetByName(name);
    if existing.Some? {
      return Reply(BadRequest, IndustryTaken), None;
    }
    if insertFails {
      return Reply(InternalError, CreateFailed), None;
    }
    if UniqueNames(store.rows) {
      AppendKeepsUniqueNames(store.rows, IndustryRepository.Industry(store.nextID, name, color));
    }
    var id := store.Create(name, color);
    return Reply(Created, ""), Some(IndustryRepository.Industry(id, name, color));
  }

  /** UpdateIndustry: 403, 400 for an id that is not a number, 400 for a
      body that does not bind, 404 for an unknown id, 400 when another
      industry holds the new name, 500 when the write fails; otherwise the
      name, and the colour when one is given, are written. */
  method UpdateIndustry(store: IndustryRepository.IndustryStore, caller: Option<Users.Role>, idText: string,
                        input: Option<IndustryInput>, writeFails: bool)
    returns (reply: Reply)
    requires store.Valid()
    modifies store
    ensures store.Valid()
    ensures !AdminUsers.IsAdmin(caller) ==> reply == Reply(Forbidden, AdminUsers.NoRights)
    ensures AdminUsers.IsAdmin(caller) && Numbers.Atoi(idText).None? ==> reply == Reply(BadRequest, AdminUsers.BadID)
    ensures AdminUsers.IsAdmin(caller) && Numbers.Atoi(idText).Some? && !ValidInput(input) ==>
      reply == Reply(BadRequest, AdminReviews.Invalid)
    ensures (AdminUsers.IsAdmin(caller) && Numbers.Atoi(idText).Some? && ValidInput(input)
      && IndustryRepository.FindByID(old(store.rows), Numbers.Atoi(idText).value).None?) ==>
      reply == Reply(NotFound, IndustryNotFound)
    ensures reply == Reply(BadRequest, IndustryTaken) ==>
      exists k :: 0 <= k < |old(store.rows)| && old(store.rows)[k].name == input.value.name
        && old(store.rows)[k].id != Numbers.Atoi(idText).value
    ensures (AdminUsers.IsAdmin(caller) && Numbers.Atoi(idText).Some? && ValidInput(input)
      && IndustryRepository.FindByID(old(store.rows), Numbers.Atoi(idText).value).Some? && !writeFails
      && UniqueNames(old(store.rows))) ==>
      (reply.status == Ok <==>
        forall k :: 0 <= k < |old(store.rows)| && old(store.rows)[k].id != Numbers.Atoi(idText).value ==>
          old(store.rows)[k].name != input.value.name)
    ensures reply.status == InternalError ==> reply.msg == UpdateFailed && writeFails
    ensures reply.status == Ok ==>
      && AdminUsers.IsAdmin(caller) && ValidInput(input) && Numbers.Atoi(idText).Some?
      && IndustryRepository.FindByID(old(store.rows), Numbers.Atoi(idText).value).Some?
      && store.rows == IndustryRepository.Rewrite(old(store.rows),
           Edited(IndustryRepository.FindByID(old(store.rows), Numbers.Atoi(idText).value).value, input.value))
    ensures reply.status != Ok ==> store.rows == old(store.rows)
    ensures store.links == old(store.links)
    ensures UniqueNames(old(store.rows)) ==> UniqueNames(store.rows)
  {
    if !AdminUsers.IsAdmin(caller) {
      return Reply(Forbidden, AdminUsers.NoRights);
    }
    var parsed := Numbers.Atoi(idText);
    if parsed.None? {
      return Reply(BadRequest, AdminUsers.BadID);
    }
    var id := parsed.value;
    if !ValidInput(input) {
      return Reply(BadRequest, AdminReviews.Invalid);
    }
    var name := input.value.name;
    var found := store.GetByID(id);
    if found.Failure? {
      return Reply(NotFound, IndustryNotFound);
    }
    var current := found.value;
    if current.name != name {
      var existing := store.GetByName(name);
      if existing.Some? && existing.value.id != id {
        return Reply(BadRequest, IndustryTaken);
      }
      // A row of that name with this very id would carry the current name.
      assert existing.None? ==> forall k :: 0 <= k < |store.rows| ==> store.rows[k].name != name;
    } else if UniqueNames(store.rows) {
      var m :| 0 <= m < |store.rows| && store.rows[m] == current;
      assert forall k :: 0 <= k < |store.rows| && store.rows[k].id != id ==> k != m;
    }
    if writeFails {
      return Reply(InternalError, UpdateFailed);
    }
    var given := Edited(current, input.value);
    if UniqueNames(store.rows) {
      RewriteKeepsUniqueNames(store.rows, given);
    }
    store.Update(given);
    return Reply(Ok, "");
  }

  /** DeleteIndustry: 403, 400 for an id that is not a number, 404 for an
      unknown id; a failed delete whose error mentions use is answered 400
      with that error, any other failed delete 500; otherwise 200 and the
      industry's links are gone with it. */
  method DeleteIndustry(store: IndustryRepository.IndustryStore, caller: Option<Users.Role>, idText: string, failure: Option<string>)
    returns (reply: Reply)
    requires store.Valid()
    modifies store
    ensures store.Valid()
    ensures !AdminUsers.IsAdmin(caller) ==> reply == Reply(Forbidden, AdminUsers.NoRights)
    ensures AdminUsers.IsAdmin(caller) && Numbers.Atoi(idText).None? ==> reply == Reply(BadRequest, AdminUsers.BadID)
    ensures (AdminUsers.IsAdmin(caller) && Numbers.Atoi(idText).Some?
      && IndustryRepository.FindByID(old(store.rows), Numbers.Atoi(idText).value).None?) ==>
      reply == Reply(NotFound, IndustryNotFound)
    ensures reply.status == Ok <==>
      && AdminUsers.IsAdmin(caller) && Numbers.Atoi(idText).Some?
      && IndustryRepository.FindByID(old(store.rows), Numbers.Atoi(idText).value).Some? && failure.None?
    ensures reply.status == Ok ==>
      && reply.msg == IndustryDeleted
      && store.rows == IndustryRepository.Remove(old(store.rows), Numbers.Atoi(idText).value)
      && store.links == set p | p in old(store.links) && p.1 != Numbers.Atoi(idText).value
    ensures (AdminUsers.IsAdmin(caller) && Numbers.Atoi(idText).Some?
      && IndustryRepository.FindByID(old(store.rows), Numbers.Atoi(idText).value).Some? && failure.Some?) ==>
      reply == (if Contains(failure.value, "используется") then Reply(BadRequest, failure.value) else Reply(InternalError, DeleteFailed))
    ensures reply.status != Ok ==> store.rows == old(store.rows) && store.links == old(store.links)
    ensures UniqueNames(old(store.rows)) ==> UniqueNames(store.rows)
  {
    if !AdminUsers.IsAdmin(caller) {
      return Reply(Forbidden, AdminUsers.NoRights);
    }
    var parsed := Numbers.Atoi(idText);
    if parsed.None? {
      return Reply(BadRequest, AdminUsers.BadID);
    }
    var id := parsed.value;
    var found := store.GetByID(id);
    if found.Failure? {
      return Reply(NotFound, IndustryNotFound);
    }
    if UniqueNames(store.rows) {
      RemoveKeepsUniqueNames(store.rows, id);
    }
    var r := store.Delete(id, failure);
    if r.Fail? {
      if Contains(r.msg, "используется") {
        return Reply(BadRequest, r.msg);
      }
      return Reply(InternalError, DeleteFailed);
    }
    return Reply(Ok, IndustryDeleted);
  }
}
