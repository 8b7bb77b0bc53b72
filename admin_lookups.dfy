// The administration handlers of the four reference-data tables: create,
// update and delete of a rating category, a benefit type, an employment
// type or an employment period. A name is never given to two rows of one
// table, and a delete the repository refuses because the row is in use is
// answered 400 while any other failed delete is answered 500.

module AdminLookups {
  import opened Common
  import opened Text
  import Users
  import Numbers
  import Lookups
  import AdminUsers
  import AdminReviews

  /** The request body of create and update. */
  datatype LookupInput = LookupInput(name: string, description: string)

  /** The binding rules: a name of 2 to 100 characters and a description
      of at most 255. */
  predicate ValidInput(input: Option<LookupInput>)
  {
    input.Some? && 2 <= |input.value.name| <= 100 && |input.value.description| <= 255
  }

  /** The entity as the handlers' messages name it. */
  function Title(kind: Lookups.Kind): string
  {
    match kind
    case RatingCategory => "Категория"
    case BenefitType => "Тип бенефита"
    case EmploymentType => "Тип занятости"
    case EmploymentPeriod => "Период работы"
  }

  function Genitive(kind: Lookups.Kind): string
  {
    match kind
    case RatingCategory => "категории"
    case BenefitType => "типа бенефита"
    case EmploymentType => "типа занятости"
    case EmploymentPeriod => "периода работы"
  }

  function NameTaken(kind: Lookups.Kind): string
  {
    Title(kind) + " с таким названием уже существует"
  }

  function NotFoundMessage(kind: Lookups.Kind): string
  {
    Title(kind) + (if kind == Lookups.RatingCategory then " не найдена" else " не найден")
  }

  function CreateFailed(kind: Lookups.Kind): string
  {
    "Ошибка при создании " + Genitive(kind)
  }

  function UpdateFailed(kind: Lookups.Kind): string
  {
    "Ошибка при обновлении " + Genitive(kind)
  }

  function DeleteFailed(kind: Lookups.Kind): string
  {
    "Ошибка при удалении " + Genitive(kind)
  }

  function Deleted(kind: Lookups.Kind): string
  {
    Title(kind) + (if kind == Lookups.RatingCategory then " успешно удалена" else " успешно удален")
  }

  /** What a delete handler looks for in the repository's error to call
      the failure a refusal. */
  function InUseMarker(kind: Lookups.Kind): string
  {
    // "категория используется" for categories, "используется" otherwise
    if kind == Lookups.RatingCategory then Lookups.InUseSubject(kind) + " " + Lookups.InUseWord
    else Lookups.InUseWord
  }

  /** Every refusal of the repository's Delete carries its handler's
      marker, so a row in use is always answered 400. */
  lemma RefusalMarked(kind: Lookups.Kind, count: int)
    ensures Contains(Lookups.InUseMessage(kind, count), InUseMarker(kind))
  {
    if kind == Lookups.RatingCategory {
      var rest := " в " + Lookups.InUsePlace(kind, count);
      assert Lookups.InUseMessage(kind, count) == "" + InUseMarker(kind) + rest;
      InfixContained("", InUseMarker(kind), rest);
    } else {
      Lookups.InUseMessageMarked(kind, count);
    }
  }

  /** The duplicate test of the create and update handlers as written: a
      name counts as taken only when the repository's GetByName succeeds. */
  predicate NameTakenAsWritten(kind: Lookups.Kind, rows: seq<Lookups.Entry>, name: string)
  {
    Lookups.GetByNameAsWritten(kind, rows, name).Success?
  }

  /** As written, a rating category, benefit type or employment type whose
      name is already in the table is not recognised as taken, so a second
      row of that name would be inserted. */
  lemma DuplicateAdmittedAsWritten(kind: Lookups.Kind)
    requires Lookups.ScanRejectsTimestamps(kind)
    ensures var rows := [Lookups.Entry(1, "Зарплата", "")];
      && Lookups.FindByName(rows, "Зарплата").Some?
      && !NameTakenAsWritten(kind, rows, "Зарплата")
      && !Lookups.UniqueNames(rows + [Lookups.Entry(2, "Зарплата", "")])
  {
    var rows := [Lookups.Entry(1, "Зарплата", "")];
    var more := rows + [Lookups.Entry(2, "Зарплата", "")];
    assert more[0].name == more[1].name;
  }

  /** Appending a row whose name is new keeps names unique. */
  lemma AppendKeepsUniqueNames(rows: seq<Lookups.Entry>, e: Lookups.Entry)
    requires Lookups.UniqueNames(rows)
    requires Lookups.FindByName(rows, e.name).None?
    ensures Lookups.UniqueNames(rows + [e])
  {
    var r := rows + [e];
    forall i, j | 0 <= i < j < |r|
      ensures r[i].name != r[j].name
    {
      if j == |rows| {
        assert r[i] == rows[i];
      } else {
        assert r[i] == rows[i] && r[j] == rows[j];
      }
    }
  }

  /** Renaming a row to a name no other row holds keeps names unique. */
  lemma RenameKeepsUniqueNames(rows: seq<Lookups.Entry>, given: Lookups.Entry)
    requires Lookups.UniqueNames(rows)
    requires forall i, j :: 0 <= i < j < |rows| ==> rows[i].id != rows[j].id
    requires forall k :: 0 <= k < |rows| && rows[k].id != given.id ==> rows[k].name != given.name
    ensures Lookups.UniqueNames(Lookups.Rename(rows, given))
  {
    var r := Lookups.Rename(rows, given);
    forall i, j | 0 <= i < j < |r|
      ensures r[i].name != r[j].name
    {
      Lookups.RenameEffect(rows, given, i);
      Lookups.RenameEffect(rows, given, j);
    }
  }

  /** Create: 403 for a non-admin, 400 for a body that does not bind, 400
      for a name the table already holds, 500 when the insert fails;
      otherwise the row is inserted and answered 201. */
  method CreateLookup(store: Lookups.LookupStore, caller: Option<Users.Role>, input: Option<LookupInput>, insertFails: bool)
    returns (reply: Reply, created: Option<Lookups.Entry>)
    requires store.Valid()
    modifies store
    ensures store.Valid()
    ensures !AdminUsers.IsAdmin(caller) ==> reply == Reply(Forbidden, AdminUsers.NoRights)
    ensures AdminUsers.IsAdmin(caller) && !ValidInput(input) ==> reply == Reply(BadRequest, AdminReviews.Invalid)
    ensures AdminUsers.IsAdmin(caller) && ValidInput(input) && Lookups.FindByName(old(store.rows), input.value.name).Some? ==>
      reply == Reply(BadRequest, NameTaken(store.kind))
    ensures reply.status == Created <==>
      AdminUsers.IsAdmin(caller) && ValidInput(input) && Lookups.FindByName(old(store.rows), input.value.name).None? && !insertFails
    ensures reply.status == InternalError ==> reply.msg == CreateFailed(store.kind) && insertFails
    ensures reply.status == Created ==>
      && created == Some(Lookups.Entry(old(store.nextID), input.value.name, input.value.description))
      && store.rows == old(store.rows) + [created.value]
    ensures reply.status != Created ==> created.None? && store.rows == old(store.rows)
    ensures Lookups.UniqueNames(old(store.rows)) ==> Lookups.UniqueNames(store.rows)
  {
    if !AdminUsers.IsAdmin(caller) {
      return Reply(Forbidden, AdminUsers.NoRights), None;
    }
    if !ValidInput(input) {
      return Reply(BadRequest, AdminReviews.Invalid), None;
    }
    var name, description := input.value.name, input.value.description;
    var existing := store.GetByName(name);
    if existing.Success? {
      return Reply(BadRequest, NameTaken(store.kind)), None;
    }
    if insertFails {
      return Reply(InternalError, CreateFailed(store.kind)), None;
    }
    if Lookups.UniqueNames(store.rows) {
      AppendKeepsUniqueNames(store.rows, Lookups.Entry(store.nextID, name, description));
    }
    var id := store.Create(name, description);
    return Reply(Created, ""), Some(Lookups.Entry(id, name, description));
  }

  /** Update: 403, 400 for an id that is not a number, 400 for a body that
      does not bind, 404 for an unknown id, 400 when the new name is held
      by another row, 500 when the write fails; otherwise name and
      description are written. */
  method UpdateLookup(store: Lookups.LookupStore, caller: Option<Users.Role>, idText: string, input: Option<LookupInput>, writeFails: bool)
    returns (reply: Reply)
    requires store.Valid()
    modifies store
    ensures store.Valid()
    ensures !AdminUsers.IsAdmin(caller) ==> reply == Reply(Forbidden, AdminUsers.NoRights)
    ensures AdminUsers.IsAdmin(caller) && Numbers.Atoi(idText).None? ==> reply == Reply(BadRequest, AdminUsers.BadID)
    ensures AdminUsers.IsAdmin(caller) && Numbers.Atoi(idText).Some? && !ValidInput(input) ==>
      reply == Reply(BadRequest, AdminReviews.Invalid)
    ensures (AdminUsers.IsAdmin(caller) && Numbers.Atoi(idText).Some? && ValidInput(input)
      && Lookups.FindByID(old(store.rows), Numbers.Atoi(idText).value).None?) ==>
      reply == Reply(NotFound, NotFoundMessage(store.kind))
    ensures reply == Reply(BadRequest, NameTaken(store.kind)) ==>
      exists k :: 0 <= k < |old(store.rows)| && old(store.rows)[k].name == input.value.name
        && old(store.rows)[k].id != Numbers.Atoi(idText).value
    ensures (AdminUsers.IsAdmin(caller) && Numbers.Atoi(idText).Some? && ValidInput(input)
      && Lookups.FindByID(old(store.rows), Numbers.Atoi(idText).value).Some? && !writeFails
      && Lookups.UniqueNames(old(store.rows))) ==>
      (reply.status == Ok <==>
        forall k :: 0 <= k < |old(store.rows)| && old(store.rows)[k].id != Numbers.Atoi(idText).value ==>
          old(store.rows)[k].name != input.value.name)
    ensures reply.status == InternalError ==> reply.msg == UpdateFailed(store.kind) && writeFails
    ensures reply.status == Ok ==>
      && AdminUsers.IsAdmin(caller) && ValidInput(input) && Numbers.Atoi(idText).Some?
      && Lookups.FindByID(old(store.rows), Numbers.Atoi(idText).value).Some?
      && store.rows == Lookups.Rename(old(store.rows),
           Lookups.Entry(Numbers.Atoi(idText).value, input.value.name, input.value.description))
    ensures reply.status != Ok ==> store.rows == old(store.rows)
    ensures Lookups.UniqueNames(old(store.rows)) ==> Lookups.UniqueNames(store.rows)
  {
    if !AdminUsers.IsAdmin(caller) {
      return Reply(Forbidden, AdminUsers.NoRights);
    }
    var parsed := Numbers.Atoi(idText);
    if parsed.None? {
      return Reply(BadRequest, AdminUsers.BadID);
    }
    var id := parsed.value;
    if !ValidInput(input) {
      return Reply(BadRequest, AdminReviews.Invalid);
    }
    var name, description := input.value.name, input.value.description;
    var found := store.GetByID(id);
    if found.Failure? {
      return Reply(NotFound, NotFoundMessage(store.kind));
    }
    var current := found.value;
    if current.name != name {
      var existing := store.GetByName(name);
      if existing.Success? && existing.value.id != id {
        return Reply(BadRequest, NameTaken(store.kind));
      }
      // A row of that name with this very id would carry the current name.
      assert existing.Failure? ==> forall k :: 0 <= k < |store.rows| ==> store.rows[k].name != name;
    } else if Lookups.UniqueNames(store.rows) {
      var m :| 0 <= m < |store.rows| && store.rows[m] == current;
      assert forall k :: 0 <= k < |store.rows| && store.rows[k].id != id ==> k != m;
    }
    if writeFails {
      return Reply(InternalError, UpdateFailed(store.kind));
    }
    var given := Lookups.Entry(id, name, description);
    if Lookups.UniqueNames(store.rows) {
      RenameKeepsUniqueNames(store.rows, given);
    }
    store.Update(given);
    return Reply(Ok, "");
  }

  /** Delete: 403, 400 for an id that is not a number, 404 for an unknown
      id; a failed delete whose error carries the marker is answered 400
      with that error, any other failed delete 500; otherwise 200. */
  method DeleteLookup(store: Lookups.LookupStore, caller: Option<Users.Role>, idText: string,
                      refs: Lookups.References, checkError: Option<string>)
    returns (reply: Reply)
    requires store.Valid()
    modifies store
    ensures store.Valid()
    ensures !AdminUsers.IsAdmin(caller) ==> reply == Reply(Forbidden, AdminUsers.NoRights)
    ensures AdminUsers.IsAdmin(caller) && Numbers.Atoi(idText).None? ==> reply == Reply(BadRequest, AdminUsers.BadID)
    ensures (AdminUsers.IsAdmin(caller) && Numbers.Atoi(idText).Some?
      && Lookups.FindByID(old(store.rows), Numbers.Atoi(idText).value).None?) ==>
      reply == Reply(NotFound, NotFoundMessage(store.kind))
    ensures reply.status == Ok <==>
      && AdminUsers.IsAdmin(caller) && Numbers.Atoi(idText).Some?
      && Lookups.FindByID(old(store.rows), Numbers.Atoi(idText).value).Some?
      && checkError.None? && !Lookups.Referenced(store.kind, refs, Numbers.Atoi(idText).value)
    ensures (AdminUsers.IsAdmin(caller) && Numbers.Atoi(idText).Some?
      && Lookups.FindByID(old(store.rows), Numbers.Atoi(idText).value).Some?
      && checkError.None? && Lookups.Referenced(store.kind, refs, Numbers.Atoi(idText).value)) ==>
      reply.status == BadRequest && exists n :: reply.msg == Lookups.InUseMessage(store.kind, n)
    ensures reply.status == InternalError ==> checkError.Some? && reply.msg == DeleteFailed(store.kind)
    ensures reply.status == Ok ==>
      reply.msg == Deleted(store.kind) && store.rows == Lookups.Remove(old(store.rows), Numbers.Atoi(idText).value)
    ensures reply.status != Ok ==> store.rows == old(store.rows)
    ensures Lookups.UniqueNames(old(store.rows)) ==> Lookups.UniqueNames(store.rows)
  {
    if !AdminUsers.IsAdmin(caller) {
      return Reply(Forbidden, AdminUsers.NoRights);
    }
    var parsed := Numbers.Atoi(idText);
    if parsed.None? {
      return Reply(BadRequest, AdminUsers.BadID);
    }
    var id := parsed.value;
    var found := store.GetByID(id);
    if found.Failure? {
      return Reply(NotFound, NotFoundMessage(store.kind));
    }
    Lookups.RemoveKeeps(store.rows, id, store.nextID);
    var r := store.Delete(id, refs, checkError);
    if r.Fail? {
      if checkError.None? {
        var n :| r.msg == Lookups.InUseMessage(store.kind, n);
        RefusalMarked(store.kind, n);
      }
      if Contains(r.msg, InUseMarker(store.kind)) {
        return Reply(BadRequest, r.msg);
      }
      return Reply(InternalError, DeleteFailed(store.kind));
    }
    return Reply(Ok, Deleted(store.kind));
  }
}
