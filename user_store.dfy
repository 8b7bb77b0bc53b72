// The user repository as an in-memory model of the users table. Ids come
// from a serial, so the table in insertion order is also the table ordered
// by id, which is the order GetAll pages through.

module UserRepository {
  import opened Common
  import opened Users

  /** Ids strictly increase along the table. */
  predicate Ascending(rows: seq<UserRow>)
  {
    forall i, j :: 0 <= i < j < |rows| ==> rows[i].id < rows[j].id
  }

  function FindByID(rows: seq<UserRow>, id: int): (r: Option<UserRow>)
    ensures r.Some? ==> r.value in rows && r.value.id == id
    ensures r.None? <==> forall k :: 0 <= k < |rows| ==> rows[k].id != id
  {
    if |rows| == 0 then None else if rows[0].id == id then Some(rows[0]) else FindByID(rows[1..], id)
  }

  function FindByEmail(rows: seq<UserRow>, email: string): (r: Option<UserRow>)
    ensures r.Some? ==> r.value in rows && r.value.email == email
    ensures r.None? <==> forall k :: 0 <= k < |rows| ==> rows[k].email != email
  {
    if |rows| == 0 then None else if rows[0].email == email then Some(rows[0]) else FindByEmail(rows[1..], email)
  }

  /** What the UPDATE writes into a stored row: phone, names, role,
      password hash and update time from `given`. */
  function Overwrite(stored: UserRow, given: UserRow): UserRow
  {
    stored.(phone := given.phone, firstName := given.firstName, lastName := given.lastName,
      role := given.role, passwordHash := given.passwordHash, updatedAt := given.updatedAt)
  }

  function Replace(rows: seq<UserRow>, given: UserRow): (r: seq<UserRow>)
    ensures |r| == |rows|
  {
    seq(|rows|, k requires 0 <= k < |rows| => if rows[k].id == given.id then Overwrite(rows[k], given) else rows[k])
  }

  /** An update never changes an id, an email or a creation time, leaves
      rows with other ids alone, and makes the matching row read back the
      given values in every other column. */
  lemma ReplaceEffect(rows: seq<UserRow>, given: UserRow, k: int)
    requires 0 <= k < |rows|
    ensures var r := Replace(rows, given)[k];
      r.id == rows[k].id && r.email == rows[k].email && r.createdAt == rows[k].createdAt
    ensures rows[k].id != given.id ==> Replace(rows, given)[k] == rows[k]
    ensures rows[k].id == given.id ==>
      Replace(rows, given)[k] == given.(email := rows[k].email, createdAt := rows[k].createdAt)
  {
  }

  function Remove(rows: seq<UserRow>, id: int): (r: seq<UserRow>)
    ensures |r| <= |rows|
  {
    if |rows| == 0 then []
    else if rows[0].id == id then Remove(rows[1..], id)
    else [rows[0]] + Remove(rows[1..], id)
  }

  /** A delete removes exactly the user with that id. */
  lemma {:induction false} RemoveEffect(rows: seq<UserRow>, id: int, x: UserRow)
    ensures x in Remove(rows, id) <==> x in rows && x.id != id
  {
    if |rows| > 0 {
      RemoveEffect(rows[1..], id, x);
      assert rows == [rows[0]] + rows[1..];
    }
  }

  /** A delete keeps the table ordered by id and within the serial. */
  lemma {:induction false} RemoveKeepsOrder(rows: seq<UserRow>, id: int, bound: int)
    requires Ascending(rows)
    requires forall k :: 0 <= k < |rows| ==> 1 <= rows[k].id < bound
    ensures Ascending(Remove(rows, id))
    ensures forall k :: 0 <= k < |Remove(rows, id)| ==> 1 <= Remove(rows, id)[k].id < bound
  {
    if |rows| > 0 {
      RemoveKeepsOrder(rows[1..], id, bound);
      var rest := Remove(rows[1..], id);
      forall x | x in rest
        ensures rows[0].id < x.id
      {
        RemoveEffect(rows[1..], id, x);
      }
    }
  }

  /** The number of users holding `role`. */
  function RoleCount(rows: seq<UserRow>, role: Role): nat
  {
    if |rows| == 0 then 0 else (if rows[0].role == role then 1 else 0) + RoleCount(rows[1..], role)
  }

  /** The count is positive exactly when some user holds the role, and
      never exceeds the number of users. */
  lemma {:induction false} RoleCountPositive(rows: seq<UserRow>, role: Role)
    ensures RoleCount(rows, role) > 0 <==> exists k :: 0 <= k < |rows| && rows[k].role == role
    ensures RoleCount(rows, role) <= |rows|
  {
    if |rows| > 0 {
      RoleCountPositive(rows[1..], role);
      if exists k :: 0 <= k < |rows[1..]| && rows[1..][k].role == role {
        var k :| 0 <= k < |rows[1..]| && rows[1..][k].role == role;
        assert rows[k + 1].role == role;
      }
      if exists k :: 0 <= k < |rows| && rows[k].role == role {
        var k :| 0 <= k < |rows| && rows[k].role == role;
        if k > 0 {
          assert rows[1..][k - 1].role == role;
        }
      }
    }
  }

  /** Changing one row's role moves the role counts by that row alone. */
  lemma {:induction false} RoleCountUpdate(rows: seq<UserRow>, k: int, row: UserRow, role: Role)
    requires 0 <= k < |rows|
    ensures RoleCount(rows[k := row], role) + (if rows[k].role == role then 1 else 0)
      == RoleCount(rows, role) + (if row.role == role then 1 else 0)
  {
    if k > 0 {
      RoleCountUpdate(rows[1..], k - 1, row, role);
      assert rows[k := row][1..] == rows[1..][k - 1 := row];
    } else {
      assert rows[k := row][1..] == rows[1..];
    }
  }

  /** Deleting a user removes its role from the counts and nothing else. */
  lemma {:induction false} RoleCountRemove(rows: seq<UserRow>, k: int, role: Role)
    requires 0 <= k < |rows|
    requires forall i, j :: 0 <= i < j < |rows| ==> rows[i].id != rows[j].id
    ensures RoleCount(Remove(rows, rows[k].id), role) + (if rows[k].role == role then 1 else 0)
      == RoleCount(rows, role)
  {
    var id := rows[k].id;
    if k > 0 {
      assert rows[0].id != id;
      RoleCountRemove(rows[1..], k - 1, role);
    } else {
      RemoveAbsent(rows[1..], id);
    }
  }

  lemma {:induction false} RemoveAbsent(rows: seq<UserRow>, id: int)
    requires forall k :: 0 <= k < |rows| ==> rows[k].id != id
    ensures Remove(rows, id) == rows
  {
    if |rows| > 0 {
      RemoveAbsent(rows[1..], id);
      assert rows == [rows[0]] + rows[1..];
    }
  }

  /** In a table with unique ids, the update of one id rewrites exactly
      the row holding it. */
  lemma ReplaceOne(rows: seq<UserRow>, k: int, given: UserRow)
    requires Ascending(rows) && 0 <= k < |rows| && rows[k].id == given.id
    ensures Replace(rows, given) == rows[k := Overwrite(rows[k], given)]
  {
  }

  /** A row the lookup by id finds sits at some index of the table. */
  lemma {:induction false} FindByIDIndex(rows: seq<UserRow>, id: int) returns (k: int)
    requires FindByID(rows, id).Some?
    ensures 0 <= k < |rows| && rows[k] == FindByID(rows, id).value
  {
    if rows[0].id == id {
      k := 0;
    } else {
      var j := FindByIDIndex(rows[1..], id);
      k := j + 1;
    }
  }

  /** The rows LIMIT `limit` OFFSET `offset` selects from the ordered table. */
  function Page(rows: seq<UserRow>, offset: nat, limit: nat): seq<UserRow>
  {
    var lo := if offset < |rows| then offset else |rows|;
    var hi := if offset + limit < |rows| then offset + limit else |rows|;
    rows[lo..hi]
  }

  /** Pages come out in id order: a page holds at most `limit` users, and
      every user on an earlier page has a smaller id than every user on a
      later one. */
  lemma PagesInOrder(rows: seq<UserRow>, limit: nat, p: nat, q: nat, i: int, j: int)
    requires Ascending(rows) && p < q
    requires 0 <= i < |Page(rows, p * limit, limit)| && 0 <= j < |Page(rows, q * limit, limit)|
    ensures |Page(rows, p * limit, limit)| <= limit
    ensures Page(rows, p * limit, limit)[i].id < Page(rows, q * limit, limit)[j].id
  {
    MulStrict(p, q, limit);
    assert Page(rows, p * limit, limit)[i] == rows[p * limit + i];
    assert Page(rows, q * limit, limit)[j] == rows[q * limit + j];
  }

  lemma {:induction false} MulStrict(p: nat, q: nat, limit: nat)
    requires p < q
    ensures p * limit + limit <= q * limit
    decreases q
  {
    if q > p + 1 {
      MulStrict(p, q - 1, limit);
    }
    assert q * limit == (q - 1) * limit + limit;
  }

  /** With a non-negative limit the offset is negative exactly when the
      page is below 1 and the limit is positive. */
  lemma OffsetSign(page: int, limit: int)
    requires limit >= 0
    ensures (page - 1) * limit < 0 <==> page < 1 && limit > 0
  {
    if page < 1 && limit > 0 {
      assert (1 - page) * limit > 0;
    }
    if page >= 1 {
      assert (page - 1) * limit >= 0;
    }
  }

  /** The model of the users table. */
  class UserStore {
    /** The users table, in insertion order, which is id order. */
    var rows: seq<UserRow>
    /** The id the next insert receives. */
    var nextID: int

    predicate Valid()
      reads this
    {
      && nextID >= 1
      && (forall k :: 0 <= k < |rows| ==> 1 <= rows[k].id < nextID)
      && Ascending(rows)
    }

    constructor ()
      ensures Valid() && rows == []
    {
      rows, nextID := [], 1;
    }

    /** Create: inserts the user under a fresh id and returns it. */
    method Create(user: UserRow) returns (id: int)
      requires Valid()
      modifies this
      ensures Valid()
      ensures id == old(nextID) && FindByID(old(rows), id).None?
      ensures rows == old(rows) + [user.(id := id)]
    {
      id := nextID;
      rows := rows + [user.(id := id)];
      nextID := nextID + 1;
    }

    /** GetByID: the user, or "пользователь не найден". */
    method GetByID(id: int) returns (r: Result<UserRow>)
      ensures r.Success? <==> FindByID(rows, id).Some?
      ensures r.Success? ==> r.value == FindByID(rows, id).value
      ensures r.Failure? ==> r.msg == "пользователь не найден"
    {
      var found := FindByID(rows, id);
      if found.None? {
        return Failure("пользователь не найден");
      }
      return Success(found.value);
    }

    /** GetByEmail: the user with that email, or "пользователь не найден". */
    method GetByEmail(email: string) returns (r: Result<UserRow>)
      ensures r.Success? <==> FindByEmail(rows, email).Some?
      ensures r.Success? ==> r.value == FindByEmail(rows, email).value
      ensures r.Failure? ==> r.msg == "пользователь не найден"
    {
      var found := FindByEmail(rows, email);
      if found.None? {
        return Failure("пользователь не найден");
      }
      return Success(found.value);
    }

    /** Update: writes the SET columns of the row with `user.id`. */
    method Update(user: UserRow)
      requires Valid()
      modifies this
      ensures Valid()
      ensures rows == Replace(old(rows), user) && nextID == old(nextID)
    {
      rows := Replace(rows, user);
    }

    /** Delete: removes the user with that id; none is not an error. */
    method Delete(id: int)
      requires Valid()
      modifies this
      ensures Valid()
      ensures rows == Remove(old(rows), id) && nextID == old(nextID)
    {
      RemoveKeepsOrder(rows, id, nextID);
      rows := Remove(rows, id);
    }

    /** Count: the number of users. */
    method Count() returns (n: nat)
      ensures n == |rows|
    {
      n := |rows|;
    }

    /** CountByRole: the number of users with that role. */
    method CountByRole(role: Role) returns (n: nat)
      ensures n == RoleCount(rows, role)
      ensures n > 0 <==> exists k :: 0 <= k < |rows| && rows[k].role == role
    {
      RoleCountPositive(rows, role);
      n := RoleCount(rows, role);
    }

    /** GetAll: the total number of users and the users ordered by id from
        offset (page-1)*limit, at most `limit` of them. A negative limit or
        offset is refused by the database. */
    method GetAll(page: int, limit: int) returns (r: Result<(seq<UserRow>, nat)>)
      requires Valid()
      ensures r.Success? <==> limit >= 0 && (page >= 1 || limit == 0)
      ensures r.Success? ==> r.value.1 == |rows| && r.value.0 == Page(rows, (page - 1) * limit, limit)
      ensures r.Success? ==> |r.value.0| <= limit && Ascending(r.value.0)
    {
      if limit < 0 {
        return Failure("ошибка при получении пользователей: LIMIT must not be negative");
      }
      var offset := (page - 1) * limit;
      OffsetSign(page, limit);
      if offset < 0 {
        return Failure("ошибка при получении пользователей: OFFSET must not be negative");
      }
      var users := Page(rows, offset, limit);
      return Success((users, |rows|));
    }
  }
}
