// The user administration handlers: the paginated user list, the role
// change and the account delete. Only an administrator may call them, the
// role must name one of the three roles, nobody may delete their own
// account, and the last administrator can be neither demoted nor deleted.

module AdminUsers {
  import opened Common
  import opened Users
  import Numbers
  import Pagination
  import UserRepository

  const NoRights: string := "Недостаточно прав"
  const BadID: string := "Неверный формат ID"
  const UserNotFound: string := "Пользователь не найден"
  const BadRole: string := "Некорректная роль. Допустимые значения: admin, moderator, user"
  const LastAdminDemotion: string := "Невозможно понизить последнего администратора"
  const LastAdminDeletion: string := "Невозможно удалить последнего администратора"
  const SelfDeletion: string := "Невозможно удалить собственную учетную запись"
  const UserDeleted: string := "Пользователь успешно удален"
  const Invalid: string := "Ошибка валидации"
  const ListFailed: string := "Ошибка при получении пользователей"
  const CountFailed: string := "Ошибка при проверке количества администраторов"
  const RoleUpdateFailed: string := "Ошибка при обновлении роли пользователя"
  const DeleteFailed: string := "Ошибка при удалении пользователя"

  /** The gate every administration handler opens with: the role the
      authentication middleware stored must be present and be admin. */
  predicate IsAdmin(caller: Option<Role>)
  {
    caller == Some(RoleAdmin)
  }

  /** The body of a successful user list. */
  datatype UsersPage = UsersPage(users: seq<UserRow>, total: nat, page: int, limit: int, pages: int)

  /** GetUsers: page and limit come from the query when they parse and are
      positive, and default to 1 and 10. `listFails` is the outcome of the
      listing query. */
  method GetUsers(users: UserRepository.UserStore, caller: Option<Role>, pageText: string, limitText: string,
                  listFails: bool)
    returns (reply: Reply, body: Option<UsersPage>)
    requires users.Valid()
    ensures !IsAdmin(caller) ==> reply == Reply(Forbidden, NoRights) && body.None?
    ensures IsAdmin(caller) && listFails ==> reply == Reply(InternalError, ListFailed) && body.None?
    ensures reply.status == Ok <==> IsAdmin(caller) && !listFails
    ensures body.Some? <==> reply.status == Ok
    ensures body.Some? ==> var b := body.value;
      && b.page == (if Numbers.PositiveParam(pageText) > 0 then Numbers.PositiveParam(pageText) else 1)
      && b.limit == (if Numbers.PositiveParam(limitText) > 0 then Numbers.PositiveParam(limitText) else 10)
      && b.total == |users.rows|
      && b.users == UserRepository.Page(users.rows, (b.page - 1) * b.limit, b.limit)
    ensures body.Some? ==> var b := body.value;
      && |b.users| <= b.limit
      && b.pages * b.limit >= b.total
      && (b.total > 0 ==> (b.pages - 1) * b.limit < b.total)
  {
    if !IsAdmin(caller) {
      return Reply(Forbidden, NoRights), None;
    }
    var page := Numbers.PositiveParam(pageText);
    var limit := Numbers.PositiveParam(limitText);
    if page <= 0 {
      page := 1;
    }
    if limit <= 0 {
      limit := 10;
    }
    if listFails {
      return Reply(InternalError, ListFailed), None;
    }
    var listed := users.GetAll(page, limit);
    if listed.Failure? {
      // The store refuses only a negative window, which the defaults rule out.
      assert false;
      return Reply(InternalError, ListFailed), None;
    }
    var (rows, total) := listed.value;
    Pagination.PageCountIsCeiling(total, limit);
    var pages := Pagination.PageCount(total, limit);
    return Reply(Ok, ""), Some(UsersPage(rows, total, page, limit, pages));
  }

  /** Whether a role change takes the administrator role away from a user. */
  predicate Demotes(user: UserRow, role: Role)
  {
    user.role == RoleAdmin && role != RoleAdmin
  }

  /** UpdateUserRole, in the order of its checks: 403 for a non-admin, 400
      for an id that is not a number, 400 for a body that does not bind
      (`roleText` is None), 404 for an unknown user, 400 for a role outside
      the three, 500 when counting the administrators fails and 400 for
      demoting the only one, 500 when the update fails; otherwise the
      user's role and update time are written. */
  method UpdateUserRole(users: UserRepository.UserStore, caller: Option<Role>, idText: string,
                        roleText: Option<string>, now: int, countFails: bool, updateFails: bool)
    returns (reply: Reply)
    requires users.Valid()
    modifies users
    ensures users.Valid()
    ensures !IsAdmin(caller) ==> reply == Reply(Forbidden, NoRights)
    ensures IsAdmin(caller) && Numbers.Atoi(idText).None? ==> reply == Reply(BadRequest, BadID)
    ensures IsAdmin(caller) && Numbers.Atoi(idText).Some? && roleText.None? ==> reply == Reply(BadRequest, Invalid)
    ensures IsAdmin(caller) && Numbers.Atoi(idText).Some? && roleText.Some? ==>
      var found := UserRepository.FindByID(old(users.rows), Numbers.Atoi(idText).value);
      var role := ParseRole(roleText.value);
      var admins := old(UserRepository.RoleCount(users.rows, RoleAdmin));
      && (found.None? ==> reply == Reply(NotFound, UserNotFound))
      && (found.Some? && role.None? ==> reply == Reply(BadRequest, BadRole))
      && (found.Some? && role.Some? && Demotes(found.value, role.value) && countFails ==>
            reply == Reply(InternalError, CountFailed))
      && (found.Some? && role.Some? && Demotes(found.value, role.value) && !countFails && admins <= 1 ==>
            reply == Reply(BadRequest, LastAdminDemotion))
      && (reply.status == Ok <==>
            && found.Some? && role.Some?
            && (Demotes(found.value, role.value) ==> !countFails && admins > 1)
            && !updateFails)
      && (found.Some? && role.Some? && !Demotes(found.value, role.value) && updateFails ==>
            reply == Reply(InternalError, RoleUpdateFailed))
    ensures reply.status == Ok ==> IsAdmin(caller) && Numbers.Atoi(idText).Some? && roleText.Some?
    ensures reply.status == Ok ==>
      var id := Numbers.Atoi(idText).value;
      && UserRepository.FindByID(old(users.rows), id).Some?
      && users.rows == UserRepository.Replace(old(users.rows),
           UserRepository.FindByID(old(users.rows), id).value.(role := ParseRole(roleText.value).value, updatedAt := now))
    ensures reply.status != Ok ==> users.rows == old(users.rows)
    ensures old(UserRepository.RoleCount(users.rows, RoleAdmin)) >= 1 ==> UserRepository.RoleCount(users.rows, RoleAdmin) >= 1
  {
    if !IsAdmin(caller) {
      return Reply(Forbidden, NoRights);
    }
    var parsed := Numbers.Atoi(idText);
    if parsed.None? {
      return Reply(BadRequest, BadID);
    }
    var id := parsed.value;
    if roleText.None? {
      return Reply(BadRequest, Invalid);
    }
    var found := users.GetByID(id);
    if found.Failure? {
      return Reply(NotFound, UserNotFound);
    }
    var user := found.value;
    var role := ParseRole(roleText.value);
    if role.None? {
      return Reply(BadRequest, BadRole);
    }
    if Demotes(user, role.value) {
      if countFails {
        return Reply(InternalError, CountFailed);
      }
      var admins := users.CountByRole(RoleAdmin);
      if admins <= 1 {
        return Reply(BadRequest, LastAdminDemotion);
      }
    }
    if updateFails {
      return Reply(InternalError, RoleUpdateFailed);
    }
    var k := UserRepository.FindByIDIndex(users.rows, id);
    var changed := user.(role := role.value, updatedAt := now);
    UserRepository.ReplaceOne(users.rows, k, changed);
    UserRepository.RoleCountUpdate(users.rows, k, UserRepository.Overwrite(users.rows[k], changed), RoleAdmin);
    users.Update(changed);
    return Reply(Ok, "");
  }

  /** DeleteUser, in the order of its checks: 403 for a non-admin, 400 for
      an id that is not a number, 400 for the caller's own id, 404 for an
      unknown user, 500 when counting the administrators fails and 400 for
      the only one, 500 when the delete fails; otherwise the user is
      removed. */
  method DeleteUser(users: UserRepository.UserStore, caller: Option<Role>, callerID: int, idText: string,
                    countFails: bool, deleteFails: bool)
    returns (reply: Reply)
    requires users.Valid()
    modifies users
    ensures users.Valid()
    ensures !IsAdmin(caller) ==> reply == Reply(Forbidden, NoRights)
    ensures IsAdmin(caller) && Numbers.Atoi(idText).None? ==> reply == Reply(BadRequest, BadID)
    ensures IsAdmin(caller) && Numbers.Atoi(idText) == Some(callerID) ==> reply == Reply(BadRequest, SelfDeletion)
    ensures IsAdmin(caller) && Numbers.Atoi(idText).Some? && Numbers.Atoi(idText).value != callerID ==>
      var found := UserRepository.FindByID(old(users.rows), Numbers.Atoi(idText).value);
      var admins := old(UserRepository.RoleCount(users.rows, RoleAdmin));
      && (found.None? ==> reply == Reply(NotFound, UserNotFound))
      && (found.Some? && found.value.role == RoleAdmin && countFails ==> reply == Reply(InternalError, CountFailed))
      && (found.Some? && found.value.role == RoleAdmin && !countFails && admins <= 1 ==>
            reply == Reply(BadRequest, LastAdminDeletion))
      && (found.Some? && found.value.role != RoleAdmin && deleteFails ==> reply == Reply(InternalError, DeleteFailed))
      && (reply.status == Ok <==>
            && found.Some?
            && (found.value.role == RoleAdmin ==> !countFails && admins > 1)
            && !deleteFails)
    ensures reply.status == Ok ==>
      && IsAdmin(caller) && Numbers.Atoi(idText).Some? && Numbers.Atoi(idText).value != callerID
      && UserRepository.FindByID(old(users.rows), Numbers.Atoi(idText).value).Some?
      && users.rows == UserRepository.Remove(old(users.rows), Numbers.Atoi(idText).value)
      && reply.msg == UserDeleted
    ensures reply.status != Ok ==> users.rows == old(users.rows)
    ensures forall x :: x in old(users.rows) && x.id == callerID ==> x in users.rows
    ensures old(UserRepository.RoleCount(users.rows, RoleAdmin)) >= 1 ==> UserRepository.RoleCount(users.rows, RoleAdmin) >= 1
  {
    if !IsAdmin(caller) {
      return Reply(Forbidden, NoRights);
    }
    var parsed := Numbers.Atoi(idText);
    if parsed.None? {
      return Reply(BadRequest, BadID);
    }
    var id := parsed.value;
    if callerID == id {
      return Reply(BadRequest, SelfDeletion);
    }
    var found := users.GetByID(id);
    if found.Failure? {
      return Reply(NotFound, UserNotFound);
    }
    if found.value.role == RoleAdmin {
      if countFails {
        return Reply(InternalError, CountFailed);
      }
      var admins := users.CountByRole(RoleAdmin);
      if admins <= 1 {
        return Reply(BadRequest, LastAdminDeletion);
      }
    }
    if deleteFails {
      return Reply(InternalError, DeleteFailed);
    }
    var k := UserRepository.FindByIDIndex(users.rows, id);
    assert forall i, j :: 0 <= i < j < |users.rows| ==> users.rows[i].id != users.rows[j].id;
    UserRepository.RoleCountRemove(users.rows, k, RoleAdmin);
    forall x | x in users.rows && x.id == callerID
      ensures x in UserRepository.Remove(users.rows, id)
    {
      UserRepository.RemoveEffect(users.rows, id, x);
    }
    users.Delete(id);
    return Reply(Ok, UserDeleted);
  }
}
