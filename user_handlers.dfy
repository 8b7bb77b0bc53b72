// The endpoints of the signed-in user: the own profile, its partial
// update, and the own reviews. The caller's id is what the authentication
// middleware stored in the request context; hashing a new password is an
// oracle whose outcome is a parameter.

module UserHandlers {
  import opened Common
  import opened Users
  import Pagination
  import Query
  import Validators
  import UserRepository
  import ReviewHandlers

  const AuthRequired: string := "Требуется авторизация"
  const UserNotFound: string := "Пользователь не найден"
  const Invalid: string := "Ошибка валидации"
  const InvalidParams: string := "Ошибка валидации параметров"
  const HashFailed: string := "Ошибка при хешировании пароля"
  const UpdateFailed: string := "Ошибка при обновлении профиля"
  const ListFailed: string := "Ошибка при получении отзывов"

  /** GetProfile: 401 without a caller id or for an unknown user, and the
      caller's own profile otherwise. */
  method GetProfile(users: UserRepository.UserStore, callerID: Option<int>)
    returns (reply: Reply, profile: Option<Profile>)
    ensures callerID.None? ==> reply == Reply(Unauthorized, AuthRequired) && profile.None?
    ensures callerID.Some? && UserRepository.FindByID(users.rows, callerID.value).None? ==>
      reply == Reply(Unauthorized, UserNotFound) && profile.None?
    ensures profile.Some? <==> reply == Reply(Ok, "")
    ensures profile.Some? ==>
      callerID.Some? && UserRepository.FindByID(users.rows, callerID.value).Some?
      && profile.value == ToProfile(UserRepository.FindByID(users.rows, callerID.value).value)
      && profile.value.id == callerID.value
  {
    if callerID.None? {
      return Reply(Unauthorized, AuthRequired), None;
    }
    var user := users.GetByID(callerID.value);
    if user.Failure? {
      return Reply(Unauthorized, UserNotFound), None;
    }
    return Reply(Ok, ""), Some(ToProfile(user.value));
  }

  // ---------------------------------------------------------------------
  // UpdateProfile

  /** The body of a profile update: each field may be left out. */
  datatype UpdateInput = UpdateInput(
    phone: Option<string>,
    firstName: Option<string>,
    lastName: Option<string>,
    password: Option<string>)

  /** What the binding tags admit: a phone given must pass the phone rule,
      a password given must have at least eight runes. */
  predicate ValidUpdate(input: UpdateInput)
  {
    && (input.phone.Some? ==> Validators.ValidPhone(input.phone.value))
    && (input.password.Some? ==> |input.password.value| >= 8)
  }

  function OrKeep(given: Option<string>, kept: string): string
  {
    if given.Some? then given.value else kept
  }

  /** The user after the handler's field-by-field overwrite: each given
      field replaces the stored one, a given password replaces the hash by
      its hash, and the update time is now. */
  function Patched(user: UserRow, input: UpdateInput, hash: string, now: int): UserRow
  {
    user.(phone := OrKeep(input.phone, user.phone),
          firstName := OrKeep(input.firstName, user.firstName),
          lastName := OrKeep(input.lastName, user.lastName),
          passwordHash := if input.password.Some? then hash else user.passwordHash,
          updatedAt := now)
  }

  /** A profile update never touches the id, the email, the role or the
      creation time; each of the other fields is the given value when
      given and the stored one otherwise, and an update that gives nothing
      changes only the update time. */
  lemma PatchedKeepsIdentity(user: UserRow, input: UpdateInput, hash: string, now: int)
    ensures var p := Patched(user, input, hash, now);
      && (p.id, p.email, p.role, p.createdAt) == (user.id, user.email, user.role, user.createdAt)
      && p.phone == (if input.phone.Some? then input.phone.value else user.phone)
      && p.firstName == (if input.firstName.Some? then input.firstName.value else user.firstName)
      && p.lastName == (if input.lastName.Some? then input.lastName.value else user.lastName)
      && (input.password.None? ==> p.passwordHash == user.passwordHash)
      && (input.password.Some? ==> p.passwordHash == hash)
    ensures input == UpdateInput(None, None, None, None) ==> Patched(user, input, hash, now) == user.(updatedAt := now)
  {
  }

  /** Writing the patched user back through the repository's update leaves
      the row of every other user as it was, and makes the caller's row the
      patched one: the update writes the role the handler read, so the
      role survives too. */
  lemma UpdateStoresPatch(rows: seq<UserRow>, user: UserRow, input: UpdateInput, hash: string, now: int, k: int)
    requires 0 <= k < |rows| && rows[k] == user
    ensures UserRepository.Replace(rows, Patched(user, input, hash, now))[k] == Patched(user, input, hash, now)
    ensures forall j :: 0 <= j < |rows| && rows[j].id != user.id ==>
      UserRepository.Replace(rows, Patched(user, input, hash, now))[j] == rows[j]
  {
    UserRepository.ReplaceEffect(rows, Patched(user, input, hash, now), k);
  }

  /** UpdateProfile: 401 without a caller id, 400 for a body that fails
      its binding tags, 401 for an unknown user, 500 when hashing the new
      password or the update fails; otherwise the caller's row becomes the
      patched row and the reply carries its profile. `hash` is the outcome
      of hashing the given password. */
  method UpdateProfile(users: UserRepository.UserStore, callerID: Option<int>, input: Option<UpdateInput>,
                       hash: Option<string>, now: int, updateFails: bool)
    returns (reply: Reply, profile: Option<Profile>)
    requires users.Valid()
    modifies users
    ensures users.Valid() && users.nextID == old(users.nextID)
    ensures callerID.None? ==> reply == Reply(Unauthorized, AuthRequired)
    ensures callerID.Some? && (input.None? || !ValidUpdate(input.value)) ==> reply == Reply(BadRequest, Invalid)
    ensures callerID.Some? && input.Some? && ValidUpdate(input.value)
            && UserRepository.FindByID(old(users.rows), callerID.value).None? ==>
      reply == Reply(Unauthorized, UserNotFound)
    ensures profile.Some? <==> reply == Reply(Ok, "")
    ensures profile.Some? <==>
      && callerID.Some? && input.Some? && ValidUpdate(input.value)
      && UserRepository.FindByID(old(users.rows), callerID.value).Some?
      && (input.value.password.Some? ==> hash.Some?)
      && !updateFails
    ensures profile.None? ==> users.rows == old(users.rows)
    ensures profile.Some? ==>
      var user := UserRepository.FindByID(old(users.rows), callerID.value).value;
      var patched := Patched(user, input.value, if hash.Some? then hash.value else "", now);
      && users.rows == UserRepository.Replace(old(users.rows), patched)
      && profile.value == ToProfile(patched)
  {
    if callerID.None? {
      return Reply(Unauthorized, AuthRequired), None;
    }
    if input.None? || !ValidUpdate(input.value) {
      return Reply(BadRequest, Invalid), None;
    }
    var found := users.GetByID(callerID.value);
    if found.Failure? {
      return Reply(Unauthorized, UserNotFound), None;
    }
    var user := found.value;
    var given := input.value;
    if given.phone.Some? {
      user := user.(phone := given.phone.value);
    }
    if given.firstName.Some? {
      user := user.(firstName := given.firstName.value);
    }
    if given.lastName.Some? {
      user := user.(lastName := given.lastName.value);
    }
    if given.password.Some? {
      if hash.None? {
        return Reply(InternalError, HashFailed), None;
      }
      user := user.(passwordHash := hash.value);
    }
    user := user.(updatedAt := now);
    assert user == Patched(found.value, given, if hash.Some? then hash.value else "", now);
    if updateFails {
      return Reply(InternalError, UpdateFailed), None;
    }
    users.Update(user);
    return Reply(Ok, ""), Some(ToProfile(user));
  }

  // ---------------------------------------------------------------------
  // GetUserReviews

  /** The body of the own-reviews list: the filter handed to the
      repository, the query it builds, and the pagination block. */
  datatype UserReviews = UserReviews(filter: Query.ReviewFilter, query: Query.Listing, total: nat, pages: int)

  /** GetUserReviews: 401 without a caller id, 400 for a query string that
      fails its binding tags, 500 when the listing fails; otherwise the
      filter's user is forced to the caller, page and limit default to 1
      and 10, the query binds the caller's id as $1, and the page count is
      the ceiling of the total over the limit. */
  method GetUserReviews(callerID: Option<int>, filter: Option<Query.ReviewFilter>, total: nat, listFails: bool)
    returns (reply: Reply, listed: Option<UserReviews>)
    ensures callerID.None? ==> reply == Reply(Unauthorized, AuthRequired) && listed.None?
    ensures callerID.Some? && (filter.None? || !ReviewHandlers.ValidFilter(filter.value)) ==>
      reply == Reply(BadRequest, InvalidParams) && listed.None?
    ensures listed.Some? <==> reply == Reply(Ok, "")
    ensures listed.Some? <==> callerID.Some? && filter.Some? && ReviewHandlers.ValidFilter(filter.value) && !listFails
    ensures listed.Some? ==>
      var f := listed.value.filter;
      var q := listed.value.query;
      && f.userID == callerID
      && f.page == Pagination.NormalisePage(filter.value.page)
      && f.limit == Pagination.NormaliseLimit(filter.value.limit)
      && f.(userID := filter.value.userID, page := filter.value.page, limit := filter.value.limit) == filter.value
      && Query.WellFormed(q, 2)
      && q.countArgs[0] == Query.IntArg(callerID.value)
      && Query.Shape(q.conds) == Query.UserReviewConditions(f)
      && Query.Window(q, f.page, f.limit)
      && listed.value.total == total
      && listed.value.pages * f.limit >= total
      && (total > 0 ==> (listed.value.pages - 1) * f.limit < total)
  {
    if callerID.None? {
      return Reply(Unauthorized, AuthRequired), None;
    }
    if filter.None? || !ReviewHandlers.ValidFilter(filter.value) {
      return Reply(BadRequest, InvalidParams), None;
    }
    var f := filter.value;
    f := f.(userID := Some(callerID.value));
    if f.page <= 0 {
      f := f.(page := 1);
    }
    if f.limit <= 0 {
      f := f.(limit := 10);
    }
    var q := Query.UserReviewListing(callerID.value, f);
    if listFails {
      return Reply(InternalError, ListFailed), None;
    }
    Pagination.PageCountIsCeiling(total, f.limit);
    var pages := Pagination.PageCount(total, f.limit);
    return Reply(Ok, ""), Some(UserReviews(f, q, total, pages));
  }
}
