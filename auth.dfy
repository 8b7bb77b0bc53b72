// The authentication handlers: registration, login, token refresh, logout
// and password reset, as ordered sequences of operations on the users and
// refresh_tokens tables. Request binding is an optional body (None when
// the JSON does not decode) checked against its binding tags; the tag
// `email` is the oracle `isEmail`. Password hashing and comparison, token
// signing, UUID generation, the clock and the failures of database
// statements are oracles too: their outcomes are parameters.

module Auth {
  import opened Common
  import opened Users
  import UserRepository
  import TokenRepository

  const Invalid: string := "Ошибка валидации"
  const Mismatch: string := "Пароли не совпадают"
  const LookupFailed: string := "Ошибка при проверке существующего пользователя"
  const EmailTaken: string := "Пользователь с таким email уже существует"
  const CreateFailed: string := "Ошибка при создании пользователя"
  const SaveFailed: string := "Ошибка при сохранении пользователя"
  const SigningFailed: string := "Ошибка при создании токена"
  const TokenSaveFailed: string := "Ошибка при создании refresh токена"
  const BadCredentials: string := "Неверный email или пароль"
  const UnknownToken: string := "Недействительный refresh токен"
  const ExpiredToken: string := "Refresh токен просрочен"
  const UserGone: string := "Пользователь не найден"
  const TokenDeleteFailed: string := "Ошибка при удалении старого refresh токена"
  const LogoutFailed: string := "Ошибка при выходе из системы"
  const LoggedOut: string := "Успешный выход из системы"
  const EmailUnknown: string := "Пользователь с указанным email не найден"
  const HashFailed: string := "Ошибка при хешировании пароля"
  const PasswordUpdateFailed: string := "Ошибка при обновлении пароля"
  const RevokeFailed: string := "Ошибка при удалении refresh токенов"
  const PasswordChanged: string := "Пароль успешно изменен"

  /** Whether Register gets as far as storing the user: the body binds,
      the email lookup neither fails nor finds a user, hashing succeeds
      and so does the insert. */
  predicate StoresUser(rows: seq<UserRow>, body: Option<RegisterInput>, isEmail: string -> bool,
                       lookupFails: bool, hash: Option<string>, createFails: bool)
  {
    && body.Some? && ValidRegister(body.value, isEmail)
    && !lookupFails && UserRepository.FindByEmail(rows, body.value.email).None?
    && hash.Some? && !createFails
  }

  /** Register: 400 for a body that does not bind, 500 when the email
      lookup fails, 409 for a taken email, 500 when hashing or the insert
      fails, all changing nothing; once the user is stored, 500 when
      signing or the refresh-token insert fails, with the user kept;
      otherwise 201 with the user and one refresh token stored. The
      explicit confirmation check that follows binding is never reached,
      since the `eqfield` tag already refuses a mismatch. */
  method Register(users: UserRepository.UserStore, tokens: TokenRepository.RefreshTokenStore,
                  body: Option<RegisterInput>, isEmail: string -> bool, lookupFails: bool,
                  hash: Option<string>, createFails: bool, signingFails: bool, tokenFails: bool,
                  newToken: string, now: int, refreshExpiresIn: int)
    returns (reply: Reply, profile: Option<Profile>)
    requires users.Valid()
    modifies users, tokens
    ensures users.Valid()
    ensures body.None? || !ValidRegister(body.value, isEmail) ==> reply == Reply(BadRequest, Invalid)
    ensures reply.msg != Mismatch
    ensures body.Some? && ValidRegister(body.value, isEmail) ==>
      var known := UserRepository.FindByEmail(old(users.rows), body.value.email).Some?;
      && (lookupFails ==> reply == Reply(InternalError, LookupFailed))
      && (!lookupFails && known ==> reply == Reply(Conflict, EmailTaken))
      && (!lookupFails && !known && hash.None? ==> reply == Reply(InternalError, CreateFailed))
      && (!lookupFails && !known && hash.Some? && createFails ==> reply == Reply(InternalError, SaveFailed))
    ensures StoresUser(old(users.rows), body, isEmail, lookupFails, hash, createFails) ==>
      && (signingFails ==> reply == Reply(InternalError, SigningFailed))
      && (!signingFails && tokenFails ==> reply == Reply(InternalError, TokenSaveFailed))
    ensures reply.status == Created <==>
      StoresUser(old(users.rows), body, isEmail, lookupFails, hash, createFails) && !signingFails && !tokenFails
    ensures StoresUser(old(users.rows), body, isEmail, lookupFails, hash, createFails) ==>
      users.rows == old(users.rows) + [NewUser(body.value, hash, now).value.(id := old(users.nextID))]
    ensures !StoresUser(old(users.rows), body, isEmail, lookupFails, hash, createFails) ==>
      users.rows == old(users.rows)
    ensures reply.status != Created ==> tokens.rows == old(tokens.rows) && profile.None?
    ensures reply.status == Created ==>
      && tokens.rows == old(tokens.rows)
           + [NewRefreshToken(old(users.nextID), newToken, now, refreshExpiresIn).(id := old(tokens.nextID))]
      && profile == Some(ToProfile(NewUser(body.value, hash, now).value.(id := old(users.nextID))))
  {
    profile := None;
    if body.None? || !ValidRegister(body.value, isEmail) {
      return Reply(BadRequest, Invalid), None;
    }
    var input := body.value;
    if input.password != input.passwordConfirm {
      // The eqfield tag already refused a mismatch at binding.
      assert false;
      return Reply(BadRequest, Mismatch), None;
    }
    if lookupFails {
      return Reply(InternalError, LookupFailed), None;
    }
    var existing := users.GetByEmail(input.email);
    if existing.Success? {
      return Reply(Conflict, EmailTaken), None;
    }
    var user := NewUser(input, hash, now);
    if user.Failure? {
      return Reply(InternalError, CreateFailed), None;
    }
    if createFails {
      return Reply(InternalError, SaveFailed), None;
    }
    var userID := users.Create(user.value);
    if signingFails {
      return Reply(InternalError, SigningFailed), None;
    }
    if tokenFails {
      return Reply(InternalError, TokenSaveFailed), None;
    }
    var refresh := NewRefreshToken(userID, newToken, now, refreshExpiresIn);
    var _ := tokens.Create(refresh);
    reply := Reply(Created, "");
    profile := Some(ToProfile(user.value.(id := userID)));
  }

  /** Login: 400 for a body that does not bind; an unknown email and a
      wrong password get the same 401; 500 when signing or the
      refresh-token insert fails, changing nothing; otherwise one refresh
      token is stored for the user. */
  method Login(users: UserRepository.UserStore, tokens: TokenRepository.RefreshTokenStore,
               body: Option<LoginInput>, isEmail: string -> bool, verify: (string, string) -> bool,
               signingFails: bool, tokenFails: bool, newToken: string, now: int, refreshExpiresIn: int)
    returns (reply: Reply)
    modifies tokens
    ensures body.None? || !ValidLogin(body.value, isEmail) ==> reply == Reply(BadRequest, Invalid)
    ensures body.Some? && ValidLogin(body.value, isEmail) ==>
      var found := UserRepository.FindByEmail(users.rows, body.value.email);
      var admitted := found.Some? && verify(found.value.passwordHash, body.value.password);
      && (!admitted ==> reply == Reply(Unauthorized, BadCredentials))
      && (admitted && signingFails ==> reply == Reply(InternalError, SigningFailed))
      && (admitted && !signingFails && tokenFails ==> reply == Reply(InternalError, TokenSaveFailed))
      && (reply.status == Ok <==> admitted && !signingFails && !tokenFails)
    ensures reply.status == Ok ==> body.Some? && ValidLogin(body.value, isEmail)
    ensures reply.status == Ok ==>
      tokens.rows == old(tokens.rows)
        + [NewRefreshToken(UserRepository.FindByEmail(users.rows, body.value.email).value.id, newToken, now,
             refreshExpiresIn).(id := old(tokens.nextID))]
    ensures reply.status != Ok ==> tokens.rows == old(tokens.rows)
  {
    if body.None? || !ValidLogin(body.value, isEmail) {
      return Reply(BadRequest, Invalid);
    }
    var found := users.GetByEmail(body.value.email);
    if found.Failure? {
      return Reply(Unauthorized, BadCredentials);
    }
    if !verify(found.value.passwordHash, body.value.password) {
      return Reply(Unauthorized, BadCredentials);
    }
    if signingFails {
      return Reply(InternalError, SigningFailed);
    }
    if tokenFails {
      return Reply(InternalError, TokenSaveFailed);
    }
    var refresh := NewRefreshToken(found.value.id, newToken, now, refreshExpiresIn);
    var _ := tokens.Create(refresh);
    reply := Reply(Ok, "");
  }

  /** The body of a refresh or logout request binds when it decodes and
      its token, tagged `required`, is not empty. */
  predicate BindsToken(body: Option<string>)
  {
    body.Some? && body.value != ""
  }

  /** RefreshToken: 400 for a body that does not bind; an unknown or
      expired token, or one whose user is gone, gets 401 and changes
      nothing; 500 when deleting the presented token fails, changing
      nothing. Otherwise the presented token is deleted before the new one
      is stored, so it cannot be redeemed again; a failure of signing or of
      the insert then answers 500 with the presented token already gone. */
  method RefreshToken(users: UserRepository.UserStore, tokens: TokenRepository.RefreshTokenStore,
                      body: Option<string>, deleteFails: bool, signingFails: bool, tokenFails: bool,
                      newToken: string, now: int, refreshExpiresIn: int)
    returns (reply: Reply)
    modifies tokens
    ensures !BindsToken(body) ==> reply == Reply(BadRequest, Invalid)
    ensures BindsToken(body) ==>
      var found := TokenRepository.FindToken(old(tokens.rows), body.value);
      var live := found.Some? && found.value.expiresAt >= now;
      var owner := live && UserRepository.FindByID(users.rows, found.value.userID).Some?;
      && (found.None? ==> reply == Reply(Unauthorized, UnknownToken))
      && (found.Some? && found.value.expiresAt < now ==> reply == Reply(Unauthorized, ExpiredToken))
      && (live && !owner ==> reply == Reply(Unauthorized, UserGone))
      && (owner && deleteFails ==> reply == Reply(InternalError, TokenDeleteFailed))
      && (owner && !deleteFails && signingFails ==> reply == Reply(InternalError, SigningFailed))
      && (owner && !deleteFails && !signingFails && tokenFails ==> reply == Reply(InternalError, TokenSaveFailed))
      && (reply.status == Ok <==> owner && !deleteFails && !signingFails && !tokenFails)
    ensures reply.status in {BadRequest, Unauthorized} || reply.msg == TokenDeleteFailed ==>
      tokens.rows == old(tokens.rows)
    ensures reply.msg in {SigningFailed, TokenSaveFailed} ==>
      tokens.rows == TokenRepository.WithoutToken(old(tokens.rows), body.value)
    ensures reply.status == Ok ==>
      tokens.rows == TokenRepository.WithoutToken(old(tokens.rows), body.value)
        + [NewRefreshToken(TokenRepository.FindToken(old(tokens.rows), body.value).value.userID, newToken, now,
             refreshExpiresIn).(id := old(tokens.nextID))]
    ensures reply.status == Ok && newToken != body.value ==> TokenRepository.FindToken(tokens.rows, body.value).None?
  {
    if !BindsToken(body) {
      return Reply(BadRequest, Invalid);
    }
    var presented := body.value;
    var stored := tokens.GetByToken(presented);
    if stored.Failure? {
      return Reply(Unauthorized, UnknownToken);
    }
    if stored.value.expiresAt < now {
      return Reply(Unauthorized, ExpiredToken);
    }
    var user := users.GetByID(stored.value.userID);
    if user.Failure? {
      return Reply(Unauthorized, UserGone);
    }
    if deleteFails {
      return Reply(InternalError, TokenDeleteFailed);
    }
    tokens.DeleteByToken(presented);
    if signingFails {
      return Reply(InternalError, SigningFailed);
    }
    if tokenFails {
      return Reply(InternalError, TokenSaveFailed);
    }
    var refresh := NewRefreshToken(user.value.id, newToken, now, refreshExpiresIn);
    var rest := tokens.rows;
    var _ := tokens.Create(refresh);
    if newToken != presented {
      NoTokenAfterAppend(rest, refresh.(id := old(tokens.nextID)), presented);
    }
    reply := Reply(Ok, "");
  }

  lemma NoTokenAfterAppend(rows: seq<Token>, t: Token, token: string)
    requires TokenRepository.FindToken(rows, token).None? && t.token != token
    ensures TokenRepository.FindToken(rows + [t], token).None?
  {
    assert forall k :: 0 <= k < |rows + [t]| ==> (rows + [t])[k].token != token by {
      forall k | 0 <= k < |rows + [t]|
        ensures (rows + [t])[k].token != token
      {
        if k < |rows| {
          assert (rows + [t])[k] == rows[k];
        }
      }
    }
  }

  /** A refresh token is redeemable at most once: presenting the same token
      right after a successful refresh is refused as unknown. */
  method RefreshTwice(users: UserRepository.UserStore, tokens: TokenRepository.RefreshTokenStore,
                      presented: string, first: string, second: string, now: int, refreshExpiresIn: int)
    returns (r1: Reply, r2: Reply)
    requires first != presented
    modifies tokens
    ensures r1.status == Ok ==> r2 == Reply(Unauthorized, UnknownToken)
  {
    r1 := RefreshToken(users, tokens, Some(presented), false, false, false, first, now, refreshExpiresIn);
    r2 := RefreshToken(users, tokens, Some(presented), false, false, false, second, now, refreshExpiresIn);
  }

  /** Logout: 400 for a body that does not bind, 500 when the delete fails,
      changing nothing; otherwise the presented token is removed, an
      unknown one being no error. */
  method Logout(tokens: TokenRepository.RefreshTokenStore, body: Option<string>, deleteFails: bool)
    returns (reply: Reply)
    modifies tokens
    ensures !BindsToken(body) ==> reply == Reply(BadRequest, Invalid)
    ensures BindsToken(body) && deleteFails ==> reply == Reply(InternalError, LogoutFailed)
    ensures reply.status == Ok <==> BindsToken(body) && !deleteFails
    ensures reply.status != Ok ==> tokens.rows == old(tokens.rows)
    ensures reply.status == Ok ==>
      && reply.msg == LoggedOut
      && tokens.rows == TokenRepository.WithoutToken(old(tokens.rows), body.value)
      && TokenRepository.FindToken(tokens.rows, body.value).None?
  {
    if !BindsToken(body) {
      return Reply(BadRequest, Invalid);
    }
    if deleteFails {
      return Reply(InternalError, LogoutFailed);
    }
    tokens.DeleteByToken(body.value);
    reply := Reply(Ok, LoggedOut);
  }

  /** The body of a forgot-password request as the handler reads it: the
      email, which carries the tags `required,email`, and the new password
      with its confirmation, which carry no tags. */
  datatype ForgotPasswordInput = ForgotPasswordInput(email: string, password: string, passwordConfirm: string)

  predicate ValidForgot(input: ForgotPasswordInput, isEmail: string -> bool)
  {
    input.email != "" && isEmail(input.email)
  }

  /** Whether ForgotPassword gets as far as storing the new hash. */
  predicate RewritesHash(rows: seq<UserRow>, body: Option<ForgotPasswordInput>, isEmail: string -> bool,
                         hash: Option<string>, updateFails: bool)
  {
    && body.Some? && ValidForgot(body.value, isEmail)
    && body.value.password == body.value.passwordConfirm
    && UserRepository.FindByEmail(rows, body.value.email).Some?
    && hash.Some? && !updateFails
  }

  /** ForgotPassword: 400 for a body that does not bind and for a mismatched
      confirmation, 404 for an unknown email, 500 when hashing or the
      update fails, all changing nothing; once the hash is stored, 500 when
      revoking the refresh tokens fails, with the hash kept; otherwise the
      new hash is stored and every refresh token of the user revoked. */
  method ForgotPassword(users: UserRepository.UserStore, tokens: TokenRepository.RefreshTokenStore,
                        body: Option<ForgotPasswordInput>, isEmail: string -> bool, hash: Option<string>,
                        updateFails: bool, revokeFails: bool, now: int)
    returns (reply: Reply)
    requires users.Valid()
    modifies users, tokens
    ensures users.Valid()
    ensures body.None? || !ValidForgot(body.value, isEmail) ==> reply == Reply(BadRequest, Invalid)
    ensures body.Some? && ValidForgot(body.value, isEmail) ==>
      var input := body.value;
      var found := UserRepository.FindByEmail(old(users.rows), input.email);
      && (input.password != input.passwordConfirm ==> reply == Reply(BadRequest, Mismatch))
      && (input.password == input.passwordConfirm && found.None? ==> reply == Reply(NotFound, EmailUnknown))
      && (input.password == input.passwordConfirm && found.Some? && hash.None? ==>
            reply == Reply(InternalError, HashFailed))
      && (input.password == input.passwordConfirm && found.Some? && hash.Some? && updateFails ==>
            reply == Reply(InternalError, PasswordUpdateFailed))
    ensures RewritesHash(old(users.rows), body, isEmail, hash, updateFails) ==>
      var user := UserRepository.FindByEmail(old(users.rows), body.value.email).value;
      && users.rows == UserRepository.Replace(old(users.rows), user.(passwordHash := hash.value, updatedAt := now))
      && (revokeFails ==> reply == Reply(InternalError, RevokeFailed) && tokens.rows == old(tokens.rows))
      && (!revokeFails ==>
            reply == Reply(Ok, PasswordChanged) && tokens.rows == TokenRepository.WithoutUser(old(tokens.rows), user.id))
    ensures !RewritesHash(old(users.rows), body, isEmail, hash, updateFails) ==>
      users.rows == old(users.rows) && tokens.rows == old(tokens.rows)
    ensures reply.status == Ok <==> RewritesHash(old(users.rows), body, isEmail, hash, updateFails) && !revokeFails
  {
    if body.None? || !ValidForgot(body.value, isEmail) {
      return Reply(BadRequest, Invalid);
    }
    var input := body.value;
    if input.password != input.passwordConfirm {
      return Reply(BadRequest, Mismatch);
    }
    var found := users.GetByEmail(input.email);
    if found.Failure? {
      return Reply(NotFound, EmailUnknown);
    }
    if hash.None? {
      return Reply(InternalError, HashFailed);
    }
    if updateFails {
      return Reply(InternalError, PasswordUpdateFailed);
    }
    var user := found.value.(passwordHash := hash.value, updatedAt := now);
    users.Update(user);
    if revokeFails {
      return Reply(InternalError, RevokeFailed);
    }
    tokens.DeleteByUserID(user.id);
    reply := Reply(Ok, PasswordChanged);
  }

  /** After a successful password reset the user holds no refresh token,
      and the stored user keeps its email but carries the new hash. */
  lemma ResetRevokesAll(rows: seq<Token>, users: seq<UserRow>, u: UserRow, hash: string, now: int, k: int)
    requires 0 <= k < |users| && users[k].id == u.id
    ensures forall i :: 0 <= i < |TokenRepository.WithoutUser(rows, u.id)| ==>
      TokenRepository.WithoutUser(rows, u.id)[i].userID != u.id
    ensures var after := UserRepository.Replace(users, u.(passwordHash := hash, updatedAt := now))[k];
      after.passwordHash == hash && after.email == users[k].email && after.updatedAt == now
  {
    TokenRepository.UserGone(rows, u.id);
  }
}
