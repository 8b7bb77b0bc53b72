// The request gates in front of the handlers: Bearer-header parsing, the
// authentication middlewares that fill the request context from a token,
// the authenticated-flag gate and the role gate. Token validation is an
// oracle `validate` from the token to its claims.

module Middleware {
  import opened Common
  import opened Text
  import opened Users

  const UserIDKey: string := "user_id"
  const RoleKey: string := "role"
  const IsAuthenticatedKey: string := "is_authenticated"

  /** A value stored in the request context, with its dynamic type. */
  datatype Value = IntVal(i: int) | BoolVal(b: bool) | RoleVal(role: Role) | TextVal(s: string)

  type Context = map<string, Value>

  /** What a token carries once validated. */
  datatype Claims = Claims(userID: int, role: Role)

  /** What a gate does with a request: stop it with a reply, or pass it on
      with the (possibly extended) context. */
  datatype Gate = Abort(reply: Reply) | Next(ctx: Context)

  /** The token of an `Authorization` header: split on single spaces, there
      must be exactly two pieces and the first must be "Bearer". */
  function ParseBearer(header: string): Option<string>
  {
    var parts := Split(header, ' ');
    if |parts| != 2 || parts[0] != "Bearer" then None else Some(parts[1])
  }

  /** A header is accepted exactly when it is "Bearer", one space, and a
      token without spaces; the token is what follows the space. */
  lemma BearerExactly(header: string, token: string)
    ensures ParseBearer(header) == Some(token) <==> header == "Bearer " + token && ' ' !in token
  {
    var parts := Split(header, ' ');
    if ParseBearer(header) == Some(token) {
      assert Join(parts, " ") == parts[0] + " " + Join(parts[1..], " ");
      assert parts[1..] == [token];
    }
    if header == "Bearer " + token && ' ' !in token {
      var i := IndexOf(header, ' ');
      assert header[6] == ' ';
      assert header[..6] == "Bearer";
      assert i == 6;
      assert header[7..] == token;
      assert Split(token, ' ') == [token];
      assert parts == ["Bearer", token];
    }
  }

  /** The context after a successful token check. */
  function Authenticated(ctx: Context, claims: Claims): (r: Context)
    ensures UserIDKey in r && RoleKey in r && IsAuthenticatedKey in r
    ensures r[IsAuthenticatedKey] == BoolVal(true)
    ensures r[UserIDKey] == IntVal(claims.userID) && r[RoleKey] == RoleVal(claims.role)
    ensures forall k :: k in ctx && k !in {UserIDKey, RoleKey, IsAuthenticatedKey} ==> k in r && r[k] == ctx[k]
  {
    ctx[UserIDKey := IntVal(claims.userID)][RoleKey := RoleVal(claims.role)][IsAuthenticatedKey := BoolVal(true)]
  }

  /** AuthMiddleware: aborts with 401 on a missing header, a malformed one
      or an invalid token; otherwise passes on with the user id, the role
      and the authenticated flag set from the claims. */
  function AuthMiddleware(ctx: Context, header: string, validate: string -> Option<Claims>): (g: Gate)
    ensures g.Next? <==> ParseBearer(header).Some? && validate(ParseBearer(header).value).Some?
    ensures g.Abort? ==> g.reply.status == Unauthorized
    ensures header == "" ==> g == Abort(Reply(Unauthorized, "Отсутствует заголовок Authorization"))
    ensures g.Next? ==> UserIDKey in g.ctx && RoleKey in g.ctx && IsAuthenticatedKey in g.ctx
    ensures g.Next? ==> var claims := validate(ParseBearer(header).value).value;
      && g.ctx[IsAuthenticatedKey] == BoolVal(true)
      && g.ctx[UserIDKey] == IntVal(claims.userID) && g.ctx[RoleKey] == RoleVal(claims.role)
      && (forall k :: k in ctx && k !in {UserIDKey, RoleKey, IsAuthenticatedKey} ==> k in g.ctx && g.ctx[k] == ctx[k])
  {
    if header == "" then Abort(Reply(Unauthorized, "Отсутствует заголовок Authorization"))
    else
      var token := ParseBearer(header);
      if token.None? then Abort(Reply(Unauthorized, "Неверный формат заголовка Authorization"))
      else
        var claims := validate(token.value);
        if claims.None? then Abort(Reply(Unauthorized, "Недействительный токен"))
        else Next(Authenticated(ctx, claims.value))
  }

  /** OptionalAuth: never stops a request; the authenticated flag is true
      exactly when a well-formed header carries a valid token, and false
      otherwise. */
  function OptionalAuth(ctx: Context, header: string, validate: string -> Option<Claims>): (g: Gate)
    ensures g.Next?
    ensures IsAuthenticatedKey in g.ctx
    ensures g.ctx[IsAuthenticatedKey] == BoolVal(true) <==>
      ParseBearer(header).Some? && validate(ParseBearer(header).value).Some?
    ensures g.ctx[IsAuthenticatedKey] != BoolVal(true) ==> g.ctx == ctx[IsAuthenticatedKey := BoolVal(false)]
  {
    var unauthenticated := ctx[IsAuthenticatedKey := BoolVal(false)];
    if header == "" then Next(unauthenticated)
    else
      var token := ParseBearer(header);
      if token.None? then Next(unauthenticated)
      else
        var claims := validate(token.value);
        if claims.None? then Next(unauthenticated)
        else Next(Authenticated(unauthenticated, claims.value))
  }

  /** RequireAuth: passes only when the flag is present and exactly the
      boolean true. */
  function RequireAuth(ctx: Context): (g: Gate)
    ensures g.Next? <==> IsAuthenticatedKey in ctx && ctx[IsAuthenticatedKey] == BoolVal(true)
    ensures g.Next? ==> g.ctx == ctx
    ensures g.Abort? ==> g.reply == Reply(Unauthorized, "Требуется авторизация")
  {
    if IsAuthenticatedKey !in ctx || ctx[IsAuthenticatedKey] != BoolVal(true) then
      Abort(Reply(Unauthorized, "Требуется авторизация"))
    else Next(ctx)
  }

  /** Behind AuthMiddleware, RequireAuth passes exactly the requests with a
      valid token; behind OptionalAuth the same holds, whatever the context
      held before. */
  lemma AuthGatesAgree(ctx: Context, header: string, validate: string -> Option<Claims>)
    ensures var g := AuthMiddleware(ctx, header, validate);
      (g.Next? && RequireAuth(g.ctx).Next?) <==> ParseBearer(header).Some? && validate(ParseBearer(header).value).Some?
    ensures var g := OptionalAuth(ctx, header, validate);
      RequireAuth(g.ctx).Next? <==> ParseBearer(header).Some? && validate(ParseBearer(header).value).Some?
  {
  }

  /** RequireRoleMiddleware: no role in the context gives 401, a role of
      the wrong type 500; otherwise the request passes exactly when the
      role is one of the allowed ones. */
  method RequireRole(ctx: Context, roles: seq<Role>) returns (g: Gate)
    ensures g.Next? <==> RoleKey in ctx && ctx[RoleKey].RoleVal? && ctx[RoleKey].role in roles
    ensures g.Next? ==> g.ctx == ctx
    ensures RoleKey !in ctx ==> g == Abort(Reply(Unauthorized, "Требуется авторизация"))
    ensures RoleKey in ctx && !ctx[RoleKey].RoleVal? ==> g == Abort(Reply(InternalError, "Неверный формат роли"))
    ensures RoleKey in ctx && ctx[RoleKey].RoleVal? && ctx[RoleKey].role !in roles ==>
      g == Abort(Reply(Forbidden, "Недостаточно прав"))
    ensures |roles| == 0 ==> g.Abort?
  {
    if RoleKey !in ctx {
      return Abort(Reply(Unauthorized, "Требуется авторизация"));
    }
    var value := ctx[RoleKey];
    if !value.RoleVal? {
      return Abort(Reply(InternalError, "Неверный формат роли"));
    }
    var role := value.role;
    var allowed := false;
    var i := 0;
    while i < |roles|
      invariant 0 <= i <= |roles|
      invariant allowed <==> role in roles[..i]
    {
      if role == roles[i] {
        allowed := true;
        assert role in roles[..i + 1];
        break;
      }
      assert roles[..i + 1] == roles[..i] + [roles[i]];
      i := i + 1;
    }
    assert allowed ==> role in roles;
    assert !allowed ==> roles[..i] == roles;
    if !allowed {
      return Abort(Reply(Forbidden, "Недостаточно прав"));
    }
    return Next(ctx);
  }
}
