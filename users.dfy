// The user entity and the values built from it: roles, the stored row, the
// public profile, and the refresh and password-reset tokens. Hashing, UUID
// generation and the clock are oracles: their results arrive as parameters.

module Users {
  import opened Common
  import Validators

  /** The closed set of roles a user can hold. */
  datatype Role = RoleUser | RoleModerator | RoleAdmin

  function RoleName(r: Role): string
  {
    match r
    case RoleUser => "user"
    case RoleModerator => "moderator"
    case RoleAdmin => "admin"
  }

  /** The role a string names, if it names one. */
  function ParseRole(s: string): (r: Option<Role>)
    ensures r.Some? <==> s in {"user", "moderator", "admin"}
  {
    if s == "user" then Some(RoleUser)
    else if s == "moderator" then Some(RoleModerator)
    else if s == "admin" then Some(RoleAdmin)
    else None
  }

  /** Role names and parsing agree in both directions: every role's name
      parses back to it, and every accepted string is a role's name. */
  lemma RoleNamesRoundTrip(r: Role, s: string)
    ensures ParseRole(RoleName(r)) == Some(r)
    ensures ParseRole(s).Some? ==> RoleName(ParseRole(s).value) == s
  {
  }

  /** One row of the users table. */
  datatype UserRow = UserRow(
    id: int,
    email: string,
    phone: string,
    passwordHash: string,
    firstName: string,
    lastName: string,
    role: Role,
    createdAt: int,
    updatedAt: int)

  /** The body of a registration request. */
  datatype RegisterInput = RegisterInput(
    email: string,
    phone: string,
    password: string,
    passwordConfirm: string,
    firstName: string,
    lastName: string)

  /** The binding tags of a registration body. `required` refuses the
      empty string, `min=8` a password of fewer than eight runes,
      `eqfield` a confirmation that differs from the password, and the
      phone tag is the custom rule. `isEmail` is the `email` tag's check. */
  predicate ValidRegister(input: RegisterInput, isEmail: string -> bool)
  {
    && input.email != "" && isEmail(input.email)
    && Validators.ValidPhone(input.phone)
    && |input.password| >= 8
    && input.passwordConfirm != "" && input.passwordConfirm == input.password
  }

  /** The body of a login request. */
  datatype LoginInput = LoginInput(email: string, password: string)

  /** The binding tags of a login body: a non-empty email the `email`
      check admits, and a non-empty password. */
  predicate ValidLogin(input: LoginInput, isEmail: string -> bool)
  {
    input.email != "" && isEmail(input.email) && input.password != ""
  }

  /** The profile shown to clients. */
  datatype Profile = Profile(
    id: int,
    email: string,
    phone: string,
    firstName: string,
    lastName: string,
    createdAt: int)

  /** NewUser: hashing the password can fail (`hash` is None); otherwise
      the user carries the input's contact data, the hash, role `user` and
      equal creation and update times. The id is assigned on insert. */
  function NewUser(input: RegisterInput, hash: Option<string>, now: int): (r: Result<UserRow>)
    ensures r.Success? <==> hash.Some?
    ensures r.Success? ==> r.value.role == RoleUser && r.value.createdAt == r.value.updatedAt == now
    ensures r.Success? ==> r.value.passwordHash == hash.value
    ensures r.Success? ==>
      (r.value.email, r.value.phone, r.value.firstName, r.value.lastName) == (input.email, input.phone, input.firstName, input.lastName)
  {
    if hash.None? then Failure("ошибка хеширования пароля")
    else Success(UserRow(0, input.email, input.phone, hash.value, input.firstName, input.lastName, RoleUser, now, now))
  }

  function ToProfile(u: UserRow): Profile
  {
    Profile(u.id, u.email, u.phone, u.firstName, u.lastName, u.createdAt)
  }

  /** The profile exposes neither the password hash nor the role: users
      that differ only there (and in the update time) show the same
      profile, and the visible fields are the user's own. */
  lemma ProfileHidesSecrets(u: UserRow, hash: string, role: Role, updatedAt: int)
    ensures ToProfile(u.(passwordHash := hash, role := role, updatedAt := updatedAt)) == ToProfile(u)
    ensures var p := ToProfile(u);
      (p.id, p.email, p.phone, p.firstName, p.lastName, p.createdAt)
        == (u.id, u.email, u.phone, u.firstName, u.lastName, u.createdAt)
  {
  }

  /** A row of refresh_tokens or of password_reset_tokens. */
  datatype Token = Token(id: int, userID: int, token: string, expiresAt: int, createdAt: int)

  /** NewRefreshToken: a token of the user, created now, expiring
      `expiresIn` seconds later. */
  function NewRefreshToken(userID: int, token: string, now: int, expiresIn: int): (t: Token)
    ensures t.userID == userID && t.token == token
    ensures t.createdAt == now && t.expiresAt - t.createdAt == expiresIn
  {
    Token(0, userID, token, now + expiresIn, now)
  }

  /** A password-reset token lives 24 hours, in seconds. */
  const ResetTokenLifetime: int := 24 * 60 * 60

  /** NewPasswordResetToken: a token of the user expiring exactly 24 hours
      after its creation. */
  function NewPasswordResetToken(userID: int, token: string, now: int): (t: Token)
    ensures t.userID == userID && t.token == token && t.createdAt == now
    ensures t.expiresAt == t.createdAt + 86400
  {
    Token(0, userID, token, now + ResetTokenLifetime, now)
  }
}
