/** The authentication repository: login against the `users` table and
    registration of new users, each on one pooled connection. Password
    hashing and comparison (bcrypt) are parameters. */
module AuthRepo {
  import opened Results
  import opened Js
  import opened Sql
  import opened Connections
  import opened Jwt

  /** A row of the `users` table; `createdAt` is the `NOW()` timestamp. */
  datatype UserRow = UserRow(
    id: string,
    userName: string,
    password: string,
    email: string,
    isActive: bool,
    role: string,
    createdAt: int)

  /** The roles that may log in. */
  const AllowedLoginRoles: seq<string> := ["admin", "teacher"]

  const LoginQuery :=
    "SELECT id AS uuid, user_name, password, role, is_active FROM users "
    + "WHERE (user_name = $1 OR email = $1) AND role::text = ANY($2) AND is_active = TRUE LIMIT 1"

  const CredentialsRejected := "Credentials invalid or user not allowed to login"
  const UserNotActive := "User is not active"
  const PasswordMismatch := "Credentials invalid, password does not match"
  const LoginFailed := "Error in login"

  /** The login query's `WHERE` clause: the identifier is the user name or
      the email, the role may log in, and the account is active. */
  predicate LoginEligible(u: UserRow, identifier: string) {
    (u.userName == identifier || u.email == identifier) && u.role in AllowedLoginRoles && u.isActive
  }

  /** The row `LIMIT 1` hands back; the model takes the first eligible row in
      table order. */
  function SelectLoginRow(users: seq<UserRow>, identifier: string): (r: Option<UserRow>)
    ensures r.None? <==> forall i :: 0 <= i < |users| ==> !LoginEligible(users[i], identifier)
    ensures r.Some? ==> exists i :: 0 <= i < |users| && users[i] == r.value && LoginEligible(users[i], identifier)
    decreases |users|
  {
    if users == [] then None
    else if LoginEligible(users[0], identifier) then Some(users[0])
    else
      var rest := SelectLoginRow(users[1..], identifier);
      assert forall i :: 1 <= i < |users| ==> users[i] == users[1..][i - 1];
      rest
  }

  datatype Tokens = Tokens(accessToken: string, refreshToken: string)

  /** What signing both tokens for `u` yields. */
  function TokensFor(lib: JwtLibrary, cfg: JwtConfig, u: UserRow): Result<Tokens> {
    var access :- SignAccessToken(lib, cfg, AccessPayload(u.id, u.userName, u.role));
    var refresh :- SignRefreshToken(lib, cfg, RefreshPayload(u.id));
    Ok(Tokens(access, refresh))
  }

  /** The body of the `try` block of `loginUser`, with its detailed errors. */
  function LoginAttempt(
    users: seq<UserRow>, identifier: string, plainPassword: string,
    matches: (string, string) -> bool, lib: JwtLibrary, cfg: JwtConfig): (r: Result<Tokens>)
    ensures (forall i :: 0 <= i < |users| ==> !LoginEligible(users[i], identifier)) ==> r == Err(CredentialsRejected)
    ensures r.Ok? ==> exists i :: (0 <= i < |users| && LoginEligible(users[i], identifier)
      && matches(plainPassword, users[i].password) && r == TokensFor(lib, cfg, users[i]))
    ensures (exists i :: 0 <= i < |users| && LoginEligible(users[i], identifier))
      && (forall i :: 0 <= i < |users| && LoginEligible(users[i], identifier) ==> !matches(plainPassword, users[i].password))
      ==> r == Err(PasswordMismatch)
  {
    match SelectLoginRow(users, identifier)
    case None => Err(CredentialsRejected)
    case Some(u) =>
      if !u.isActive then Err(UserNotActive)
      else if !matches(plainPassword, u.password) then Err(PasswordMismatch)
      else TokensFor(lib, cfg, u)
  }

  /** The login query, bound to the identifier and the allowed roles. */
  function LoginStatement(identifier: string): Event {
    Exec(LoginQuery, [SqlText(identifier), SqlTextArray(AllowedLoginRoles)])
  }

  /** The connection `loginUser` holds while it computes `outcome`. */
  function LoginSession(identifier: string, outcome: Result<Tokens>): (r: Run<Tokens>)
    ensures r.result == outcome && IsSession(r.trace)
    ensures r.trace == [Connect, LoginStatement(identifier), Release]
  {
    WithClient(Run(outcome, [LoginStatement(identifier)]))
  }

  /** `loginUser`: one connection, the login query with the identifier and
      the allowed roles, and every failure reported as "Error in login". */
  function LoginUser(
    users: seq<UserRow>, identifier: string, plainPassword: string,
    matches: (string, string) -> bool, lib: JwtLibrary, cfg: JwtConfig): (r: Run<Tokens>)
    ensures IsSession(r.trace)
    ensures r.trace == [Connect, LoginStatement(identifier), Release]
    ensures r.result.Err? ==> r.result.msg == LoginFailed
    ensures r.result.Ok? ==> exists i :: (0 <= i < |users| && LoginEligible(users[i], identifier)
      && matches(plainPassword, users[i].password) && r.result == TokensFor(lib, cfg, users[i]))
    ensures (forall i :: 0 <= i < |users| && LoginEligible(users[i], identifier) ==> !matches(plainPassword, users[i].password))
      ==> r.result == Err(LoginFailed)
  {
    var attempt := LoginAttempt(users, identifier, plainPassword, matches, lib, cfg);
    var outcome := if attempt.Ok? then attempt else Err(LoginFailed);
    LoginSession(identifier, outcome)
  }

  /** When exactly one row is eligible for the identifier and the password
      matches it, login signs the tokens of that row. */
  lemma UniqueAccountLogsIn(
    users: seq<UserRow>, identifier: string, plainPassword: string,
    matches: (string, string) -> bool, lib: JwtLibrary, cfg: JwtConfig, k: nat)
    requires k < |users| && LoginEligible(users[k], identifier)
    requires forall i :: 0 <= i < |users| && LoginEligible(users[i], identifier) ==> users[i] == users[k]
    requires matches(plainPassword, users[k].password)
    requires TokensFor(lib, cfg, users[k]).Ok?
    ensures LoginUser(users, identifier, plainPassword, matches, lib, cfg).result == TokensFor(lib, cfg, users[k])
  {
    var u := SelectLoginRow(users, identifier);
    assert u == Some(users[k]);
  }

  // ----- registration -----

  /** The validated registration data; `isActive` may be absent. */
  datatype CreateUser = CreateUser(userName: string, email: string, password: string, isActive: Option<bool>, role: string)

  /** The `RETURNING` columns: everything but the password hash. */
  datatype CreatedUser = CreatedUser(id: string, userName: string, email: string, isActive: bool, role: string, createdAt: int)

  const CheckQuery := "SELECT id FROM users WHERE user_name = $1 OR email = $2 LIMIT 1"
  const InsertQuery :=
    "INSERT INTO users (user_name, password, email, is_active, role, created_at) "
    + "VALUES ($1, $2, $3, $4, $5, NOW()) RETURNING id, user_name, email, is_active, role, created_at"

  const SaltRounds := 12
  const UserExists := "User already exists with this username or email"
  const CreateFailed := "Failed to create user"

  /** The duplicate check's `WHERE` clause. */
  predicate Clashes(u: UserRow, dto: CreateUser) {
    u.userName == dto.userName || u.email == dto.email
  }

  /** The row the insert stores: the password hashed with 12 rounds and
      `is_active` defaulting to true. */
  function NewRow(dto: CreateUser, hash: (string, nat) -> string, id: string, now: int): UserRow {
    UserRow(id, dto.userName, hash(dto.password, SaltRounds), dto.email, dto.isActive.GetOr(true), dto.role, now)
  }

  function Returned(u: UserRow): CreatedUser {
    CreatedUser(u.id, u.userName, u.email, u.isActive, u.role, u.createdAt)
  }

  datatype Registration = Registration(run: Run<CreatedUser>, users: seq<UserRow>)

  /** `registerUser` on the table `users`: the duplicate check, then the
      insert; `newId` is the id the database generates and `now` its `NOW()`.
      Every failure is reported as "Failed to create user". */
  function RegisterUser(
    users: seq<UserRow>, dto: CreateUser, hash: (string, nat) -> string, newId: string, now: int): (r: Registration)
    ensures IsSession(r.run.trace)
    ensures r.run.result.Err? ==> r.run.result.msg == CreateFailed
    ensures |r.run.trace| == (if r.run.result.Ok? then 4 else 3)
    ensures r.run.trace[..2] == [Connect, Exec(CheckQuery, [SqlText(dto.userName), SqlText(dto.email)])]
    ensures (exists i :: 0 <= i < |users| && Clashes(users[i], dto)) <==> r.run.result.Err?
    ensures r.run.result.Err? ==> r.users == users
    ensures r.run.result.Ok? ==>
      && r.users == users + [NewRow(dto, hash, newId, now)]
      && r.run.result.value == CreatedUser(newId, dto.userName, dto.email, dto.isActive.GetOr(true), dto.role, now)
      && r.run.trace[2] == Exec(InsertQuery, [SqlText(dto.userName), SqlText(hash(dto.password, SaltRounds)),
                                              SqlText(dto.email), SqlBool(dto.isActive.GetOr(true)), SqlText(dto.role)])
  {
    var check := Exec(CheckQuery, [SqlText(dto.userName), SqlText(dto.email)]);
    if exists i :: 0 <= i < |users| && Clashes(users[i], dto) then
      var r := WithClient(Run(Err(CreateFailed), [check]));
      assert r.trace == [Connect] + [check] + [Release];
      Registration(r, users)
    else
      var row := NewRow(dto, hash, newId, now);
      var insert := Exec(InsertQuery, [SqlText(row.userName), SqlText(row.password), SqlText(row.email),
                                       SqlBool(row.isActive), SqlText(row.role)]);
      var r := WithClient(Run(Ok(Returned(row)), [check, insert]));
      assert r.trace == [Connect] + [check, insert] + [Release];
      Registration(r, users + [row])
  }

  predicate DistinctNames(users: seq<UserRow>) {
    forall i, j :: 0 <= i < j < |users| ==> users[i].userName != users[j].userName
  }

  predicate DistinctEmails(users: seq<UserRow>) {
    forall i, j :: 0 <= i < j < |users| ==> users[i].email != users[j].email
  }

  /** The duplicate check keeps user names and emails unique. */
  lemma RegistrationKeepsAccountsDistinct(
    users: seq<UserRow>, dto: CreateUser, hash: (string, nat) -> string, newId: string, now: int)
    requires DistinctNames(users) && DistinctEmails(users)
    ensures DistinctNames(RegisterUser(users, dto, hash, newId, now).users)
    ensures DistinctEmails(RegisterUser(users, dto, hash, newId, now).users)
  {
    var after := RegisterUser(users, dto, hash, newId, now).users;
    if after != users {
      assert forall i :: 0 <= i < |users| ==> !Clashes(users[i], dto);
      assert after[|users|].userName == dto.userName && after[|users|].email == dto.email;
      assert forall i :: 0 <= i < |users| ==> after[i] == users[i];
    }
  }

  /** Registration then login: an active admin or teacher account just
      created can log in with its user name and password, provided bcrypt
      accepts the password against its own hash, no other account has that
      user name as its email, and the library signs both tokens. */
  lemma RegisteredUserCanLogIn(
    users: seq<UserRow>, dto: CreateUser, hash: (string, nat) -> string, newId: string, now: int,
    matches: (string, string) -> bool, lib: JwtLibrary, cfg: JwtConfig)
    requires RegisterUser(users, dto, hash, newId, now).run.result.Ok?
    requires dto.role in AllowedLoginRoles && dto.isActive.GetOr(true)
    requires matches(dto.password, hash(dto.password, SaltRounds))
    requires forall i :: 0 <= i < |users| ==> users[i].email != dto.userName
    requires TokensFor(lib, cfg, NewRow(dto, hash, newId, now)).Ok?
    ensures LoginUser(RegisterUser(users, dto, hash, newId, now).users, dto.userName, dto.password, matches, lib, cfg).result
      == TokensFor(lib, cfg, NewRow(dto, hash, newId, now))
  {
    var after := RegisterUser(users, dto, hash, newId, now).users;
    var row := NewRow(dto, hash, newId, now);
    assert after == users + [row];
    forall i | 0 <= i < |users| ensures !LoginEligible(users[i], dto.userName) {
      assert !Clashes(users[i], dto);
    }
    OnlyAppendedEligible(users, row, dto.userName);
    UniqueAccountLogsIn(after, dto.userName, dto.password, matches, lib, cfg, |users|);
  }

  /** When no existing account is eligible, the appended one is the only eligible account. */
  lemma OnlyAppendedEligible(users: seq<UserRow>, row: UserRow, identifier: string)
    requires forall i :: 0 <= i < |users| ==> !LoginEligible(users[i], identifier)
    ensures forall i :: 0 <= i < |users| + 1 && LoginEligible((users + [row])[i], identifier) ==> (users + [row])[i] == row
  {
  }
}
