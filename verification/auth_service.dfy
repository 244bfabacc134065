/** The authentication service: payload validation in front of the
    repository, and the rewrapping of validation errors. The message of a
    thrown validation error is library text and comes in as a parameter. */
module AuthService {
  import opened Results
  import opened Text
  import opened Js
  import opened Valibot
  import opened Connections
  import opened Jwt
  import UserSchema
  import AuthRepo

  const IdentifierField := StringPipe([MinLength(1), MaxLength(100)])
  const LoginPasswordField := StringPipe([MinLength(8), MaxLength(20)])

  const LoginSchema: ObjectSchema := [("identifier", IdentifierField), ("password", LoginPasswordField)]

  const RegisterPrefix := "Payload not valid: "
  const LoginPrefix := "Payload inválido: "

  /** The `catch` blocks: a message mentioning "valibot" is prefixed, any
      other error is rethrown as it is. */
  function Rewrap(prefix: string, msg: string): string {
    if Contains(msg, "valibot") then prefix + msg else msg
  }

  /** The login payload: an identifier of 1 to 100 characters and a password
      of 8 to 20. */
  predicate ValidLoginPayload(v: JsValue) {
    v.Obj? && TextBetween(Field(v, "identifier"), 1, 100) && TextBetween(Field(v, "password"), 8, 20)
  }

  lemma LoginAcceptance(v: JsValue, fmt: Formats)
    ensures Parse(LoginSchema, v, fmt).Some? <==> ValidLoginPayload(v)
  {
    var s := LoginSchema;
    assert EntriesAccepted(s, v, fmt) <==> EntryAccepted(s[0], v, fmt) && EntryAccepted(s[1], v, fmt);
    PipeOfTwo(MinLength(1), MaxLength(100), Field(v, "identifier"), fmt);
    PipeOfTwo(MinLength(8), MaxLength(20), Field(v, "password"), fmt);
  }

  /** The validated registration payload as the repository receives it. */
  function ToCreateUser(v: JsValue, fmt: Formats): (dto: AuthRepo.CreateUser)
    requires Parse(UserSchema.CreateUserSchema, v, fmt).Some?
    ensures Field(v, "user_name") == Str(dto.userName) && Field(v, "email") == Str(dto.email)
    ensures Field(v, "password") == Str(dto.password) && Field(v, "role") == Str(dto.role)
    ensures dto.isActive.Some? && Field(v, "is_active") == Bool(dto.isActive.value)
  {
    UserSchema.CreateUserAcceptance(v, fmt);
    var m := Parse(UserSchema.CreateUserSchema, v, fmt).value;
    var s := UserSchema.CreateUserSchema;
    assert m[s[0].0] == Field(v, "user_name") && m[s[1].0] == Field(v, "password") && m[s[2].0] == Field(v, "email");
    assert m[s[3].0] == Field(v, "is_active") && m[s[4].0] == Field(v, "role");
    AuthRepo.CreateUser(m["user_name"].s, m["email"].s, m["password"].s, Some(m["is_active"].b), m["role"].s)
  }

  /** `registerUser`: validate against the registration schema, then
      register; an invalid payload never reaches the database. */
  function RegisterUser(
    users: seq<AuthRepo.UserRow>, payload: JsValue, fmt: Formats, validationMessage: string,
    hash: (string, nat) -> string, newId: string, now: int): (r: AuthRepo.Registration)
    ensures Parse(UserSchema.CreateUserSchema, payload, fmt).None? ==>
      r.run == Run(Err(Rewrap(RegisterPrefix, validationMessage)), []) && r.users == users
    ensures Parse(UserSchema.CreateUserSchema, payload, fmt).Some? ==>
      var repo := AuthRepo.RegisterUser(users, ToCreateUser(payload, fmt), hash, newId, now);
      r.users == repo.users && r.run.trace == repo.run.trace
      && (repo.run.result.Ok? ==> r.run.result == repo.run.result)
      && (repo.run.result.Err? ==> r.run.result == Err(Rewrap(RegisterPrefix, repo.run.result.msg)))
  {
    match Parse(UserSchema.CreateUserSchema, payload, fmt)
    case None => AuthRepo.Registration(Run(Err(Rewrap(RegisterPrefix, validationMessage)), []), users)
    case Some(_) =>
      var repo := AuthRepo.RegisterUser(users, ToCreateUser(payload, fmt), hash, newId, now);
      match repo.run.result
      case Ok(_) => repo
      case Err(e) => AuthRepo.Registration(Run(Err(Rewrap(RegisterPrefix, e)), repo.run.trace), repo.users)
  }

  /** `loginUser`: validate against the login schema, then log in. */
  function LoginUser(
    users: seq<AuthRepo.UserRow>, payload: JsValue, fmt: Formats, validationMessage: string,
    matches: (string, string) -> bool, lib: JwtLibrary, cfg: JwtConfig): (r: Run<AuthRepo.Tokens>)
    ensures !ValidLoginPayload(payload) ==> r == Run(Err(Rewrap(LoginPrefix, validationMessage)), [])
    ensures ValidLoginPayload(payload) ==>
      var repo := AuthRepo.LoginUser(users, Field(payload, "identifier").s, Field(payload, "password").s, matches, lib, cfg);
      r.trace == repo.trace
      && (repo.result.Ok? ==> r.result == repo.result)
      && (repo.result.Err? ==> r.result == Err(Rewrap(LoginPrefix, repo.result.msg)))
  {
    LoginAcceptance(payload, fmt);
    match Parse(LoginSchema, payload, fmt)
    case None => Run(Err(Rewrap(LoginPrefix, validationMessage)), [])
    case Some(m) =>
      assert m[LoginSchema[0].0] == Field(payload, "identifier") && m[LoginSchema[1].0] == Field(payload, "password");
      var repo := AuthRepo.LoginUser(users, m["identifier"].s, m["password"].s, matches, lib, cfg);
      match repo.result
      case Ok(_) => repo
      case Err(e) => Run(Err(Rewrap(LoginPrefix, e)), repo.trace)
  }

  /** A message without the letter 'v' cannot mention "valibot". */
  lemma NoVMeansNoRewrap(prefix: string, msg: string)
    requires 'v' !in msg
    ensures Rewrap(prefix, msg) == msg
  {
    if Contains(msg, "valibot") {
      ContainsFirstChar(msg, "valibot");
    }
  }

  /** The repository's errors come out of the service unchanged: neither
      "Error in login" nor "Failed to create user" mentions valibot. */
  lemma LoginFailurePassesThrough()
    ensures Rewrap(LoginPrefix, AuthRepo.LoginFailed) == AuthRepo.LoginFailed
  {
    assert 'v' !in AuthRepo.LoginFailed;
    NoVMeansNoRewrap(LoginPrefix, AuthRepo.LoginFailed);
  }

  lemma CreateFailurePassesThrough()
    ensures Rewrap(RegisterPrefix, AuthRepo.CreateFailed) == AuthRepo.CreateFailed
  {
    assert 'v' !in AuthRepo.CreateFailed;
    NoVMeansNoRewrap(RegisterPrefix, AuthRepo.CreateFailed);
  }

  /** So a failed login through the service always reads "Error in login",
      or is a rejected payload that never touched the database. */
  lemma LoginErrorsAreOpaque(
    users: seq<AuthRepo.UserRow>, payload: JsValue, fmt: Formats, validationMessage: string,
    matches: (string, string) -> bool, lib: JwtLibrary, cfg: JwtConfig)
    ensures var r := LoginUser(users, payload, fmt, validationMessage, matches, lib, cfg);
      r.result.Err? ==> r.result.msg == AuthRepo.LoginFailed || r.trace == []
  {
    LoginFailurePassesThrough();
  }

  /** Registration always hands the repository an explicit `is_active`: the
      schema requires the boolean, so the repository's default never applies. */
  lemma RegistrationAlwaysSetsActive(v: JsValue, fmt: Formats)
    requires Parse(UserSchema.CreateUserSchema, v, fmt).Some?
    ensures ToCreateUser(v, fmt).isActive.Some?
    ensures Field(v, "is_active") == Bool(ToCreateUser(v, fmt).isActive.value)
  {
  }

  /** A password of 21 to 100 characters is accepted at registration but can
      never get past login validation, so its owner cannot log in. */
  lemma LongPasswordCannotLogIn(
    users: seq<AuthRepo.UserRow>, payload: JsValue, fmt: Formats, validationMessage: string,
    matches: (string, string) -> bool, lib: JwtLibrary, cfg: JwtConfig)
    requires Field(payload, "password").Str? && 21 <= |Field(payload, "password").s| <= 100
    ensures UserSchema.PasswordOk(Field(payload, "password"))
    ensures LoginUser(users, payload, fmt, validationMessage, matches, lib, cfg).result.Err?
    ensures LoginUser(users, payload, fmt, validationMessage, matches, lib, cfg).trace == []
  {
  }
}
