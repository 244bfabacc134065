/** Token configuration and claim rules of `src/utils/jwt.ts`.
    Signing and verification themselves are done by a JWT library
    (RFC 7519, HS256 as in section 3.2 of RFC 7518); the model receives that
    library as a pair of uninterpreted functions and claims nothing about them. */
module Jwt {
  import opened Results
  import opened Text
  import opened Js

  /** The token settings as read from the process environment; `None` is an unset variable. */
  datatype Env = Env(
    jwtSecret: Option<string>,
    refreshToken: Option<string>,
    jwtExpiration: Option<string>,
    refreshTokenExpiration: Option<string>,
    jwtIssuer: Option<string>,
    jwtAudience: Option<string>)

  /** `!!value` for an environment variable: set and non-empty. */
  predicate Present(v: Option<string>) {
    v.Some? && v.value != ""
  }

  /** The settings every token operation reads once startup validation passed. */
  datatype JwtConfig = JwtConfig(
    accessSecret: string,
    refreshSecret: string,
    accessExpiration: string,
    refreshExpiration: string,
    issuer: Option<string>,
    audience: Option<string>)

  /** The four settings startup insists on, in the order they are checked. */
  function RequiredSettings(env: Env): seq<(string, Option<string>)> {
    [ ("JWT_SECRET", env.jwtSecret),
      ("REFRESH_TOKEN", env.refreshToken),
      ("JWT_EXPIRATION", env.jwtExpiration),
      ("REFRESH_TOKEN_EXPIRATION", env.refreshTokenExpiration) ]
  }

  function MissingSettingError(key: string): string {
    "Falta " + key + " en configuración"
  }

  /** The first required setting that is absent, by a direct case analysis. */
  function FirstMissing(env: Env): Option<string> {
    if !Present(env.jwtSecret) then Some("JWT_SECRET")
    else if !Present(env.refreshToken) then Some("REFRESH_TOKEN")
    else if !Present(env.jwtExpiration) then Some("JWT_EXPIRATION")
    else if !Present(env.refreshTokenExpiration) then Some("REFRESH_TOKEN_EXPIRATION")
    else None
  }

  /** `validateJWTConfig`, run when the module loads: walks the required
      settings and throws for the first absent one. On success the model
      hands out the configuration the token functions read. */
  method ValidateJWTConfig(env: Env) returns (r: Result<JwtConfig>)
    ensures r.Ok? <==>
      Present(env.jwtSecret) && Present(env.refreshToken)
      && Present(env.jwtExpiration) && Present(env.refreshTokenExpiration)
    ensures r.Err? ==> FirstMissing(env).Some? && r.msg == MissingSettingError(FirstMissing(env).value)
    ensures r.Ok? ==> r.value == JwtConfig(
      env.jwtSecret.value, env.refreshToken.value,
      env.jwtExpiration.value, env.refreshTokenExpiration.value,
      env.jwtIssuer, env.jwtAudience)
  {
    var settings := RequiredSettings(env);
    var i := 0;
    while i < |settings|
      invariant 0 <= i <= |settings|
      invariant forall j :: 0 <= j < i ==> Present(settings[j].1)
    {
      if !Present(settings[i].1) {
        assert i > 0 ==> Present(settings[0].1);
        assert i > 1 ==> Present(settings[1].1);
        assert i > 2 ==> Present(settings[2].1);
        return Err(MissingSettingError(settings[i].0));
      }
      i := i + 1;
    }
    assert Present(settings[0].1) && Present(settings[1].1) && Present(settings[2].1) && Present(settings[3].1);
    return Ok(JwtConfig(
      env.jwtSecret.value, env.refreshToken.value,
      env.jwtExpiration.value, env.refreshTokenExpiration.value,
      env.jwtIssuer, env.jwtAudience));
  }

  // ----- expiresIn format -----

  predicate IsUnit(c: char) {
    c == 's' || c == 'm' || c == 'h' || c == 'd'
  }

  /** The language of `^\d+[smhd]?$`, stated directly: one or more ASCII
      digits, optionally followed by one unit letter. */
  predicate IsDurationText(s: string) {
    || (|s| >= 1 && AllDigits(s))
    || (|s| >= 2 && AllDigits(s[..|s| - 1]) && IsUnit(s[|s| - 1]))
  }

  /** The states of a left-to-right matcher for `^\d+[smhd]?$`. */
  datatype DurationState = Start | InDigits | AfterUnit | Dead

  function DurationStep(st: DurationState, c: char): DurationState {
    match st
    case Start => if IsDigit(c) then InDigits else Dead
    case InDigits => if IsDigit(c) then InDigits else if IsUnit(c) then AfterUnit else Dead
    case AfterUnit => Dead
    case Dead => Dead
  }

  function DurationRun(st: DurationState, s: string): DurationState
    decreases |s|
  {
    if s == [] then st else DurationRun(DurationStep(st, s[0]), s[1..])
  }

  /** Whether the duration pattern accepts `s`: the matcher ends after a
      digit or after the one unit letter that may follow the digits. */
  predicate DurationPatternTest(s: string) {
    var last := DurationRun(Start, s);
    last == InDigits || last == AfterUnit
  }

  lemma {:induction false} DeadRun(s: string)
    ensures DurationRun(Dead, s) == Dead
    decreases |s|
  {
    if s != [] {
      DeadRun(s[1..]);
    }
  }

  lemma {:induction false} InDigitsRun(s: string)
    ensures DurationRun(InDigits, s) == InDigits <==> AllDigits(s)
    ensures DurationRun(InDigits, s) == AfterUnit <==>
      |s| >= 1 && AllDigits(s[..|s| - 1]) && IsUnit(s[|s| - 1])
    decreases |s|
  {
    if s != [] {
      var rest := s[1..];
      if IsDigit(s[0]) {
        InDigitsRun(rest);
        assert AllDigits(s) <==> AllDigits(rest) by {
          assert forall i :: 0 < i < |s| ==> s[i] == rest[i - 1];
        }
        if |rest| >= 1 {
          var p := s[..|s| - 1];
          var q := rest[..|rest| - 1];
          assert s[|s| - 1] == rest[|rest| - 1];
          assert AllDigits(p) <==> AllDigits(q) by {
            assert forall i :: 0 < i < |p| ==> p[i] == q[i - 1];
          }
        }
      } else if IsUnit(s[0]) {
        assert !AllDigits(s);
        if rest != [] {
          DeadRun(rest[1..]);
        }
      } else {
        DeadRun(rest);
        assert !AllDigits(s);
      }
    }
  }

  /** The matcher accepts exactly the duration texts. */
  lemma DurationPatternSpec(s: string)
    ensures DurationPatternTest(s) <==> IsDurationText(s)
  {
    if s == [] {
    } else if IsDigit(s[0]) {
      var rest := s[1..];
      InDigitsRun(rest);
      assert AllDigits(s) <==> AllDigits(rest) by {
        assert forall i :: 0 < i < |s| ==> s[i] == rest[i - 1];
      }
      if |s| >= 2 {
        var p := s[..|s| - 1];
        var q := rest[..|rest| - 1];
        assert AllDigits(p) <==> AllDigits(q) by {
          assert forall i :: 0 < i < |p| ==> p[i] == q[i - 1];
        }
      }
    } else {
      DeadRun(s[1..]);
    }
  }

  /** `normalizeExpiresIn`: a string is trimmed and must match the duration
      pattern; a number must be positive and is rendered in decimal; any other
      value is rejected. */
  function NormalizeExpiresIn(value: JsValue): (r: Result<string>)
    ensures value.Str? ==> (r.Ok? <==> IsDurationText(Trim(value.s)))
    ensures value.Str? && r.Ok? ==> r.value == Trim(value.s)
    ensures value.Str? && r.Err? ==> r.msg == "Formato de expiresIn inválido: " + Trim(value.s)
    ensures value.Num? ==> (r.Ok? <==> value.n > 0)
    ensures value.Num? && r.Ok? && value.n < ExponentFrom ==> r.value == Decimal(value.n)
    ensures value.Num? && r.Ok? && value.n >= ExponentFrom ==> r.value == ExponentForm(value.n)
    ensures !value.Str? && !value.Num? ==> r.Err?
  {
    match value
    case Str(s) =>
      var trimmed := Trim(s);
      DurationPatternSpec(trimmed);
      if DurationPatternTest(trimmed) then Ok(trimmed)
      else Err("Formato de expiresIn inválido: " + trimmed)
    case Num(n) =>
      if n > 0 then Ok(NumberToString(n))
      else Err("Valor de expiresIn inválido: " + Render(value))
    case _ =>
      Err("Valor de expiresIn inválido: " + Render(value))
  }

  /** Normalising an accepted string again gives back the same string. */
  lemma NormalizeIdempotent(s: string)
    requires NormalizeExpiresIn(Str(s)).Ok?
    ensures NormalizeExpiresIn(Str(NormalizeExpiresIn(Str(s)).value)) == NormalizeExpiresIn(Str(s))
  {
    var t := Trim(s);
    assert NormalizeExpiresIn(Str(s)) == Ok(t);
    DurationTextIsTrimmed(t);
    assert IsDurationText(Trim(t));
  }

  /** A duration text has nothing for `trim` to remove. */
  lemma DurationTextIsTrimmed(t: string)
    requires IsDurationText(t)
    ensures Trim(t) == t
  {
    assert IsDigit(t[0]);
    assert !IsJsWhitespace(t[0]);
    assert IsDigit(t[|t| - 1]) || IsUnit(t[|t| - 1]);
    assert !IsJsWhitespace(t[|t| - 1]);
    TrimKeeps(t);
  }

  /** The rendering of an accepted number, given back as a string, is
      accepted as it is exactly when it is plain decimal: from 10^21 on the
      exponent form fails the pattern. */
  lemma NumberRenderingAccepted(n: int)
    requires n > 0
    ensures NormalizeExpiresIn(Str(NumberToString(n))).Ok? <==> n < ExponentFrom
    ensures n < ExponentFrom ==> NormalizeExpiresIn(Str(NumberToString(n))) == Ok(NumberToString(n))
  {
    var d := NumberToString(n);
    if n < ExponentFrom {
      assert d == Decimal(n);
    } else {
      assert d == ExponentForm(n);
      SecondCharacterRejects(d);
    }
    TrimKeepsDigits(d);
  }

  /** A text of three or more characters whose second one is neither a digit
      nor a unit is not a duration. */
  lemma SecondCharacterRejects(s: string)
    requires |s| >= 3 && !IsDigit(s[1]) && !IsUnit(s[1])
    ensures !IsDurationText(s)
  {
    assert s[..|s| - 1][1] == s[1];
  }

  lemma TrimExample()
    ensures Trim(" 007m ") == "007m"
  {
    assert TrimStart(" 007m ") == "007m " by {
      assert " 007m "[1..] == "007m ";
      assert !IsJsWhitespace('0');
    }
    assert TrimEnd("007m ") == "007m" by {
      assert "007m "[..4] == "007m";
      assert !IsJsWhitespace('m');
    }
  }

  /** Surrounding white space is trimmed away before matching. */
  lemma PaddedExampleAccepted()
    ensures NormalizeExpiresIn(Str(" 007m ")) == Ok("007m")
  {
    TrimExample();
    assert IsDurationText("007m") by {
      assert "007m"[..3] == "007";
      assert AllDigits("007") && IsUnit("007m"[3]);
    }
  }

  /** White space between the number and the unit is rejected. */
  lemma InnerSpaceExampleRejected()
    ensures NormalizeExpiresIn(Str("15 m")).Err?
  {
    TrimKeeps("15 m");
    assert "15 m"[2] == ' ' && "15 m"[..3][2] == ' ';
  }

  /** A unit outside s, m, h and d is rejected. */
  lemma WeekExampleRejected()
    ensures NormalizeExpiresIn(Str("1w")).Err?
  {
    TrimKeeps("1w");
    assert !IsDurationText("1w") by {
      assert "1w"[1] == 'w' && !IsDigit('w') && !IsUnit('w');
    }
  }

  // ----- signing and verification options -----

  datatype Algorithm = HS256

  /** The options every signature shares: the algorithm, the issuer when
      configured, and the audience text. */
  datatype BaseOptions = BaseOptions(algorithm: Algorithm, issuer: Option<string>, audience: string)

  datatype SignOptions = SignOptions(algorithm: Algorithm, issuer: Option<string>, audience: string, expiresIn: string)

  /** `audience: undefined` in verify options means the library does not check the audience. */
  datatype VerifyOptions = VerifyOptions(algorithms: seq<Algorithm>, issuer: Option<string>, audience: Option<string>)

  /** `ENV.JWT_AUDIENCE + suffix`: an unset audience concatenates as the text "undefined". */
  function AudienceText(audience: Option<string>): string {
    if audience.Some? then audience.value else "undefined"
  }

  function GetBaseSignOptions(cfg: JwtConfig, isRefresh: bool): BaseOptions {
    BaseOptions(HS256, cfg.issuer, AudienceText(cfg.audience) + (if isRefresh then "_refresh" else ""))
  }

  function AccessVerifyOptions(cfg: JwtConfig): VerifyOptions {
    VerifyOptions([HS256], cfg.issuer, cfg.audience)
  }

  function RefreshVerifyOptions(cfg: JwtConfig): VerifyOptions {
    VerifyOptions([HS256], cfg.issuer, Some(AudienceText(cfg.audience) + "_refresh"))
  }

  /** The audience an access token is signed for is never the one refresh
      verification expects, and, once an audience is configured, the audience
      access verification expects is never a refresh token's. A configured
      empty audience is passed on as given; jsonwebtoken then checks none.
      With no audience configured access verification checks none. */
  lemma AudiencesSeparateTokenClasses(cfg: JwtConfig)
    ensures GetBaseSignOptions(cfg, false).audience != RefreshVerifyOptions(cfg).audience.value
    ensures cfg.audience.Some? ==>
      AccessVerifyOptions(cfg).audience == Some(GetBaseSignOptions(cfg, false).audience)
      && GetBaseSignOptions(cfg, true).audience != AccessVerifyOptions(cfg).audience.value
    ensures cfg.audience.None? ==> AccessVerifyOptions(cfg).audience.None?
    ensures RefreshVerifyOptions(cfg).audience == Some(GetBaseSignOptions(cfg, true).audience)
  {
    var a := AudienceText(cfg.audience);
    assert a + "" == a;
    assert |a + "_refresh"| == |a| + 8;
  }

  // ----- payloads and the library -----

  datatype AccessPayload = AccessPayload(sub: string, userName: string, role: string)

  datatype RefreshPayload = RefreshPayload(sub: string)

  function AccessClaims(p: AccessPayload): map<string, JsValue> {
    map["sub" := Str(p.sub), "user_name" := Str(p.userName), "role" := Str(p.role)]
  }

  function RefreshClaims(p: RefreshPayload): map<string, JsValue> {
    map["sub" := Str(p.sub)]
  }

  /** The JWT library: `sign` yields the error passed to its callback or the
      token (the empty string standing for a missing token); `verify` yields
      the error or the decoded value. */
  datatype JwtLibrary = JwtLibrary(
    sign: (map<string, JsValue>, string, SignOptions) -> Result<string>,
    verify: (string, string, VerifyOptions) -> Result<JsValue>)

  const AccessSignFailed := "No se pudo generar access token"
  const RefreshSignFailed := "No se pudo generar refresh token"

  /** The callback of `jwt.sign`: an error rejects, a falsy token rejects with `noToken`. */
  function SettleSigned(outcome: Result<string>, noToken: string): Result<string> {
    match outcome
    case Err(e) => Err(e)
    case Ok(t) => if t == "" then Err(noToken) else Ok(t)
  }

  /** `signAccessToken`: the access claims, signed with JWT_SECRET, HS256, the
      configured issuer and audience, and JWT_EXPIRATION as the lifetime. */
  function SignAccessToken(lib: JwtLibrary, cfg: JwtConfig, payload: AccessPayload): (r: Result<string>)
    ensures r.Ok? <==>
      IsDurationText(Trim(cfg.accessExpiration))
      && lib.sign(AccessClaims(payload), cfg.accessSecret,
                  SignOptions(HS256, cfg.issuer, AudienceText(cfg.audience), Trim(cfg.accessExpiration))).Ok?
      && lib.sign(AccessClaims(payload), cfg.accessSecret,
                  SignOptions(HS256, cfg.issuer, AudienceText(cfg.audience), Trim(cfg.accessExpiration))).value != ""
    ensures r.Ok? ==>
      lib.sign(AccessClaims(payload), cfg.accessSecret,
               SignOptions(HS256, cfg.issuer, AudienceText(cfg.audience), Trim(cfg.accessExpiration))) == r
  {
    var expiresIn :- NormalizeExpiresIn(Str(cfg.accessExpiration));
    var base := GetBaseSignOptions(cfg, false);
    assert base.audience == AudienceText(cfg.audience) by {
      assert AudienceText(cfg.audience) + "" == AudienceText(cfg.audience);
    }
    var options := SignOptions(base.algorithm, base.issuer, base.audience, expiresIn);
    SettleSigned(lib.sign(AccessClaims(payload), cfg.accessSecret, options), AccessSignFailed)
  }

  /** `signRefreshToken`: the refresh claims, signed with REFRESH_TOKEN, HS256,
      the configured issuer, the `_refresh` audience and REFRESH_TOKEN_EXPIRATION. */
  function SignRefreshToken(lib: JwtLibrary, cfg: JwtConfig, payload: RefreshPayload): (r: Result<string>)
    ensures r.Ok? <==>
      IsDurationText(Trim(cfg.refreshExpiration))
      && lib.sign(RefreshClaims(payload), cfg.refreshSecret,
                  SignOptions(HS256, cfg.issuer, AudienceText(cfg.audience) + "_refresh", Trim(cfg.refreshExpiration))).Ok?
      && lib.sign(RefreshClaims(payload), cfg.refreshSecret,
                  SignOptions(HS256, cfg.issuer, AudienceText(cfg.audience) + "_refresh", Trim(cfg.refreshExpiration))).value != ""
    ensures r.Ok? ==>
      lib.sign(RefreshClaims(payload), cfg.refreshSecret,
               SignOptions(HS256, cfg.issuer, AudienceText(cfg.audience) + "_refresh", Trim(cfg.refreshExpiration))) == r
  {
    var expiresIn :- NormalizeExpiresIn(Str(cfg.refreshExpiration));
    var base := GetBaseSignOptions(cfg, true);
    var options := SignOptions(base.algorithm, base.issuer, base.audience, expiresIn);
    SettleSigned(lib.sign(RefreshClaims(payload), cfg.refreshSecret, options), RefreshSignFailed)
  }

  const AccessTokenInvalid := "Access token inválido o expirado"
  const AccessPayloadInvalid := "Access token con payload inválido"
  const RefreshTokenInvalid := "Refresh token inválido o expirado"
  const RefreshPayloadInvalid := "Refresh token con payload inválido"

  /** A decoded value that access verification resolves with. */
  predicate HasAccessClaims(decoded: JsValue) {
    decoded.Obj? && Truthy(Field(decoded, "sub"))
    && Truthy(Field(decoded, "user_name")) && Truthy(Field(decoded, "role"))
  }

  /** `verifyAccessToken`: library verification with JWT_SECRET, HS256 only,
      the issuer and JWT_AUDIENCE, then the claim checks. */
  function VerifyAccessToken(lib: JwtLibrary, cfg: JwtConfig, token: string): (r: Result<map<string, JsValue>>)
    ensures r.Ok? <==>
      lib.verify(token, cfg.accessSecret, VerifyOptions([HS256], cfg.issuer, cfg.audience)).Ok?
      && HasAccessClaims(lib.verify(token, cfg.accessSecret, VerifyOptions([HS256], cfg.issuer, cfg.audience)).value)
    ensures r.Ok? ==> lib.verify(token, cfg.accessSecret, VerifyOptions([HS256], cfg.issuer, cfg.audience)) == Ok(Obj(r.value))
    ensures lib.verify(token, cfg.accessSecret, VerifyOptions([HS256], cfg.issuer, cfg.audience)).Err? ==>
      r == Err(AccessTokenInvalid)
    ensures r.Err? ==> r.msg == AccessTokenInvalid || r.msg == AccessPayloadInvalid
  {
    match lib.verify(token, cfg.accessSecret, AccessVerifyOptions(cfg))
    case Err(_) => Err(AccessTokenInvalid)
    case Ok(decoded) =>
      if !Truthy(decoded) || decoded.Str? then Err(AccessPayloadInvalid)
      else if !Truthy(Field(decoded, "sub")) || !Truthy(Field(decoded, "user_name")) || !Truthy(Field(decoded, "role"))
      then Err(AccessPayloadInvalid)
      else Ok(decoded.fields)
  }

  /** `verifyRefreshToken`: library verification with REFRESH_TOKEN, HS256
      only, the issuer and the `_refresh` audience, then the `sub` check. */
  function VerifyRefreshToken(lib: JwtLibrary, cfg: JwtConfig, token: string): (r: Result<map<string, JsValue>>)
    ensures r.Ok? <==>
      lib.verify(token, cfg.refreshSecret, VerifyOptions([HS256], cfg.issuer, Some(AudienceText(cfg.audience) + "_refresh"))).Ok?
      && lib.verify(token, cfg.refreshSecret, VerifyOptions([HS256], cfg.issuer, Some(AudienceText(cfg.audience) + "_refresh"))).value.Obj?
      && Truthy(Field(lib.verify(token, cfg.refreshSecret, VerifyOptions([HS256], cfg.issuer, Some(AudienceText(cfg.audience) + "_refresh"))).value, "sub"))
    ensures r.Ok? ==>
      lib.verify(token, cfg.refreshSecret, VerifyOptions([HS256], cfg.issuer, Some(AudienceText(cfg.audience) + "_refresh"))) == Ok(Obj(r.value))
    ensures lib.verify(token, cfg.refreshSecret, VerifyOptions([HS256], cfg.issuer, Some(AudienceText(cfg.audience) + "_refresh"))).Err? ==>
      r == Err(RefreshTokenInvalid)
    ensures r.Err? ==> r.msg == RefreshTokenInvalid || r.msg == RefreshPayloadInvalid
  {
    match lib.verify(token, cfg.refreshSecret, RefreshVerifyOptions(cfg))
    case Err(_) => Err(RefreshTokenInvalid)
    case Ok(decoded) =>
      if !Truthy(decoded) || decoded.Str? then Err(RefreshPayloadInvalid)
      else if !Truthy(Field(decoded, "sub")) then Err(RefreshPayloadInvalid)
      else Ok(decoded.fields)
  }

  /** Signing then verifying an access token, with a library that hands back
      the signed claims plus its own issued-at and expiry claims, resolves
      exactly when the three claims are non-empty, and then with the same
      subject, user name and role. */
  lemma AccessRoundTrip(lib: JwtLibrary, cfg: JwtConfig, p: AccessPayload, token: string, issued: map<string, JsValue>)
    requires SignAccessToken(lib, cfg, p) == Ok(token)
    requires lib.verify(token, cfg.accessSecret, AccessVerifyOptions(cfg)) == Ok(Obj(AccessClaims(p) + issued))
    requires issued.Keys <= {"iat", "exp"}
    ensures VerifyAccessToken(lib, cfg, token).Ok? <==> p.sub != "" && p.userName != "" && p.role != ""
    ensures VerifyAccessToken(lib, cfg, token).Ok? ==>
      var claims := VerifyAccessToken(lib, cfg, token).value;
      claims["sub"] == Str(p.sub) && claims["user_name"] == Str(p.userName) && claims["role"] == Str(p.role)
  {
    AccessClaimsDecoded(p, issued);
    VerifyAccessDecoded(lib, cfg, token, AccessClaims(p) + issued);
  }

  /** The access claims read back from the decoded value with the library's own claims added. */
  lemma AccessClaimsDecoded(p: AccessPayload, issued: map<string, JsValue>)
    requires issued.Keys <= {"iat", "exp"}
    ensures var m := AccessClaims(p) + issued;
      && m["sub"] == Str(p.sub) && m["user_name"] == Str(p.userName) && m["role"] == Str(p.role)
      && (HasAccessClaims(Obj(m)) <==> p.sub != "" && p.userName != "" && p.role != "")
  {
    var m := AccessClaims(p) + issued;
    ClaimsNotIssued(issued);
    assert Field(Obj(m), "sub") == Str(p.sub);
    assert Field(Obj(m), "user_name") == Str(p.userName);
    assert Field(Obj(m), "role") == Str(p.role);
  }

  /** Access verification of a token the library decodes to an object. */
  lemma VerifyAccessDecoded(lib: JwtLibrary, cfg: JwtConfig, token: string, m: map<string, JsValue>)
    requires lib.verify(token, cfg.accessSecret, AccessVerifyOptions(cfg)) == Ok(Obj(m))
    ensures VerifyAccessToken(lib, cfg, token).Ok? <==> HasAccessClaims(Obj(m))
    ensures VerifyAccessToken(lib, cfg, token).Ok? ==> VerifyAccessToken(lib, cfg, token).value == m
  {
  }

  /** The same for refresh tokens and their single `sub` claim. */
  lemma RefreshRoundTrip(lib: JwtLibrary, cfg: JwtConfig, p: RefreshPayload, token: string, issued: map<string, JsValue>)
    requires SignRefreshToken(lib, cfg, p) == Ok(token)
    requires lib.verify(token, cfg.refreshSecret, RefreshVerifyOptions(cfg)) == Ok(Obj(RefreshClaims(p) + issued))
    requires issued.Keys <= {"iat", "exp"}
    ensures VerifyRefreshToken(lib, cfg, token).Ok? <==> p.sub != ""
    ensures VerifyRefreshToken(lib, cfg, token).Ok? ==> VerifyRefreshToken(lib, cfg, token).value["sub"] == Str(p.sub)
  {
    var m := RefreshClaims(p) + issued;
    ClaimsNotIssued(issued);
    assert m["sub"] == Str(p.sub);
    assert Field(Obj(m), "sub") == Str(p.sub);
    VerifyRefreshDecoded(lib, cfg, token, m);
  }

  /** Refresh verification of a token the library decodes to an object. */
  lemma VerifyRefreshDecoded(lib: JwtLibrary, cfg: JwtConfig, token: string, m: map<string, JsValue>)
    requires lib.verify(token, cfg.refreshSecret, RefreshVerifyOptions(cfg)) == Ok(Obj(m))
    ensures VerifyRefreshToken(lib, cfg, token).Ok? <==> Truthy(Field(Obj(m), "sub"))
    ensures VerifyRefreshToken(lib, cfg, token).Ok? ==> VerifyRefreshToken(lib, cfg, token).value == m
  {
  }

  /** The claims a library adds never collide with the payload's. */
  lemma ClaimsNotIssued(issued: map<string, JsValue>)
    requires issued.Keys <= {"iat", "exp"}
    ensures "sub" !in issued && "user_name" !in issued && "role" !in issued
  {
    assert "sub"[0] != "iat"[0] && "sub"[0] != "exp"[0];
    assert "user_name"[0] != "iat"[0] && "user_name"[0] != "exp"[0];
    assert "role"[0] != "iat"[0] && "role"[0] != "exp"[0];
  }
}
