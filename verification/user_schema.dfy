/** The user payload schemas and the role picklist. */
module UserSchema {
  import opened Js
  import opened Patterns
  import opened Valibot

  const Roles: seq<string> := ["admin", "teacher", "student", "tutor_parent"]
  const UserRoleSchema := Picklist(Roles)

  const CreateUserNameField := StringPipe([MinLength(8), MaxLength(50), Regex(WordChars)])
  const UserNameField := StringPipe([MinLength(8), MaxLength(50)])
  const PasswordField := StringPipe([MinLength(8), MaxLength(100)])
  const EmailField := StringPipe([EmailFormat, MaxLength(100)])

  const UserSchema: ObjectSchema := [
    ("uuid", UuidSchema), ("user_name", UserNameField), ("password", PasswordField),
    ("created_at", IsoDateSchema), ("email", EmailField), ("is_active", BooleanSchema), ("role", UserRoleSchema)]
  const CreateUserSchema: ObjectSchema := [
    ("user_name", CreateUserNameField), ("password", PasswordField), ("email", EmailField),
    ("is_active", BooleanSchema), ("role", UserRoleSchema)]
  const UpdateUserSchema: ObjectSchema := [
    ("user_name", UserNameField), ("password", PasswordField), ("email", EmailField),
    ("is_active", BooleanSchema), ("role", UserRoleSchema)]

  predicate IsRole(v: JsValue) {
    v.Str? && (v.s == "admin" || v.s == "teacher" || v.s == "student" || v.s == "tutor_parent")
  }

  /** A registrable user name: 8 to 50 characters from `[A-Za-z0-9_]`. */
  predicate CreateUserNameOk(v: JsValue) {
    TextBetween(v, 8, 50) && IsWordText(v.s)
  }

  predicate PasswordOk(v: JsValue) {
    TextBetween(v, 8, 100)
  }

  /** The library's email format, and at most 100 characters. */
  predicate EmailOk(v: JsValue, fmt: Formats) {
    v.Str? && fmt.isEmail(v.s) && |v.s| <= 100
  }

  /** The fields the create and update payloads share. */
  predicate CommonUserFields(v: JsValue, fmt: Formats) {
    && v.Obj?
    && PasswordOk(Field(v, "password"))
    && EmailOk(Field(v, "email"), fmt)
    && Field(v, "is_active").Bool?
    && IsRole(Field(v, "role"))
  }

  /** A role is accepted exactly when it is one of the four role names. */
  lemma RoleAcceptance(v: JsValue, fmt: Formats)
    ensures Accepts(UserRoleSchema, v, fmt) <==> IsRole(v)
  {
  }

  /** Registration: the name must be 8 to 50 word characters, the password 8
      to 100 characters, the email well formed and at most 100, `is_active` a
      boolean that must be present, and the role one of the four. */
  lemma CreateUserAcceptance(v: JsValue, fmt: Formats)
    ensures Parse(CreateUserSchema, v, fmt).Some? <==>
      CommonUserFields(v, fmt) && CreateUserNameOk(Field(v, "user_name"))
  {
    CreateUserEntries(v, fmt);
    CommonMeanings(v, fmt);
    PipeOfThree(MinLength(8), MaxLength(50), Regex(WordChars), Field(v, "user_name"), fmt);
  }

  /** Update: as registration, but the name is checked for length only. */
  lemma UpdateUserAcceptance(v: JsValue, fmt: Formats)
    ensures Parse(UpdateUserSchema, v, fmt).Some? <==>
      CommonUserFields(v, fmt) && TextBetween(Field(v, "user_name"), 8, 50)
  {
    UpdateUserEntries(v, fmt);
    CommonMeanings(v, fmt);
    PipeOfTwo(MinLength(8), MaxLength(50), Field(v, "user_name"), fmt);
  }

  /** The full record adds a UUID `uuid` and an ISO-date `created_at` to the
      update fields. */
  lemma UserAcceptance(v: JsValue, fmt: Formats)
    ensures Parse(UserSchema, v, fmt).Some? <==>
      && Parse(UpdateUserSchema, v, fmt).Some?
      && UuidText(Field(v, "uuid")) && IsoDateText(Field(v, "created_at"), fmt)
  {
    UserEntries(v, fmt);
    UpdateUserEntries(v, fmt);
    UuidEntry("uuid", v, fmt);
    IsoDateEntry("created_at", v, fmt);
  }

  /** Every payload registration accepts, update accepts too. */
  lemma CreateImpliesUpdate(v: JsValue, fmt: Formats)
    ensures Parse(CreateUserSchema, v, fmt).Some? ==> Parse(UpdateUserSchema, v, fmt).Some?
  {
    CreateUserAcceptance(v, fmt);
    UpdateUserAcceptance(v, fmt);
  }

  /** ... but not conversely: a name with a dot passes the update check and
      fails the registration check. */
  lemma DottedNameOnlyUpdatable(fmt: Formats)
    ensures Accepts(UserNameField, Str("john.doe1"), fmt)
    ensures !Accepts(CreateUserNameField, Str("john.doe1"), fmt)
  {
    PipeOfTwo(MinLength(8), MaxLength(50), Str("john.doe1"), fmt);
    PipeOfThree(MinLength(8), MaxLength(50), Regex(WordChars), Str("john.doe1"), fmt);
    assert !IsWordChar("john.doe1"[4]);
  }

  lemma CommonMeanings(v: JsValue, fmt: Formats)
    ensures EntryAccepted(("password", PasswordField), v, fmt) <==> PasswordOk(Field(v, "password"))
    ensures EntryAccepted(("email", EmailField), v, fmt) <==> EmailOk(Field(v, "email"), fmt)
    ensures EntryAccepted(("is_active", BooleanSchema), v, fmt) <==> Field(v, "is_active").Bool?
    ensures EntryAccepted(("role", UserRoleSchema), v, fmt) <==> IsRole(Field(v, "role"))
  {
    PipeOfTwo(MinLength(8), MaxLength(100), Field(v, "password"), fmt);
    PipeOfTwo(EmailFormat, MaxLength(100), Field(v, "email"), fmt);
    RoleAcceptance(Field(v, "role"), fmt);
  }

  lemma CreateUserEntries(v: JsValue, fmt: Formats)
    ensures EntriesAccepted(CreateUserSchema, v, fmt) <==>
      && EntryAccepted(("user_name", CreateUserNameField), v, fmt)
      && EntryAccepted(("password", PasswordField), v, fmt)
      && EntryAccepted(("email", EmailField), v, fmt)
      && EntryAccepted(("is_active", BooleanSchema), v, fmt)
      && EntryAccepted(("role", UserRoleSchema), v, fmt)
  {
    var s := CreateUserSchema;
    if EntriesAccepted(s, v, fmt) {
      assert EntryAccepted(s[0], v, fmt) && EntryAccepted(s[1], v, fmt) && EntryAccepted(s[2], v, fmt);
      assert EntryAccepted(s[3], v, fmt) && EntryAccepted(s[4], v, fmt);
    }
  }

  lemma UpdateUserEntries(v: JsValue, fmt: Formats)
    ensures EntriesAccepted(UpdateUserSchema, v, fmt) <==>
      && EntryAccepted(("user_name", UserNameField), v, fmt)
      && EntryAccepted(("password", PasswordField), v, fmt)
      && EntryAccepted(("email", EmailField), v, fmt)
      && EntryAccepted(("is_active", BooleanSchema), v, fmt)
      && EntryAccepted(("role", UserRoleSchema), v, fmt)
  {
    var s := UpdateUserSchema;
    if EntriesAccepted(s, v, fmt) {
      assert EntryAccepted(s[0], v, fmt) && EntryAccepted(s[1], v, fmt) && EntryAccepted(s[2], v, fmt);
      assert EntryAccepted(s[3], v, fmt) && EntryAccepted(s[4], v, fmt);
    }
  }

  lemma UserEntries(v: JsValue, fmt: Formats)
    ensures EntriesAccepted(UserSchema, v, fmt) <==>
      && EntriesAccepted(UpdateUserSchema, v, fmt)
      && EntryAccepted(("uuid", UuidSchema), v, fmt)
      && EntryAccepted(("created_at", IsoDateSchema), v, fmt)
  {
    UpdateUserEntries(v, fmt);
    var s := UserSchema;
    if EntriesAccepted(s, v, fmt) {
      assert EntryAccepted(s[0], v, fmt) && EntryAccepted(s[1], v, fmt) && EntryAccepted(s[2], v, fmt);
      assert EntryAccepted(s[3], v, fmt) && EntryAccepted(s[4], v, fmt) && EntryAccepted(s[5], v, fmt);
      assert EntryAccepted(s[6], v, fmt);
    }
  }
}
