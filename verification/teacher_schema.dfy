/** The teacher payload schemas. */
module TeacherSchema {
  import opened Js
  import opened Valibot

  const NameField := StringPipe([MaxLength(150)])
  const PhoneField := StringPipe([MinLength(10), MaxLength(10)])

  const TeacherSchema: ObjectSchema := [
    ("uuid", UuidSchema), ("created_at", IsoDateSchema),
    ("name", NameField), ("middle_name", NameField), ("last_name", NameField), ("phone", PhoneField),
    ("user_fk", UuidSchema), ("grade_id", UuidSchema), ("location_id", UuidSchema)]
  const CreateTeacherSchema: ObjectSchema := [
    ("name", NameField), ("middle_name", NameField), ("last_name", NameField), ("phone", PhoneField),
    ("user_fk", UuidSchema), ("grade_id", UuidSchema), ("location_id", UuidSchema)]
  const UpdateTeacherSchema: ObjectSchema := [
    ("name", NameField), ("middle_name", NameField), ("last_name", NameField), ("phone", PhoneField),
    ("user_fk", UuidSchema), ("grade_id", UuidSchema), ("location_id", UuidSchema)]

  /** A create or update payload: the three name parts of at most 150
      characters (empty allowed), a phone of exactly 10 characters of any
      kind, and three lower-case UUID references. */
  predicate ValidTeacherPayload(v: JsValue) {
    && v.Obj?
    && TextAtMost(Field(v, "name"), 150)
    && TextAtMost(Field(v, "middle_name"), 150)
    && TextAtMost(Field(v, "last_name"), 150)
    && TextBetween(Field(v, "phone"), 10, 10)
    && UuidText(Field(v, "user_fk"))
    && UuidText(Field(v, "grade_id"))
    && UuidText(Field(v, "location_id"))
  }

  /** Create and update accept exactly the valid payloads, with the same output. */
  lemma CreateTeacherAcceptance(v: JsValue, fmt: Formats)
    ensures Parse(CreateTeacherSchema, v, fmt).Some? <==> ValidTeacherPayload(v)
    ensures Parse(UpdateTeacherSchema, v, fmt) == Parse(CreateTeacherSchema, v, fmt)
  {
    CreateTeacherEntries(v, fmt);
    FieldMeanings(v, fmt);
  }

  /** The full record is the create fields plus a UUID `uuid` and an ISO-date `created_at`. */
  lemma TeacherAcceptance(v: JsValue, fmt: Formats)
    ensures Parse(TeacherSchema, v, fmt).Some? <==>
      ValidTeacherPayload(v) && UuidText(Field(v, "uuid")) && IsoDateText(Field(v, "created_at"), fmt)
  {
    TeacherEntries(v, fmt);
    CreateTeacherEntries(v, fmt);
    FieldMeanings(v, fmt);
    UuidEntry("uuid", v, fmt);
    IsoDateEntry("created_at", v, fmt);
  }

  lemma FieldMeanings(v: JsValue, fmt: Formats)
    ensures EntryAccepted(("name", NameField), v, fmt) <==> TextAtMost(Field(v, "name"), 150)
    ensures EntryAccepted(("middle_name", NameField), v, fmt) <==> TextAtMost(Field(v, "middle_name"), 150)
    ensures EntryAccepted(("last_name", NameField), v, fmt) <==> TextAtMost(Field(v, "last_name"), 150)
    ensures EntryAccepted(("phone", PhoneField), v, fmt) <==> TextBetween(Field(v, "phone"), 10, 10)
    ensures EntryAccepted(("user_fk", UuidSchema), v, fmt) <==> UuidText(Field(v, "user_fk"))
    ensures EntryAccepted(("grade_id", UuidSchema), v, fmt) <==> UuidText(Field(v, "grade_id"))
    ensures EntryAccepted(("location_id", UuidSchema), v, fmt) <==> UuidText(Field(v, "location_id"))
  {
    PipeOfOne(MaxLength(150), Field(v, "name"), fmt);
    PipeOfOne(MaxLength(150), Field(v, "middle_name"), fmt);
    PipeOfOne(MaxLength(150), Field(v, "last_name"), fmt);
    PipeOfTwo(MinLength(10), MaxLength(10), Field(v, "phone"), fmt);
    UuidEntry("user_fk", v, fmt);
    UuidEntry("grade_id", v, fmt);
    UuidEntry("location_id", v, fmt);
  }

  lemma CreateTeacherEntries(v: JsValue, fmt: Formats)
    ensures EntriesAccepted(CreateTeacherSchema, v, fmt) <==>
      && EntryAccepted(("name", NameField), v, fmt)
      && EntryAccepted(("middle_name", NameField), v, fmt)
      && EntryAccepted(("last_name", NameField), v, fmt)
      && EntryAccepted(("phone", PhoneField), v, fmt)
      && EntryAccepted(("user_fk", UuidSchema), v, fmt)
      && EntryAccepted(("grade_id", UuidSchema), v, fmt)
      && EntryAccepted(("location_id", UuidSchema), v, fmt)
  {
    var s := CreateTeacherSchema;
    if EntriesAccepted(s, v, fmt) {
      assert EntryAccepted(s[0], v, fmt) && EntryAccepted(s[1], v, fmt) && EntryAccepted(s[2], v, fmt);
      assert EntryAccepted(s[3], v, fmt) && EntryAccepted(s[4], v, fmt);
      assert EntryAccepted(s[5], v, fmt) && EntryAccepted(s[6], v, fmt);
    }
  }

  lemma TeacherEntries(v: JsValue, fmt: Formats)
    ensures EntriesAccepted(TeacherSchema, v, fmt) <==>
      && EntriesAccepted(CreateTeacherSchema, v, fmt)
      && EntryAccepted(("uuid", UuidSchema), v, fmt)
      && EntryAccepted(("created_at", IsoDateSchema), v, fmt)
  {
    CreateTeacherEntries(v, fmt);
    var s := TeacherSchema;
    if EntriesAccepted(s, v, fmt) {
      assert EntryAccepted(s[0], v, fmt) && EntryAccepted(s[1], v, fmt) && EntryAccepted(s[2], v, fmt);
      assert EntryAccepted(s[3], v, fmt) && EntryAccepted(s[4], v, fmt) && EntryAccepted(s[5], v, fmt);
      assert EntryAccepted(s[6], v, fmt) && EntryAccepted(s[7], v, fmt) && EntryAccepted(s[8], v, fmt);
    }
  }
}
