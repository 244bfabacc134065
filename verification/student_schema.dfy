/** The student payload schemas. */
module StudentSchema {
  import opened Js
  import opened Valibot

  const NameField := StringPipe([MaxLength(150)])

  const StudentSchema: ObjectSchema := [
    ("uuid", UuidSchema), ("created_at", IsoDateSchema),
    ("name", NameField), ("middle_name", NameField), ("last_name", NameField), ("tutor_id", UuidSchema)]
  const CreateStudentSchema: ObjectSchema := [
    ("name", NameField), ("middle_name", NameField), ("last_name", NameField), ("tutor_id", UuidSchema)]
  const UpdateStudentSchema: ObjectSchema := [
    ("name", NameField), ("middle_name", NameField), ("last_name", NameField), ("tutor_id", UuidSchema)]

  /** A create or update payload: three name parts of at most 150 characters
      and a lower-case UUID `tutor_id`. */
  predicate ValidStudentPayload(v: JsValue) {
    && v.Obj?
    && TextAtMost(Field(v, "name"), 150)
    && TextAtMost(Field(v, "middle_name"), 150)
    && TextAtMost(Field(v, "last_name"), 150)
    && UuidText(Field(v, "tutor_id"))
  }

  /** Create and update accept exactly the valid payloads, with the same output. */
  lemma CreateStudentAcceptance(v: JsValue, fmt: Formats)
    ensures Parse(CreateStudentSchema, v, fmt).Some? <==> ValidStudentPayload(v)
    ensures Parse(UpdateStudentSchema, v, fmt) == Parse(CreateStudentSchema, v, fmt)
  {
    CreateStudentEntries(v, fmt);
    FieldMeanings(v, fmt);
  }

  /** The full record is the create fields plus a UUID `uuid` and an ISO-date `created_at`. */
  lemma StudentAcceptance(v: JsValue, fmt: Formats)
    ensures Parse(StudentSchema, v, fmt).Some? <==>
      ValidStudentPayload(v) && UuidText(Field(v, "uuid")) && IsoDateText(Field(v, "created_at"), fmt)
  {
    StudentEntries(v, fmt);
    CreateStudentEntries(v, fmt);
    FieldMeanings(v, fmt);
    UuidEntry("uuid", v, fmt);
    IsoDateEntry("created_at", v, fmt);
  }

  lemma FieldMeanings(v: JsValue, fmt: Formats)
    ensures EntryAccepted(("name", NameField), v, fmt) <==> TextAtMost(Field(v, "name"), 150)
    ensures EntryAccepted(("middle_name", NameField), v, fmt) <==> TextAtMost(Field(v, "middle_name"), 150)
    ensures EntryAccepted(("last_name", NameField), v, fmt) <==> TextAtMost(Field(v, "last_name"), 150)
    ensures EntryAccepted(("tutor_id", UuidSchema), v, fmt) <==> UuidText(Field(v, "tutor_id"))
  {
    PipeOfOne(MaxLength(150), Field(v, "name"), fmt);
    PipeOfOne(MaxLength(150), Field(v, "middle_name"), fmt);
    PipeOfOne(MaxLength(150), Field(v, "last_name"), fmt);
    UuidEntry("tutor_id", v, fmt);
  }

  lemma CreateStudentEntries(v: JsValue, fmt: Formats)
    ensures EntriesAccepted(CreateStudentSchema, v, fmt) <==>
      && EntryAccepted(("name", NameField), v, fmt)
      && EntryAccepted(("middle_name", NameField), v, fmt)
      && EntryAccepted(("last_name", NameField), v, fmt)
      && EntryAccepted(("tutor_id", UuidSchema), v, fmt)
  {
    var s := CreateStudentSchema;
    if EntriesAccepted(s, v, fmt) {
      assert EntryAccepted(s[0], v, fmt) && EntryAccepted(s[1], v, fmt);
      assert EntryAccepted(s[2], v, fmt) && EntryAccepted(s[3], v, fmt);
    }
  }

  lemma StudentEntries(v: JsValue, fmt: Formats)
    ensures EntriesAccepted(StudentSchema, v, fmt) <==>
      && EntriesAccepted(CreateStudentSchema, v, fmt)
      && EntryAccepted(("uuid", UuidSchema), v, fmt)
      && EntryAccepted(("created_at", IsoDateSchema), v, fmt)
  {
    CreateStudentEntries(v, fmt);
    var s := StudentSchema;
    if EntriesAccepted(s, v, fmt) {
      assert EntryAccepted(s[0], v, fmt) && EntryAccepted(s[1], v, fmt) && EntryAccepted(s[2], v, fmt);
      assert EntryAccepted(s[3], v, fmt) && EntryAccepted(s[4], v, fmt) && EntryAccepted(s[5], v, fmt);
    }
  }
}
