/** The tutor (parent) payload schemas. */
module TutorSchema {
  import opened Js
  import opened Valibot

  const NameField := StringPipe([MaxLength(150)])
  const PhoneField := StringPipe([MinLength(10), MaxLength(10)])
  const EmailField := StringPipe([MaxLength(200)])

  const TutorSchema: ObjectSchema := [
    ("uuid", UuidSchema), ("created_at", IsoDateSchema),
    ("name", NameField), ("middle_name", NameField), ("last_name", NameField), ("phone", PhoneField),
    ("email", EmailField)]
  const CreateTutorSchema: ObjectSchema := [
    ("name", NameField), ("middle_name", NameField), ("last_name", NameField), ("phone", PhoneField),
    ("email", EmailField)]
  const UpdateTutorSchema: ObjectSchema := [
    ("name", NameField), ("middle_name", NameField), ("last_name", NameField), ("phone", PhoneField),
    ("email", EmailField)]

  /** A create or update payload: three name parts of at most 150
      characters, a phone of exactly 10 characters, and an `email` that is
      only length-checked (at most 200 characters, no format check). */
  predicate ValidTutorPayload(v: JsValue) {
    && v.Obj?
    && TextAtMost(Field(v, "name"), 150)
    && TextAtMost(Field(v, "middle_name"), 150)
    && TextAtMost(Field(v, "last_name"), 150)
    && TextBetween(Field(v, "phone"), 10, 10)
    && TextAtMost(Field(v, "email"), 200)
  }

  /** Create and update accept exactly the valid payloads, with the same
      output; the email-format predicate plays no part. */
  lemma CreateTutorAcceptance(v: JsValue, fmt: Formats)
    ensures Parse(CreateTutorSchema, v, fmt).Some? <==> ValidTutorPayload(v)
    ensures Parse(UpdateTutorSchema, v, fmt) == Parse(CreateTutorSchema, v, fmt)
  {
    CreateTutorEntries(v, fmt);
    FieldMeanings(v, fmt);
  }

  /** The full record is the create fields plus a UUID `uuid` and an ISO-date `created_at`. */
  lemma TutorAcceptance(v: JsValue, fmt: Formats)
    ensures Parse(TutorSchema, v, fmt).Some? <==>
      ValidTutorPayload(v) && UuidText(Field(v, "uuid")) && IsoDateText(Field(v, "created_at"), fmt)
  {
    TutorEntries(v, fmt);
    CreateTutorEntries(v, fmt);
    FieldMeanings(v, fmt);
    UuidEntry("uuid", v, fmt);
    IsoDateEntry("created_at", v, fmt);
  }

  lemma FieldMeanings(v: JsValue, fmt: Formats)
    ensures EntryAccepted(("name", NameField), v, fmt) <==> TextAtMost(Field(v, "name"), 150)
    ensures EntryAccepted(("middle_name", NameField), v, fmt) <==> TextAtMost(Field(v, "middle_name"), 150)
    ensures EntryAccepted(("last_name", NameField), v, fmt) <==> TextAtMost(Field(v, "last_name"), 150)
    ensures EntryAccepted(("phone", PhoneField), v, fmt) <==> TextBetween(Field(v, "phone"), 10, 10)
    ensures EntryAccepted(("email", EmailField), v, fmt) <==> TextAtMost(Field(v, "email"), 200)
  {
    PipeOfOne(MaxLength(150), Field(v, "name"), fmt);
    PipeOfOne(MaxLength(150), Field(v, "middle_name"), fmt);
    PipeOfOne(MaxLength(150), Field(v, "last_name"), fmt);
    PipeOfTwo(MinLength(10), MaxLength(10), Field(v, "phone"), fmt);
    PipeOfOne(MaxLength(200), Field(v, "email"), fmt);
  }

  lemma CreateTutorEntries(v: JsValue, fmt: Formats)
    ensures EntriesAccepted(CreateTutorSchema, v, fmt) <==>
      && EntryAccepted(("name", NameField), v, fmt)
      && EntryAccepted(("middle_name", NameField), v, fmt)
      && EntryAccepted(("last_name", NameField), v, fmt)
      && EntryAccepted(("phone", PhoneField), v, fmt)
      && EntryAccepted(("email", EmailField), v, fmt)
  {
    var s := CreateTutorSchema;
    if EntriesAccepted(s, v, fmt) {
      assert EntryAccepted(s[0], v, fmt) && EntryAccepted(s[1], v, fmt) && EntryAccepted(s[2], v, fmt);
      assert EntryAccepted(s[3], v, fmt) && EntryAccepted(s[4], v, fmt);
    }
  }

  lemma TutorEntries(v: JsValue, fmt: Formats)
    ensures EntriesAccepted(TutorSchema, v, fmt) <==>
      && EntriesAccepted(CreateTutorSchema, v, fmt)
      && EntryAccepted(("uuid", UuidSchema), v, fmt)
      && EntryAccepted(("created_at", IsoDateSchema), v, fmt)
  {
    CreateTutorEntries(v, fmt);
    var s := TutorSchema;
    if EntriesAccepted(s, v, fmt) {
      assert EntryAccepted(s[0], v, fmt) && EntryAccepted(s[1], v, fmt) && EntryAccepted(s[2], v, fmt);
      assert EntryAccepted(s[3], v, fmt) && EntryAccepted(s[4], v, fmt) && EntryAccepted(s[5], v, fmt);
      assert EntryAccepted(s[6], v, fmt);
    }
  }
}
