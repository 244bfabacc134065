/** The subject payload schemas. */
module SubjectSchema {
  import opened Js
  import opened Valibot

  const NameField := StringPipe([MaxLength(150)])
  const DescriptionField := StringPipe([MinLength(200)])

  const SubjectSchema: ObjectSchema := [
    ("uuid", UuidSchema), ("created_at", IsoDateSchema), ("name", NameField), ("description", DescriptionField)]
  const CreateSubjectSchema: ObjectSchema := [("name", NameField), ("description", DescriptionField)]
  const UpdateSubjectSchema: ObjectSchema := [("name", NameField), ("description", DescriptionField)]

  /** A create or update payload: a name of at most 150 characters and a
      description of at least 200, with no upper bound. */
  predicate ValidSubjectPayload(v: JsValue) {
    && v.Obj?
    && TextAtMost(Field(v, "name"), 150)
    && Field(v, "description").Str? && |Field(v, "description").s| >= 200
  }

  /** Create and update accept exactly the valid payloads, with the same output. */
  lemma CreateSubjectAcceptance(v: JsValue, fmt: Formats)
    ensures Parse(CreateSubjectSchema, v, fmt).Some? <==> ValidSubjectPayload(v)
    ensures Parse(UpdateSubjectSchema, v, fmt) == Parse(CreateSubjectSchema, v, fmt)
  {
    CreateSubjectEntries(v, fmt);
    PipeOfOne(MaxLength(150), Field(v, "name"), fmt);
    PipeOfOne(MinLength(200), Field(v, "description"), fmt);
  }

  /** However long a description is, length alone never rejects it. */
  lemma LongDescriptionAccepted(name: string, description: string, fmt: Formats)
    requires |name| <= 150 && |description| >= 200
    ensures Parse(CreateSubjectSchema, Obj(map["name" := Str(name), "description" := Str(description)]), fmt).Some?
  {
    CreateSubjectAcceptance(Obj(map["name" := Str(name), "description" := Str(description)]), fmt);
  }

  /** The full record is the create fields plus a UUID `uuid` and an ISO-date `created_at`. */
  lemma SubjectAcceptance(v: JsValue, fmt: Formats)
    ensures Parse(SubjectSchema, v, fmt).Some? <==>
      ValidSubjectPayload(v) && UuidText(Field(v, "uuid")) && IsoDateText(Field(v, "created_at"), fmt)
  {
    SubjectEntries(v, fmt);
    CreateSubjectEntries(v, fmt);
    PipeOfOne(MaxLength(150), Field(v, "name"), fmt);
    PipeOfOne(MinLength(200), Field(v, "description"), fmt);
    UuidEntry("uuid", v, fmt);
    IsoDateEntry("created_at", v, fmt);
  }

  lemma CreateSubjectEntries(v: JsValue, fmt: Formats)
    ensures EntriesAccepted(CreateSubjectSchema, v, fmt) <==>
      && EntryAccepted(("name", NameField), v, fmt)
      && EntryAccepted(("description", DescriptionField), v, fmt)
  {
    var s := CreateSubjectSchema;
    if EntriesAccepted(s, v, fmt) {
      assert EntryAccepted(s[0], v, fmt) && EntryAccepted(s[1], v, fmt);
    }
  }

  lemma SubjectEntries(v: JsValue, fmt: Formats)
    ensures EntriesAccepted(SubjectSchema, v, fmt) <==>
      && EntriesAccepted(CreateSubjectSchema, v, fmt)
      && EntryAccepted(("uuid", UuidSchema), v, fmt)
      && EntryAccepted(("created_at", IsoDateSchema), v, fmt)
  {
    CreateSubjectEntries(v, fmt);
    var s := SubjectSchema;
    if EntriesAccepted(s, v, fmt) {
      assert EntryAccepted(s[0], v, fmt) && EntryAccepted(s[1], v, fmt);
      assert EntryAccepted(s[2], v, fmt) && EntryAccepted(s[3], v, fmt);
    }
  }
}
