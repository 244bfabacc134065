/** The grade payload schemas. */
module GradeSchema {
  import opened Js
  import opened Valibot

  const GradeField := StringPipe([MaxLength(20)])

  const GradeSchema: ObjectSchema := [("uuid", UuidSchema), ("created_at", IsoDateSchema), ("grade", GradeField)]
  const CreateGradeSchema: ObjectSchema := [("grade", GradeField)]
  const UpdateGradeSchema: ObjectSchema := [("grade", GradeField)]

  /** A create or update payload: an object whose `grade` is a string of at
      most 20 characters. */
  predicate ValidGradePayload(v: JsValue) {
    v.Obj? && TextAtMost(Field(v, "grade"), 20)
  }

  /** The create payload has the single field `grade`; the update schema
      accepts and produces exactly the same. */
  lemma CreateGradeAcceptance(v: JsValue, fmt: Formats)
    ensures Parse(CreateGradeSchema, v, fmt).Some? <==> ValidGradePayload(v)
    ensures Parse(CreateGradeSchema, v, fmt).Some? ==> Parse(CreateGradeSchema, v, fmt).value == map["grade" := Field(v, "grade")]
    ensures Parse(UpdateGradeSchema, v, fmt) == Parse(CreateGradeSchema, v, fmt)
  {
    PipeOfOne(MaxLength(20), Field(v, "grade"), fmt);
    assert CreateGradeSchema[0].0 == "grade";
    assert KeysOf(CreateGradeSchema) == {"grade"};
    assert EntriesAccepted(CreateGradeSchema, v, fmt) <==> EntryAccepted(CreateGradeSchema[0], v, fmt);
  }

  /** There is no minimum length: the empty grade is accepted. */
  lemma EmptyGradeAccepted(fmt: Formats)
    ensures Parse(CreateGradeSchema, Obj(map["grade" := Str("")]), fmt).Some?
  {
    CreateGradeAcceptance(Obj(map["grade" := Str("")]), fmt);
  }

  /** The full record is the grade plus a UUID `uuid` and an ISO-date `created_at`. */
  lemma GradeAcceptance(v: JsValue, fmt: Formats)
    ensures Parse(GradeSchema, v, fmt).Some? <==>
      ValidGradePayload(v) && UuidText(Field(v, "uuid")) && IsoDateText(Field(v, "created_at"), fmt)
  {
    GradeEntries(v, fmt);
    UuidEntry("uuid", v, fmt);
    IsoDateEntry("created_at", v, fmt);
    PipeOfOne(MaxLength(20), Field(v, "grade"), fmt);
  }

  lemma GradeEntries(v: JsValue, fmt: Formats)
    ensures EntriesAccepted(GradeSchema, v, fmt) <==>
      && EntryAccepted(("uuid", UuidSchema), v, fmt)
      && EntryAccepted(("created_at", IsoDateSchema), v, fmt)
      && EntryAccepted(("grade", GradeField), v, fmt)
  {
    var s := GradeSchema;
    if EntriesAccepted(s, v, fmt) {
      assert EntryAccepted(s[0], v, fmt) && EntryAccepted(s[1], v, fmt) && EntryAccepted(s[2], v, fmt);
    }
  }
}
