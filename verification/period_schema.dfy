/** The school period payload schemas. */
module PeriodSchema {
  import opened Js
  import opened Valibot

  const PeriodField := StringPipe([MaxLength(50)])

  const PeriodSchema: ObjectSchema := [
    ("uuid", UuidSchema), ("created_at", IsoDateSchema),
    ("period", PeriodField), ("start_date", IsoDateSchema), ("end_date", IsoDateSchema)]
  const CreatePeriodSchema: ObjectSchema := [
    ("period", PeriodField), ("start_date", IsoDateSchema), ("end_date", IsoDateSchema)]
  const UpdatePeriodSchema: ObjectSchema := [
    ("period", PeriodField), ("start_date", IsoDateSchema), ("end_date", IsoDateSchema)]

  /** A create or update payload: a period name of at most 50 characters and
      two dates, each checked on its own by the ISO-date predicate. */
  predicate ValidPeriodPayload(v: JsValue, fmt: Formats) {
    && v.Obj?
    && TextAtMost(Field(v, "period"), 50)
    && IsoDateText(Field(v, "start_date"), fmt)
    && IsoDateText(Field(v, "end_date"), fmt)
  }

  /** Create and update accept exactly the valid payloads, with the same output. */
  lemma CreatePeriodAcceptance(v: JsValue, fmt: Formats)
    ensures Parse(CreatePeriodSchema, v, fmt).Some? <==> ValidPeriodPayload(v, fmt)
    ensures Parse(UpdatePeriodSchema, v, fmt) == Parse(CreatePeriodSchema, v, fmt)
  {
    CreatePeriodEntries(v, fmt);
    PipeOfOne(MaxLength(50), Field(v, "period"), fmt);
    IsoDateEntry("start_date", v, fmt);
    IsoDateEntry("end_date", v, fmt);
  }

  /** Nothing relates the two dates: exchanging them never changes whether
      a payload is accepted. */
  lemma PeriodDatesUnrelated(name: string, start: string, end: string, fmt: Formats)
    ensures Parse(CreatePeriodSchema, PeriodPayload(name, start, end), fmt).Some? <==>
            Parse(CreatePeriodSchema, PeriodPayload(name, end, start), fmt).Some?
  {
    CreatePeriodAcceptance(PeriodPayload(name, start, end), fmt);
    CreatePeriodAcceptance(PeriodPayload(name, end, start), fmt);
  }

  function PeriodPayload(name: string, start: string, end: string): JsValue {
    Obj(map["period" := Str(name), "start_date" := Str(start), "end_date" := Str(end)])
  }

  /** The full record is the create fields plus a UUID `uuid` and an ISO-date `created_at`. */
  lemma PeriodAcceptance(v: JsValue, fmt: Formats)
    ensures Parse(PeriodSchema, v, fmt).Some? <==>
      ValidPeriodPayload(v, fmt) && UuidText(Field(v, "uuid")) && IsoDateText(Field(v, "created_at"), fmt)
  {
    PeriodEntries(v, fmt);
    CreatePeriodEntries(v, fmt);
    PipeOfOne(MaxLength(50), Field(v, "period"), fmt);
    IsoDateEntry("start_date", v, fmt);
    IsoDateEntry("end_date", v, fmt);
    UuidEntry("uuid", v, fmt);
    IsoDateEntry("created_at", v, fmt);
  }

  lemma CreatePeriodEntries(v: JsValue, fmt: Formats)
    ensures EntriesAccepted(CreatePeriodSchema, v, fmt) <==>
      && EntryAccepted(("period", PeriodField), v, fmt)
      && EntryAccepted(("start_date", IsoDateSchema), v, fmt)
      && EntryAccepted(("end_date", IsoDateSchema), v, fmt)
  {
    var s := CreatePeriodSchema;
    if EntriesAccepted(s, v, fmt) {
      assert EntryAccepted(s[0], v, fmt) && EntryAccepted(s[1], v, fmt) && EntryAccepted(s[2], v, fmt);
    }
  }

  lemma PeriodEntries(v: JsValue, fmt: Formats)
    ensures EntriesAccepted(PeriodSchema, v, fmt) <==>
      && EntriesAccepted(CreatePeriodSchema, v, fmt)
      && EntryAccepted(("uuid", UuidSchema), v, fmt)
      && EntryAccepted(("created_at", IsoDateSchema), v, fmt)
  {
    CreatePeriodEntries(v, fmt);
    var s := PeriodSchema;
    if EntriesAccepted(s, v, fmt) {
      assert EntryAccepted(s[0], v, fmt) && EntryAccepted(s[1], v, fmt) && EntryAccepted(s[2], v, fmt);
      assert EntryAccepted(s[3], v, fmt) && EntryAccepted(s[4], v, fmt);
    }
  }
}
