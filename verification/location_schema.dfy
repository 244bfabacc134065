/** The location payload schemas. */
module LocationSchema {
  import opened Js
  import opened Valibot

  const PlaceField := StringPipe([MaxLength(100)])
  const StreetField := StringPipe([MaxLength(200)])

  const LocationSchema: ObjectSchema := [
    ("uuid", UuidSchema),
    ("country", PlaceField), ("state", PlaceField), ("municipality", PlaceField), ("city", PlaceField),
    ("street", StreetField), ("colony", PlaceField),
    ("created_at", IsoDateSchema)]
  const CreateLocationSchema: ObjectSchema := [
    ("country", PlaceField), ("state", PlaceField), ("municipality", PlaceField), ("city", PlaceField),
    ("street", StreetField), ("colony", PlaceField)]
  const UpdateLocationSchema: ObjectSchema := [
    ("country", PlaceField), ("state", PlaceField), ("municipality", PlaceField), ("city", PlaceField),
    ("street", StreetField), ("colony", PlaceField)]

  /** A create or update payload: five place names of at most 100
      characters and a street of at most 200; nothing has a minimum length. */
  predicate ValidLocationPayload(v: JsValue) {
    && v.Obj?
    && TextAtMost(Field(v, "country"), 100)
    && TextAtMost(Field(v, "state"), 100)
    && TextAtMost(Field(v, "municipality"), 100)
    && TextAtMost(Field(v, "city"), 100)
    && TextAtMost(Field(v, "street"), 200)
    && TextAtMost(Field(v, "colony"), 100)
  }

  /** Create and update accept exactly the valid payloads, with the same output. */
  lemma CreateLocationAcceptance(v: JsValue, fmt: Formats)
    ensures Parse(CreateLocationSchema, v, fmt).Some? <==> ValidLocationPayload(v)
    ensures Parse(UpdateLocationSchema, v, fmt) == Parse(CreateLocationSchema, v, fmt)
  {
    CreateLocationEntries(v, fmt);
    FieldMeanings(v, fmt);
  }

  /** A payload of six empty strings is a valid location. */
  lemma EmptyLocationAccepted(fmt: Formats)
    ensures Parse(CreateLocationSchema, EmptyLocation(), fmt).Some?
  {
    CreateLocationAcceptance(EmptyLocation(), fmt);
  }

  function EmptyLocation(): JsValue {
    Obj(map["country" := Str(""), "state" := Str(""), "municipality" := Str(""),
            "city" := Str(""), "street" := Str(""), "colony" := Str("")])
  }

  /** The full record is the create fields plus a UUID `uuid` and an ISO-date `created_at`. */
  lemma LocationAcceptance(v: JsValue, fmt: Formats)
    ensures Parse(LocationSchema, v, fmt).Some? <==>
      ValidLocationPayload(v) && UuidText(Field(v, "uuid")) && IsoDateText(Field(v, "created_at"), fmt)
  {
    LocationEntries(v, fmt);
    CreateLocationEntries(v, fmt);
    FieldMeanings(v, fmt);
    UuidEntry("uuid", v, fmt);
    IsoDateEntry("created_at", v, fmt);
  }

  lemma FieldMeanings(v: JsValue, fmt: Formats)
    ensures EntryAccepted(("country", PlaceField), v, fmt) <==> TextAtMost(Field(v, "country"), 100)
    ensures EntryAccepted(("state", PlaceField), v, fmt) <==> TextAtMost(Field(v, "state"), 100)
    ensures EntryAccepted(("municipality", PlaceField), v, fmt) <==> TextAtMost(Field(v, "municipality"), 100)
    ensures EntryAccepted(("city", PlaceField), v, fmt) <==> TextAtMost(Field(v, "city"), 100)
    ensures EntryAccepted(("street", StreetField), v, fmt) <==> TextAtMost(Field(v, "street"), 200)
    ensures EntryAccepted(("colony", PlaceField), v, fmt) <==> TextAtMost(Field(v, "colony"), 100)
  {
    PipeOfOne(MaxLength(100), Field(v, "country"), fmt);
    PipeOfOne(MaxLength(100), Field(v, "state"), fmt);
    PipeOfOne(MaxLength(100), Field(v, "municipality"), fmt);
    PipeOfOne(MaxLength(100), Field(v, "city"), fmt);
    PipeOfOne(MaxLength(200), Field(v, "street"), fmt);
    PipeOfOne(MaxLength(100), Field(v, "colony"), fmt);
  }

  lemma CreateLocationEntries(v: JsValue, fmt: Formats)
    ensures EntriesAccepted(CreateLocationSchema, v, fmt) <==>
      && EntryAccepted(("country", PlaceField), v, fmt)
      && EntryAccepted(("state", PlaceField), v, fmt)
      && EntryAccepted(("municipality", PlaceField), v, fmt)
      && EntryAccepted(("city", PlaceField), v, fmt)
      && EntryAccepted(("street", StreetField), v, fmt)
      && EntryAccepted(("colony", PlaceField), v, fmt)
  {
    var s := CreateLocationSchema;
    if EntriesAccepted(s, v, fmt) {
      assert EntryAccepted(s[0], v, fmt) && EntryAccepted(s[1], v, fmt) && EntryAccepted(s[2], v, fmt);
      assert EntryAccepted(s[3], v, fmt) && EntryAccepted(s[4], v, fmt) && EntryAccepted(s[5], v, fmt);
    }
  }

  lemma LocationEntries(v: JsValue, fmt: Formats)
    ensures EntriesAccepted(LocationSchema, v, fmt) <==>
      && EntriesAccepted(CreateLocationSchema, v, fmt)
      && EntryAccepted(("uuid", UuidSchema), v, fmt)
      && EntryAccepted(("created_at", IsoDateSchema), v, fmt)
  {
    CreateLocationEntries(v, fmt);
    var s := LocationSchema;
    if EntriesAccepted(s, v, fmt) {
      assert EntryAccepted(s[0], v, fmt) && EntryAccepted(s[1], v, fmt) && EntryAccepted(s[2], v, fmt);
      assert EntryAccepted(s[3], v, fmt) && EntryAccepted(s[4], v, fmt) && EntryAccepted(s[5], v, fmt);
      assert EntryAccepted(s[6], v, fmt) && EntryAccepted(s[7], v, fmt);
    }
  }
}
