/** The part of the valibot library the schemas use, with the schemas as
    data: `object`, `string`, `boolean`, `picklist`, and the pipe actions
    `minLength`, `maxLength`, `regex`, `email` and `isoDate`. The `email` and
    `isoDate` checks are library code and stay opaque. */
module Valibot {
  import opened Results
  import opened Js
  import opened Patterns

  datatype Pattern = LowerUuid | WordChars

  datatype Check =
    | MinLength(min: nat)
    | MaxLength(max: nat)
    | Regex(pattern: Pattern)
    | EmailFormat
    | IsoDateFormat

  datatype Schema =
    | StringPipe(checks: seq<Check>)
    | BooleanSchema
    | Picklist(options: seq<string>)

  /** An `object({...})` schema: its entries in declaration order. */
  type ObjectSchema = seq<(string, Schema)>

  /** The opaque format predicates of the library. */
  datatype Formats = Formats(isEmail: string -> bool, isIsoDate: string -> bool)

  predicate PatternMatches(p: Pattern, s: string) {
    match p
    case LowerUuid => IsLowerUuid(s)
    case WordChars => IsWordText(s)
  }

  /** A pipe action on a string; lengths are UTF-16 lengths, `|s|`. */
  predicate CheckPasses(c: Check, s: string, fmt: Formats) {
    match c
    case MinLength(min) => |s| >= min
    case MaxLength(max) => |s| <= max
    case Regex(p) => PatternMatches(p, s)
    case EmailFormat => fmt.isEmail(s)
    case IsoDateFormat => fmt.isIsoDate(s)
  }

  predicate Accepts(schema: Schema, v: JsValue, fmt: Formats) {
    match schema
    case StringPipe(checks) => v.Str? && forall c :: c in checks ==> CheckPasses(c, v.s, fmt)
    case BooleanSchema => v.Bool?
    case Picklist(options) => v.Str? && v.s in options
  }

  /** One entry of an object schema holds of the input's property. */
  predicate EntryAccepted(entry: (string, Schema), v: JsValue, fmt: Formats) {
    Accepts(entry.1, Field(v, entry.0), fmt)
  }

  predicate EntriesAccepted(schema: ObjectSchema, v: JsValue, fmt: Formats) {
    forall i :: 0 <= i < |schema| ==> EntryAccepted(schema[i], v, fmt)
  }

  function KeysOf(schema: ObjectSchema): set<string> {
    set i | 0 <= i < |schema| :: schema[i].0
  }

  function ParseEntries(schema: ObjectSchema, v: JsValue, fmt: Formats): (r: Option<map<string, JsValue>>)
    ensures r.Some? <==> EntriesAccepted(schema, v, fmt)
    ensures r.Some? ==> r.value.Keys == KeysOf(schema)
    ensures r.Some? ==> forall i :: 0 <= i < |schema| ==> r.value[schema[i].0] == Field(v, schema[i].0)
    decreases |schema|
  {
    if schema == [] then Some(map[])
    else if !EntryAccepted(schema[0], v, fmt) then None
    else
      var rest := ParseEntries(schema[1..], v, fmt);
      assert EntriesAccepted(schema, v, fmt) <==> EntriesAccepted(schema[1..], v, fmt) by {
        if EntriesAccepted(schema[1..], v, fmt) {
          forall i | 0 < i < |schema| ensures EntryAccepted(schema[i], v, fmt) {
            assert schema[1..][i - 1] == schema[i];
          }
        }
      }
      match rest
      case None => None
      case Some(m) =>
        assert KeysOf(schema) == {schema[0].0} + KeysOf(schema[1..]) by {
          forall k | k in KeysOf(schema) ensures k in {schema[0].0} + KeysOf(schema[1..]) {
            var i :| 0 <= i < |schema| && schema[i].0 == k;
            if i > 0 {
              assert schema[1..][i - 1] == schema[i];
            }
          }
        }
        Some(m[schema[0].0 := Field(v, schema[0].0)])
  }

  /** `parse(object(schema), v)`: the input must be an object whose property
      for each entry satisfies that entry's schema; the output has exactly
      the declared keys, with the input's values. `None` stands for the
      thrown validation error. */
  function Parse(schema: ObjectSchema, v: JsValue, fmt: Formats): (r: Option<map<string, JsValue>>)
    ensures r.Some? <==> v.Obj? && EntriesAccepted(schema, v, fmt)
    ensures r.Some? ==> r.value.Keys == KeysOf(schema)
    ensures r.Some? ==> forall i :: 0 <= i < |schema| ==> r.value[schema[i].0] == Field(v, schema[i].0)
  {
    if !v.Obj? then None else ParseEntries(schema, v, fmt)
  }

  // ----- the recurring field shapes, stated directly -----

  predicate TextAtMost(v: JsValue, max: nat) {
    v.Str? && |v.s| <= max
  }

  predicate TextBetween(v: JsValue, min: nat, max: nat) {
    v.Str? && min <= |v.s| <= max
  }

  predicate UuidText(v: JsValue) {
    v.Str? && IsLowerUuid(v.s)
  }

  predicate IsoDateText(v: JsValue, fmt: Formats) {
    v.Str? && fmt.isIsoDate(v.s)
  }

  const UuidSchema := StringPipe([Regex(LowerUuid)])
  const IsoDateSchema := StringPipe([IsoDateFormat])

  /** A pipe of checks holds exactly when each of its checks does. */
  lemma PipeOfOne(c: Check, v: JsValue, fmt: Formats)
    ensures Accepts(StringPipe([c]), v, fmt) <==> v.Str? && CheckPasses(c, v.s, fmt)
  {
    assert c in [c];
  }

  lemma PipeOfTwo(c: Check, d: Check, v: JsValue, fmt: Formats)
    ensures Accepts(StringPipe([c, d]), v, fmt) <==> v.Str? && CheckPasses(c, v.s, fmt) && CheckPasses(d, v.s, fmt)
  {
    assert c in [c, d] && d in [c, d];
  }

  lemma PipeOfThree(c: Check, d: Check, f: Check, v: JsValue, fmt: Formats)
    ensures Accepts(StringPipe([c, d, f]), v, fmt) <==>
      v.Str? && CheckPasses(c, v.s, fmt) && CheckPasses(d, v.s, fmt) && CheckPasses(f, v.s, fmt)
  {
    assert c in [c, d, f] && d in [c, d, f] && f in [c, d, f];
  }

  lemma UuidEntry(key: string, v: JsValue, fmt: Formats)
    ensures EntryAccepted((key, UuidSchema), v, fmt) <==> UuidText(Field(v, key))
  {
    PipeOfOne(Regex(LowerUuid), Field(v, key), fmt);
  }

  lemma IsoDateEntry(key: string, v: JsValue, fmt: Formats)
    ensures EntryAccepted((key, IsoDateSchema), v, fmt) <==> IsoDateText(Field(v, key), fmt)
  {
    PipeOfOne(IsoDateFormat, Field(v, key), fmt);
  }
}
