/** What the repositories need of SQL: bound parameter values, `$n`
    placeholders and the meaning of `ILIKE`. */
module Sql {
  import opened Results
  import opened Text

  /** A value bound to a `$n` parameter or stored in a column. */
  datatype SqlValue =
    | SqlNull
    | SqlText(s: string)
    | SqlBool(b: bool)
    | SqlInt(n: int)
    | SqlTextArray(items: seq<string>)

  /** The text of the `$i` placeholder. */
  function Placeholder(i: nat): string {
    "$" + Decimal(i)
  }

  /** Different parameter positions never render to the same placeholder. */
  lemma PlaceholderInjective(i: nat, j: nat)
    requires Placeholder(i) == Placeholder(j)
    ensures i == j
  {
    assert Placeholder(i)[1..] == Decimal(i);
    assert Placeholder(j)[1..] == Decimal(j);
    DecimalInjective(i, j);
  }

  /** The parameter position a `$n` placeholder names. */
  function PlaceholderIndex(p: string): Option<nat> {
    if |p| >= 2 && p[0] == '$' && AllDigits(p[1..]) then Some(DigitsValue(p[1..])) else None
  }

  /** Reading a rendered placeholder gives back its position. */
  lemma PlaceholderRoundTrip(i: nat)
    ensures PlaceholderIndex(Placeholder(i)) == Some(i)
  {
    var p := Placeholder(i);
    assert p[1..] == Decimal(i);
    DecimalRoundTrip(i);
  }

  /** The value the database binds to a placeholder, `$1` being the first
      parameter; `None` when the placeholder names no supplied parameter. */
  function Resolve(placeholder: string, params: seq<SqlValue>): Option<SqlValue> {
    match PlaceholderIndex(placeholder)
    case None => None
    case Some(i) => if 1 <= i <= |params| then Some(params[i - 1]) else None
  }

  lemma ResolvePlaceholder(i: nat, params: seq<SqlValue>)
    requires 1 <= i <= |params|
    ensures Resolve(Placeholder(i), params) == Some(params[i - 1])
  {
    PlaceholderRoundTrip(i);
  }

  /** An ordered column/value payload, as `Object.keys` and `Object.values` see it. */
  type Payload = seq<(string, SqlValue)>

  function Keys(p: Payload): (keys: seq<string>)
    ensures |keys| == |p| && forall i :: 0 <= i < |p| ==> keys[i] == p[i].0
  {
    seq(|p|, i requires 0 <= i < |p| => p[i].0)
  }

  function Values(p: Payload): (values: seq<SqlValue>)
    ensures |values| == |p| && forall i :: 0 <= i < |p| ==> values[i] == p[i].1
  {
    seq(|p|, i requires 0 <= i < |p| => p[i].1)
  }

  predicate DistinctKeys(p: Payload) {
    forall i, j :: 0 <= i < j < |p| ==> p[i].0 != p[j].0
  }

  /** The columns a payload with distinct keys sets, and to what. */
  function PayloadMap(p: Payload): (m: map<string, SqlValue>)
    ensures forall k :: k in m <==> k in Keys(p)
    ensures DistinctKeys(p) ==> forall i :: 0 <= i < |p| ==> m[p[i].0] == p[i].1
    decreases |p|
  {
    if p == [] then map[]
    else
      var rest := PayloadMap(p[1..]);
      PayloadMapStep(p, rest);
      rest[p[0].0 := p[0].1]
  }

  /** Adding the first entry to the map of the rest keeps both properties. */
  lemma PayloadMapStep(p: Payload, rest: map<string, SqlValue>)
    requires p != []
    requires forall k :: k in rest <==> k in Keys(p[1..])
    requires DistinctKeys(p[1..]) ==> forall i :: 0 <= i < |p| - 1 ==> rest[p[1..][i].0] == p[1..][i].1
    ensures forall k :: k in rest[p[0].0 := p[0].1] <==> k in Keys(p)
    ensures DistinctKeys(p) ==> forall i :: 0 <= i < |p| ==> rest[p[0].0 := p[0].1][p[i].0] == p[i].1
  {
    var m := rest[p[0].0 := p[0].1];
    assert Keys(p) == [p[0].0] + Keys(p[1..]);
    if DistinctKeys(p) {
      assert DistinctKeys(p[1..]) by {
        forall i, j | 0 <= i < j < |p| - 1 ensures p[1..][i].0 != p[1..][j].0 {
          assert p[1..][i] == p[i + 1] && p[1..][j] == p[j + 1];
        }
      }
      forall i | 0 <= i < |p| ensures m[p[i].0] == p[i].1 {
        if i > 0 {
          assert p[1..][i - 1] == p[i];
          assert p[i].0 != p[0].0;
        }
      }
    }
  }

  /** The placeholders `$from`, `$from+1`, ... of `count` consecutive parameters. */
  function PlaceholdersFrom(from: nat, count: nat): (ps: seq<string>)
    ensures |ps| == count && forall i :: 0 <= i < count ==> ps[i] == Placeholder(from + i)
  {
    seq(count, i requires 0 <= i < count => Placeholder(from + i))
  }

  /** What a column list paired with a placeholder list stores, resolving
      each placeholder against the parameters; `None` if one names no
      parameter. Used for `INSERT ... VALUES` and `UPDATE ... SET`. */
  function BindColumns(columns: seq<string>, placeholders: seq<string>, params: seq<SqlValue>): Option<map<string, SqlValue>>
    requires |columns| == |placeholders|
    decreases |columns|
  {
    if columns == [] then Some(map[])
    else match (Resolve(placeholders[0], params), BindColumns(columns[1..], placeholders[1..], params))
      case (Some(v), Some(m)) => Some(m[columns[0] := v])
      case _ => None
  }

  /** Placeholders numbered from just after `prefix`, bound against
      `prefix + values + suffix`, give every column its own value. */
  lemma {:induction false} BindAligned(p: Payload, prefix: seq<SqlValue>, suffix: seq<SqlValue>)
    ensures BindColumns(Keys(p), PlaceholdersFrom(|prefix| + 1, |p|), prefix + Values(p) + suffix) == Some(PayloadMap(p))
    decreases |p|
  {
    var params := prefix + Values(p) + suffix;
    if p != [] {
      var rest := p[1..];
      assert Keys(p)[1..] == Keys(rest);
      assert PlaceholdersFrom(|prefix| + 1, |p|)[1..] == PlaceholdersFrom(|prefix + [p[0].1]| + 1, |rest|);
      assert params == (prefix + [p[0].1]) + Values(rest) + suffix;
      BindAligned(rest, prefix + [p[0].1], suffix);
      ResolvePlaceholder(|prefix| + 1, params);
      assert params[|prefix|] == p[0].1;
    }
  }

  /** `s ILIKE pattern`: `%` matches any run of characters, `_` any single
      character, a backslash makes the next character literal, and letters
      compare after ASCII case folding. PostgreSQL refuses a pattern that
      ends in a lone backslash; the `%v%` patterns the repository builds
      always end in `%`, so the predicate does not model that error and
      reads such a backslash literally. */
  predicate ILike(s: string, pattern: string)
    decreases |s| + |pattern|
  {
    if pattern == [] then s == []
    else if pattern[0] == '%' then ILike(s, pattern[1..]) || (s != [] && ILike(s[1..], pattern))
    else if pattern[0] == '_' then s != [] && ILike(s[1..], pattern[1..])
    else if pattern[0] == '\\' && |pattern| >= 2 then
      s != [] && FoldCase(s[0]) == FoldCase(pattern[1]) && ILike(s[1..], pattern[2..])
    else s != [] && FoldCase(s[0]) == FoldCase(pattern[0]) && ILike(s[1..], pattern[1..])
  }

  predicate IsWildcard(c: char) {
    c == '%' || c == '_' || c == '\\'
  }

  /** A filter value in which no character has a special meaning to `LIKE`. */
  predicate PlainText(v: string) {
    forall i :: 0 <= i < |v| ==> !IsWildcard(v[i])
  }

  predicate SameIgnoringCase(a: string, b: string) {
    |a| == |b| && forall k :: 0 <= k < |a| ==> FoldCase(a[k]) == FoldCase(b[k])
  }

  predicate OccursAt(s: string, v: string, i: int) {
    0 <= i <= |s| - |v| && SameIgnoringCase(s[i..i + |v|], v)
  }

  /** `v` occurs in `s` when letters are compared without regard to ASCII case. */
  ghost predicate ContainsIgnoringCase(s: string, v: string) {
    exists i :: OccursAt(s, v, i)
  }

  lemma {:induction false} PercentMatchesAll(s: string)
    ensures ILike(s, "%")
    decreases |s|
  {
    if s != [] {
      PercentMatchesAll(s[1..]);
    }
  }

  /** `v%` for a plain `v` matches exactly the strings starting with `v`. */
  lemma {:induction false} PlainPrefixMatch(s: string, v: string)
    requires PlainText(v)
    ensures ILike(s, v + "%") <==> |v| <= |s| && SameIgnoringCase(s[..|v|], v)
    decreases |v|
  {
    if v == [] {
      assert v + "%" == "%";
      PercentMatchesAll(s);
    } else {
      var p := v + "%";
      assert p[0] == v[0] && p[1..] == v[1..] + "%";
      assert !IsWildcard(v[0]);
      assert PlainText(v[1..]) by {
        forall i | 0 <= i < |v[1..]| ensures !IsWildcard(v[1..][i]) {
          assert v[1..][i] == v[i + 1];
        }
      }
      if s != [] {
        PlainPrefixMatch(s[1..], v[1..]);
        if |v| <= |s| {
          var a := s[..|v|];
          var b := s[1..][..|v| - 1];
          assert forall k :: 0 < k < |a| ==> a[k] == b[k - 1];
          assert forall k :: 0 < k < |v| ==> v[k] == v[1..][k - 1];
        }
      }
    }
  }

  /** A leading `%` lets the rest of the pattern match any suffix. */
  lemma {:induction false} LeadingPercentMatch(s: string, q: string)
    ensures ILike(s, "%" + q) <==> exists i :: 0 <= i <= |s| && ILike(s[i..], q)
    decreases |s|
  {
    var p := "%" + q;
    assert p[1..] == q;
    assert s[0..] == s;
    if s != [] {
      LeadingPercentMatch(s[1..], q);
      if ILike(s[1..], p) {
        var i :| 0 <= i <= |s[1..]| && ILike(s[1..][i..], q);
        assert s[1..][i..] == s[i + 1..];
      }
      if exists i :: 0 <= i <= |s| && ILike(s[i..], q) {
        var i :| 0 <= i <= |s| && ILike(s[i..], q);
        if i > 0 {
          assert s[1..][i - 1..] == s[i..];
        }
      }
    }
  }

  /** The filter pattern `%v%` built from a plain value means: `v` occurs in
      the column, ignoring ASCII case. */
  lemma FilterPatternMeaning(s: string, v: string)
    requires PlainText(v)
    ensures ILike(s, "%" + v + "%") <==> ContainsIgnoringCase(s, v)
  {
    assert "%" + v + "%" == "%" + (v + "%");
    LeadingPercentMatch(s, v + "%");
    if ILike(s, "%" + v + "%") {
      var i :| 0 <= i <= |s| && ILike(s[i..], v + "%");
      PlainPrefixMatch(s[i..], v);
      assert s[i..][..|v|] == s[i..i + |v|];
      assert OccursAt(s, v, i);
    }
    if ContainsIgnoringCase(s, v) {
      var i :| OccursAt(s, v, i);
      PlainPrefixMatch(s[i..], v);
      assert s[i..][..|v|] == s[i..i + |v|];
    }
  }

  /** Wildcards in a filter value are not escaped: the name filter `_` finds
      every name with at least one character. */
  lemma UnderscoreFilterMatchesAnyName(s: string)
    requires |s| >= 1
    ensures ILike(s, "%" + "_" + "%")
  {
    var p := "%" + "_" + "%";
    assert p[1..] == "_%" && p[1..][1..] == "%";
    PercentMatchesAll(s[1..]);
    assert ILike(s, p[1..]);
  }
}
