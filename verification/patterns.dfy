/** The two regular expressions the schemas use. */
module Patterns {

  predicate IsLowerHex(c: char) {
    '0' <= c <= '9' || 'a' <= c <= 'f'
  }

  predicate HexRun(s: string) {
    forall i :: 0 <= i < |s| ==> IsLowerHex(s[i])
  }

  /** `^[0-9a-f]{8}-[0-9a-f]{4}-[0-9a-f]{4}-[0-9a-f]{4}-[0-9a-f]{12}$`, group by group. */
  predicate IsLowerUuid(s: string) {
    && |s| == 36
    && HexRun(s[..8]) && s[8] == '-'
    && HexRun(s[9..13]) && s[13] == '-'
    && HexRun(s[14..18]) && s[18] == '-'
    && HexRun(s[19..23]) && s[23] == '-'
    && HexRun(s[24..])
  }

  predicate IsDashPosition(i: int) {
    i == 8 || i == 13 || i == 18 || i == 23
  }

  /** What the UUID pattern demands of the character at position `i`. */
  predicate UuidCharOk(s: string, i: int)
    requires 0 <= i < |s|
  {
    if IsDashPosition(i) then s[i] == '-' else IsLowerHex(s[i])
  }

  lemma HexRunSlice(s: string, a: int, b: int)
    requires 0 <= a <= b <= |s|
    ensures HexRun(s[a..b]) <==> forall i :: a <= i < b ==> IsLowerHex(s[i])
  {
    if HexRun(s[a..b]) {
      forall i | a <= i < b ensures IsLowerHex(s[i]) {
        assert s[a..b][i - a] == s[i];
      }
    }
  }

  /** The pattern read position by position: 36 characters, dashes at 8, 13,
      18 and 23, lower-case hexadecimal digits everywhere else. */
  lemma UuidPositional(s: string)
    ensures IsLowerUuid(s) <==> |s| == 36 && forall i :: 0 <= i < |s| ==> UuidCharOk(s, i)
  {
    if |s| == 36 {
      assert s[..8] == s[0..8];
      assert s[24..] == s[24..36];
      HexRunSlice(s, 0, 8);
      HexRunSlice(s, 9, 13);
      HexRunSlice(s, 14, 18);
      HexRunSlice(s, 19, 23);
      HexRunSlice(s, 24, 36);
      if IsLowerUuid(s) {
        forall i | 0 <= i < |s| ensures UuidCharOk(s, i) {
        }
      } else if forall i :: 0 <= i < |s| ==> UuidCharOk(s, i) {
        assert UuidCharOk(s, 8) && UuidCharOk(s, 13) && UuidCharOk(s, 18) && UuidCharOk(s, 23);
        forall i | 0 <= i < |s| && !IsDashPosition(i) ensures IsLowerHex(s[i]) {
          assert UuidCharOk(s, i);
        }
        assert false;
      }
    }
  }

  /** Upper-case letters never appear in an accepted UUID. */
  lemma UuidRejectsUpperCase(s: string, i: int)
    requires IsLowerUuid(s) && 0 <= i < |s|
    ensures !('A' <= s[i] <= 'Z')
  {
    UuidPositional(s);
    assert UuidCharOk(s, i);
  }

  predicate IsWordChar(c: char) {
    'a' <= c <= 'z' || 'A' <= c <= 'Z' || '0' <= c <= '9' || c == '_'
  }

  /** One or more ASCII letters, digits or underscores, and nothing else. */
  predicate IsWordText(s: string) {
    |s| >= 1 && forall i :: 0 <= i < |s| ==> IsWordChar(s[i])
  }
}
