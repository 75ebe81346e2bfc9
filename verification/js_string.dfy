/** The few JavaScript string methods the two test scripts rely on:
    `startsWith`, `includes`, `trim`, `toLowerCase` and `substring(1)`,
    over strings as sequences of characters. */
module JsString {

  /** `s.startsWith(p)` */
  predicate StartsWith(s: string, p: string) {
    p <= s
  }

  /** `s.endsWith(p)` */
  predicate EndsWith(s: string, p: string) {
    |p| <= |s| && s[|s| - |p|..] == p
  }

  /** `needle` occurs in `hay` starting at offset `i`. */
  predicate OccursAt(hay: string, needle: string, i: int) {
    0 <= i && i + |needle| <= |hay| && hay[i..i + |needle|] == needle
  }

  /** `hay.includes(needle)`: tried at every offset from the left. */
  predicate Includes(hay: string, needle: string)
    decreases |hay|
  {
    needle <= hay || (|hay| > 0 && Includes(hay[1..], needle))
  }

  /** An occurrence at any offset is found by `includes`. */
  lemma {:induction false} OccurrenceIsIncluded(hay: string, needle: string, i: int)
    requires OccursAt(hay, needle, i)
    ensures Includes(hay, needle)
    decreases i
  {
    if i == 0 {
      assert needle == hay[..|needle|];
    } else {
      assert hay[1..][i - 1..i - 1 + |needle|] == hay[i..i + |needle|];
      OccurrenceIsIncluded(hay[1..], needle, i - 1);
    }
  }

  /** What `includes` finds occurs at some offset. */
  lemma {:induction false} IncludedOccurs(hay: string, needle: string) returns (i: nat)
    requires Includes(hay, needle)
    ensures OccursAt(hay, needle, i)
    decreases |hay|
  {
    if needle <= hay {
      i := 0;
    } else {
      var j := IncludedOccurs(hay[1..], needle);
      assert hay[1..][j..j + |needle|] == hay[j + 1..j + 1 + |needle|];
      i := j + 1;
    }
  }

  /** `includes` holds exactly when the needle occurs at some offset. */
  lemma IncludesIff(hay: string, needle: string)
    ensures Includes(hay, needle) <==> exists i :: OccursAt(hay, needle, i)
  {
    if Includes(hay, needle) {
      var i := IncludedOccurs(hay, needle);
    }
    if exists i :: OccursAt(hay, needle, i) {
      var i :| OccursAt(hay, needle, i);
      OccurrenceIsIncluded(hay, needle, i);
    }
  }

  /** Whatever contains a string contains every one of its suffixes. */
  lemma IncludesSuffix(hay: string, needle: string, k: nat)
    requires k <= |needle|
    requires Includes(hay, needle)
    ensures Includes(hay, needle[k..])
  {
    IncludesIff(hay, needle);
    var i :| OccursAt(hay, needle, i);
    assert hay[i + k..i + |needle|] == needle[k..];
    assert OccursAt(hay, needle[k..], i + k);
    IncludesIff(hay, needle[k..]);
  }

  /** The characters `trim` removes: WhiteSpace and LineTerminator of
      section 12.2 and 12.3 of ECMA-262. */
  predicate IsJsWhitespace(c: char) {
    var n := c as int;
    || n == 0x09 || n == 0x0A || n == 0x0B || n == 0x0C || n == 0x0D
    || n == 0x20 || n == 0xA0 || n == 0x1680
    || (0x2000 <= n <= 0x200A)
    || n == 0x2028 || n == 0x2029 || n == 0x202F || n == 0x205F
    || n == 0x3000 || n == 0xFEFF
  }

  /** Every character of `s` is whitespace (vacuously so for ""). */
  predicate Blank(s: string) {
    forall i :: 0 <= i < |s| ==> IsJsWhitespace(s[i])
  }

  /** The first index at or after `i` that is not whitespace, or `|s|`. */
  function SkipSpace(s: string, i: nat): (j: nat)
    requires i <= |s|
    ensures i <= j <= |s|
    ensures forall k :: i <= k < j ==> IsJsWhitespace(s[k])
    ensures j == |s| || !IsJsWhitespace(s[j])
    decreases |s| - i
  {
    if i < |s| && IsJsWhitespace(s[i]) then SkipSpace(s, i + 1) else i
  }

  /** The end of `s[i..j]` once its trailing whitespace is dropped. */
  function BackSpace(s: string, i: nat, j: nat): (e: nat)
    requires i <= j <= |s|
    ensures i <= e <= j
    ensures forall k :: e <= k < j ==> IsJsWhitespace(s[k])
    ensures e == i || !IsJsWhitespace(s[e - 1])
    decreases j
  {
    if i < j && IsJsWhitespace(s[j - 1]) then BackSpace(s, i, j - 1) else j
  }

  /** `s.trim()`: the span of `s` between its leading and its trailing
      whitespace. */
  function Trim(s: string): (r: string)
    ensures r == [] <==> Blank(s)
    ensures r != [] ==> !IsJsWhitespace(r[0]) && !IsJsWhitespace(r[|r| - 1])
    ensures var d := SkipSpace(s, 0);
            && d + |r| <= |s|
            && r == s[d..d + |r|]
            && (forall i :: 0 <= i < d ==> IsJsWhitespace(s[i]))
            && (forall i :: d + |r| <= i < |s| ==> IsJsWhitespace(s[i]))
  {
    var d := SkipSpace(s, 0);
    var e := BackSpace(s, d, |s|);
    assert e == d ==> d == |s|;
    s[d..e]
  }

  /** ASCII case mapping of `toLowerCase` for one character. */
  function LowerChar(c: char): (r: char)
    ensures 'A' <= c <= 'Z' ==> r as int == c as int + 32
    ensures !('A' <= c <= 'Z') ==> r == c
  {
    if 'A' <= c <= 'Z' then (c as int + 32) as char else c
  }

  /** `s.toLowerCase()`, character by character. */
  function Lower(s: string): (r: string)
    ensures |r| == |s|
    ensures forall i :: 0 <= i < |s| ==> r[i] == LowerChar(s[i])
  {
    seq(|s|, i requires 0 <= i < |s| => LowerChar(s[i]))
  }

  /** Lowering commutes with taking a slice. */
  lemma LowerSlice(s: string, i: nat, j: nat)
    requires i <= j <= |s|
    ensures Lower(s)[i..j] == Lower(s[i..j])
  {
  }

  /** Lowering keeps every occurrence: a text that contains a string
      contains it lowered once both are lowered. */
  lemma LowerKeepsIncludes(hay: string, needle: string)
    requires Includes(hay, needle)
    ensures Includes(Lower(hay), Lower(needle))
  {
    var i := IncludedOccurs(hay, needle);
    LowerSlice(hay, i, i + |needle|);
    assert OccursAt(Lower(hay), Lower(needle), i);
    OccurrenceIsIncluded(Lower(hay), Lower(needle), i);
  }
}
