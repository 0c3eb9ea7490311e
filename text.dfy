/** The two .NET string services the domain validation relies on:
    `string.IsNullOrWhiteSpace` and `string.Trim()`, both defined by
    `char.IsWhiteSpace`. */
module Text {

  /** `char.IsWhiteSpace`: the Unicode space, line and paragraph separators,
      the control characters U+0009 to U+000D, and U+0085. */
  predicate IsWhiteSpace(c: char) {
    || ('\U{9}' <= c <= '\U{D}')
    || c == ' ' || c == '\U{85}' || c == '\U{A0}' || c == '\U{1680}'
    || ('\U{2000}' <= c <= '\U{200A}')
    || c == '\U{2028}' || c == '\U{2029}' || c == '\U{202F}' || c == '\U{205F}' || c == '\U{3000}'
  }

  /** `string.IsNullOrWhiteSpace`: scans for a character that is not white
      space; blank means every character is. A C# `null` string behaves
      exactly like the empty string here, and the domain never reads a
      string that fails this test, so `null` is represented by `""`. */
  predicate IsNullOrWhiteSpace(s: string)
    ensures IsNullOrWhiteSpace(s) <==> forall i :: 0 <= i < |s| ==> IsWhiteSpace(s[i])
  {
    s == [] || (IsWhiteSpace(s[0]) && IsNullOrWhiteSpace(s[1..]))
  }

  /** The number of white-space characters `s` starts with. */
  function LeadingWhiteSpace(s: string): (n: nat)
    ensures n <= |s|
    ensures forall i :: 0 <= i < n ==> IsWhiteSpace(s[i])
    ensures n < |s| ==> !IsWhiteSpace(s[n])
  {
    if s != [] && IsWhiteSpace(s[0]) then 1 + LeadingWhiteSpace(s[1..]) else 0
  }

  /** The number of white-space characters `s` ends with. */
  function TrailingWhiteSpace(s: string): (n: nat)
    ensures n <= |s|
    ensures forall i :: |s| - n <= i < |s| ==> IsWhiteSpace(s[i])
    ensures n < |s| ==> !IsWhiteSpace(s[|s| - 1 - n])
  {
    if s != [] && IsWhiteSpace(s[|s| - 1]) then 1 + TrailingWhiteSpace(s[..|s| - 1]) else 0
  }

  /** `r` is the slice `s[a..b]` and only white space lies outside it. */
  ghost predicate CutAt(s: string, r: string, a: int, b: int) {
    && 0 <= a <= b <= |s| && r == s[a..b]
    && (forall i :: 0 <= i < a ==> IsWhiteSpace(s[i]))
    && (forall i :: b <= i < |s| ==> IsWhiteSpace(s[i]))
  }

  /** `r` is `s` without its leading and trailing white space: a slice of `s`
      with only white space outside it, which neither starts nor ends with
      white space. */
  ghost predicate IsTrimOf(s: string, r: string) {
    && (exists a, b :: CutAt(s, r, a, b))
    && (r != [] ==> !IsWhiteSpace(r[0]) && !IsWhiteSpace(r[|r| - 1]))
  }

  /** `string.Trim()`: drops the leading, then the trailing white space. */
  function Trim(s: string): (r: string)
    ensures IsTrimOf(s, r)
    ensures r == [] <==> IsNullOrWhiteSpace(s)
  {
    var a := LeadingWhiteSpace(s);
    if a == |s| then
      assert CutAt(s, [], 0, 0);
      []
    else
      var b := |s| - TrailingWhiteSpace(s);
      assert a < b by {
        assert !IsWhiteSpace(s[a]);
      }
      assert CutAt(s, s[a..b], a, b);
      s[a..b]
  }

  /** A cut whose slice starts with a non-white-space character starts where
      the leading white space ends. */
  lemma CutStartsAfterLeadingWhiteSpace(s: string, r: string, a: int, b: int)
    requires CutAt(s, r, a, b) && r != [] && !IsWhiteSpace(r[0])
    ensures a == LeadingWhiteSpace(s)
  {
    assert s[a] == r[0];
  }

  /** A cut whose slice ends with a non-white-space character ends where the
      trailing white space starts. */
  lemma CutEndsBeforeTrailingWhiteSpace(s: string, r: string, a: int, b: int)
    requires CutAt(s, r, a, b) && r != [] && !IsWhiteSpace(r[|r| - 1])
    ensures b == |s| - TrailingWhiteSpace(s)
  {
    assert s[b - 1] == r[|r| - 1];
  }

  /** Trimming a string yields the one and only trimmed form of it:
      `IsTrimOf` is a complete, independent description of `Trim`. */
  lemma {:induction false} TrimOfIsUnique(s: string, r: string)
    requires IsTrimOf(s, r)
    ensures r == Trim(s)
  {
    var a, b :| CutAt(s, r, a, b);
    if r == [] {
      forall i | 0 <= i < |s| ensures IsWhiteSpace(s[i]) {
        assert i < a || b <= i;
      }
    } else {
      CutStartsAfterLeadingWhiteSpace(s, r, a, b);
      CutEndsBeforeTrailingWhiteSpace(s, r, a, b);
      assert LeadingWhiteSpace(s) != |s| by { assert s[a] == r[0]; }
    }
  }

  /** A string that neither starts nor ends with white space is its own trim. */
  lemma TrimOfTrimmed(s: string)
    requires s != [] && !IsWhiteSpace(s[0]) && !IsWhiteSpace(s[|s| - 1])
    ensures Trim(s) == s
  {
    assert CutAt(s, s, 0, |s|);
    TrimOfIsUnique(s, s);
  }

  /** Trimming twice is trimming once. */
  lemma TrimIdempotent(s: string)
    ensures Trim(Trim(s)) == Trim(s)
  {
    var r := Trim(s);
    if r != [] {
      assert LeadingWhiteSpace(r) == 0;
      assert TrailingWhiteSpace(r) == 0;
    }
  }

  /** A string that is not blank trims to a string that is not blank either. */
  lemma TrimOfNonBlankIsNonBlank(s: string)
    requires !IsNullOrWhiteSpace(s)
    ensures !IsNullOrWhiteSpace(Trim(s))
  {
    var r := Trim(s);
    assert r != [] && !IsWhiteSpace(r[0]);
  }
}
