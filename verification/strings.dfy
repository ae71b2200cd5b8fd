/** The two JavaScript string operations the pages rely on:
    `String.prototype.startsWith` and `String.prototype.trim`. Strings are
    sequences of Unicode scalar values. */
module Strings {

  /** `s.startsWith(prefix)`: compares character by character from the
      front. */
  predicate StartsWith(s: string, prefix: string)
    decreases |prefix|
  {
    if |prefix| == 0 then true
    else |s| > 0 && s[0] == prefix[0] && StartsWith(s[1..], prefix[1..])
  }

  /** The character-by-character test is the slice comparison. */
  lemma {:induction false} StartsWithIsSlice(s: string, prefix: string)
    ensures StartsWith(s, prefix) <==> |prefix| <= |s| && s[..|prefix|] == prefix
    decreases |prefix|
  {
    if |prefix| > 0 && |s| > 0 {
      StartsWithIsSlice(s[1..], prefix[1..]);
      if |prefix| <= |s| {
        assert s[..|prefix|] == [s[0]] + s[1..][..|prefix| - 1];
      }
      assert prefix == [prefix[0]] + prefix[1..];
    }
  }

  /** A string that starts with `prefix` still does once anything is
      appended to it. */
  lemma StartsWithExtended(s: string, prefix: string, more: string)
    requires StartsWith(s, prefix)
    ensures StartsWith(s + more, prefix)
  {
    StartsWithIsSlice(s, prefix);
    StartsWithIsSlice(s + more, prefix);
    assert (s + more)[..|prefix|] == s[..|prefix|];
  }

  /** The characters `trim` removes: the ECMAScript WhiteSpace code points
      (tab, vertical tab, form feed, space, no-break space, the byte order
      mark and the other space separators) and the LineTerminator code
      points (line feed, carriage return, line and paragraph separator). */
  predicate IsWhitespace(c: char) {
    var n := c as int;
    || n == 0x09 || n == 0x0A || n == 0x0B || n == 0x0C || n == 0x0D
    || n == 0x20 || n == 0xA0 || n == 0x1680
    || (0x2000 <= n <= 0x200A)
    || n == 0x2028 || n == 0x2029 || n == 0x202F || n == 0x205F
    || n == 0x3000 || n == 0xFEFF
  }

  /** Positions `lo` (inclusive) to `hi` (exclusive) of `s` are all
      whitespace. */
  predicate WhitespaceBetween(s: string, lo: int, hi: int)
    requires 0 <= lo && hi <= |s|
  {
    forall k | lo <= k < hi :: IsWhitespace(s[k])
  }

  /** Every character of `s` is whitespace. */
  predicate AllWhitespace(s: string) {
    WhitespaceBetween(s, 0, |s|)
  }

  /** `r` is `s` with a whitespace-only run removed from each end, and
      neither end of `r` is whitespace: the result `trim` specifies. */
  predicate IsTrimOf(r: string, s: string) {
    && |r| <= |s|
    && (r == [] || (!IsWhitespace(r[0]) && !IsWhitespace(r[|r| - 1])))
    && exists i | 0 <= i <= |s| - |r| ::
         && s[i..i + |r|] == r
         && WhitespaceBetween(s, 0, i)
         && WhitespaceBetween(s, i + |r|, |s|)
  }

  /** Scans forward from `i` over whitespace: where the trimmed text
      starts. */
  function LeadingEnd(s: string, i: nat): (j: nat)
    requires i <= |s| && WhitespaceBetween(s, 0, i)
    ensures i <= j <= |s|
    ensures WhitespaceBetween(s, 0, j)
    ensures j == |s| || !IsWhitespace(s[j])
    decreases |s| - i
  {
    if i < |s| && IsWhitespace(s[i]) then LeadingEnd(s, i + 1) else i
  }

  /** Scans back from `j` over whitespace, never below `lo`: where the
      trimmed text ends. */
  function TrailingStart(s: string, lo: nat, j: nat): (k: nat)
    requires lo <= j <= |s| && WhitespaceBetween(s, j, |s|)
    ensures lo <= k <= j
    ensures WhitespaceBetween(s, k, |s|)
    ensures k == lo || !IsWhitespace(s[k - 1])
    decreases j
  {
    if j > lo && IsWhitespace(s[j - 1]) then TrailingStart(s, lo, j - 1) else j
  }

  /** `s.trim()`. */
  function Trim(s: string): (r: string)
    ensures IsTrimOf(r, s)
    ensures r == [] <==> AllWhitespace(s)
  {
    var i := LeadingEnd(s, 0);
    var j := TrailingStart(s, i, |s|);
    var r := s[i..j];
    assert s[i..i + |r|] == r;
    r
  }

  /** Trimming twice removes nothing more. */
  lemma TrimIdempotent(s: string)
    ensures Trim(Trim(s)) == Trim(s)
  {
    var t := Trim(s);
    if t != [] {
      assert LeadingEnd(t, 0) == 0;
      assert TrailingStart(t, 0, |t|) == |t|;
      assert t[0..|t|] == t;
    }
  }
}
