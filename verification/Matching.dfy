/**
 * The pieces the regular-expression matchers of the data modules are
 * built from. Rust's `regex` crate reports the leftmost-first match: the
 * earliest start, and at that start the span a backtracking matcher
 * would find first (greedy repetitions as long as the rest of the pattern
 * allows, the left branch of an alternation before the right one).
 * `LastWhere` picks the longest admissible span of a greedy repetition,
 * `FirstWhere` the earliest start.
 */
module Matching {
  import opened Base
  import opened Strings

  /** The Arabic-Indic digits, the first range beyond ASCII. */
  const ArabicIndicRange: (int, int) := (0x660, 0x669)

  /** The ranges of general category Nd beyond ASCII (Unicode 15), first and last code point, in ascending order. */
  const NdRanges: seq<(int, int)> := [ArabicIndicRange] + [
    (0x6F0, 0x6F9), (0x7C0, 0x7C9), (0x966, 0x96F), (0x9E6, 0x9EF), (0xA66, 0xA6F),
    (0xAE6, 0xAEF), (0xB66, 0xB6F), (0xBE6, 0xBEF), (0xC66, 0xC6F), (0xCE6, 0xCEF), (0xD66, 0xD6F),
    (0xDE6, 0xDEF), (0xE50, 0xE59), (0xED0, 0xED9), (0xF20, 0xF29), (0x1040, 0x1049), (0x1090, 0x1099),
    (0x17E0, 0x17E9), (0x1810, 0x1819), (0x1946, 0x194F), (0x19D0, 0x19D9), (0x1A80, 0x1A89),
    (0x1A90, 0x1A99), (0x1B50, 0x1B59), (0x1BB0, 0x1BB9), (0x1C40, 0x1C49), (0x1C50, 0x1C59),
    (0xA620, 0xA629), (0xA8D0, 0xA8D9), (0xA900, 0xA909), (0xA9D0, 0xA9D9), (0xA9F0, 0xA9F9),
    (0xAA50, 0xAA59), (0xABF0, 0xABF9), (0xFF10, 0xFF19), (0x104A0, 0x104A9), (0x10D30, 0x10D39),
    (0x11066, 0x1106F), (0x110F0, 0x110F9), (0x11136, 0x1113F), (0x111D0, 0x111D9), (0x112F0, 0x112F9),
    (0x11450, 0x11459), (0x114D0, 0x114D9), (0x11650, 0x11659), (0x116C0, 0x116C9), (0x11730, 0x11739),
    (0x118E0, 0x118E9), (0x11950, 0x11959), (0x11C50, 0x11C59), (0x11D50, 0x11D59), (0x11DA0, 0x11DA9),
    (0x11F50, 0x11F59), (0x16A60, 0x16A69), (0x16AC0, 0x16AC9), (0x16B50, 0x16B59), (0x1D7CE, 0x1D7FF),
    (0x1E140, 0x1E149), (0x1E2F0, 0x1E2F9), (0x1E4F0, 0x1E4F9), (0x1E950, 0x1E959), (0x1FBF0, 0x1FBF9)]

  /** `x` lies in one of the ranges from the `k`-th on. */
  predicate InNdRanges(x: int, k: nat)
    decreases |NdRanges| - k
  {
    k < |NdRanges| && (NdRanges[k].0 <= x <= NdRanges[k].1 || InNdRanges(x, k + 1))
  }

  /**
   * `\d` in a Unicode-aware regex: the characters of general category Nd.
   * The ranges beyond ASCII all start at U+0660 and hold no white space;
   * the definition says so outright, which spares proofs a walk through
   * the table.
   */
  predicate IsDecimalDigit(c: char)
  {
    ('0' <= c <= '9') || (0x660 <= c as int && !IsWhitespace(c) && InNdRanges(c as int, 0))
  }

  /** The first and the last Arabic-Indic digit are decimal digits. */
  lemma ArabicIndicDigits()
    ensures IsDecimalDigit('\U{660}') && IsDecimalDigit('\U{669}')
  {
    assert NdRanges[0] == ArabicIndicRange;
  }

  /** `\S`. */
  predicate IsNonSpace(c: char) { !IsWhitespace(c) }

  /** `.` without the `s` flag: anything but a line feed. */
  predicate IsAnyButNewline(c: char) { c != '\n' }

  /** Every character of `s[i..j]` is in the class `C`. */
  predicate AllIn(s: string, i: int, j: int, C: char -> bool)
  {
    0 <= i <= j <= |s| && forall k :: i <= k < j ==> C(s[k])
  }

  /** The literal `lit` stands in `s` at index `i`. */
  predicate LitAt(s: string, i: int, lit: string)
  {
    0 <= i && i + |lit| <= |s| && s[i..i + |lit|] == lit
  }

  /** The largest `k` in `[lo, hi)` with `P(k)`: the span a greedy repetition settles on. */
  function LastWhere(lo: int, hi: int, P: int -> bool): (r: Option<int>)
    ensures r.Some? ==> lo <= r.value < hi && P(r.value) && forall k :: r.value < k < hi ==> !P(k)
    ensures r.None? ==> forall k :: lo <= k < hi ==> !P(k)
    decreases hi - lo
  {
    if hi <= lo then None
    else if P(hi - 1) then Some(hi - 1)
    else LastWhere(lo, hi - 1, P)
  }

  /** The smallest `k` in `[lo, hi)` with `P(k)`: the start of the leftmost match. */
  function FirstWhere(lo: int, hi: int, P: int -> bool): (r: Option<int>)
    ensures r.Some? ==> lo <= r.value < hi && P(r.value) && forall k :: lo <= k < r.value ==> !P(k)
    ensures r.None? ==> forall k :: lo <= k < hi ==> !P(k)
    decreases hi - lo
  {
    if hi <= lo then None
    else if P(lo) then Some(lo)
    else FirstWhere(lo + 1, hi, P)
  }

  /** Where a greedy `C*` starting at `i` stops when nothing after it constrains it. */
  function RunEnd(s: string, i: int, C: char -> bool): (r: int)
    requires 0 <= i <= |s|
    ensures i <= r <= |s| && AllIn(s, i, r, C) && (r < |s| ==> !C(s[r]))
    decreases |s| - i
  {
    if i < |s| && C(s[i]) then RunEnd(s, i + 1, C) else i
  }

  /** A run of `C` from `i` reaches `j` only up to where the greedy run stops. */
  lemma RunEndBound(s: string, i: int, j: int, C: char -> bool)
    requires 0 <= i <= |s| && AllIn(s, i, j, C)
    ensures j <= RunEnd(s, i, C)
  {


  }
}
