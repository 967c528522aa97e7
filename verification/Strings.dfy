/**
 * The parts of Rust's `str` API the parsers rely on: `trim`, `replace`,
 * `split`, `join`, `contains` and `to_lowercase`.
 */
module Strings {
  import opened Base

  /** The Unicode White_Space property, used by `str::trim` and by `\s` in a regex. */
  predicate IsWhitespace(c: char)
  {
    ('\U{9}' <= c <= '\U{D}') || c == ' ' || c == '\U{85}' || c == '\U{A0}' || c == '\U{1680}'
    || ('\U{2000}' <= c <= '\U{200A}') || c == '\U{2028}' || c == '\U{2029}'
    || c == '\U{202F}' || c == '\U{205F}' || c == '\U{3000}'
  }

  /** `pat` occurs in `s` starting at index `i`. */
  predicate OccursAt(s: string, pat: string, i: int)
  {
    0 <= i && i + |pat| <= |s| && s[i..i + |pat|] == pat
  }

  /** `str::contains` with a string pattern. */
  predicate Contains(s: string, pat: string)
  {
    exists i | 0 <= i <= |s| :: OccursAt(s, pat, i)
  }

  /** A pattern holding a character the text lacks does not occur in the text. */
  lemma MissingCharNotContained(s: string, pat: string, k: int)
    requires 0 <= k < |pat| && forall i :: 0 <= i < |s| ==> s[i] != pat[k]
    ensures !Contains(s, pat)
  {
    forall i | 0 <= i <= |s|
      ensures !OccursAt(s, pat, i)
    {
      if i + |pat| <= |s| {
        assert s[i..i + |pat|][k] == s[i + k];
      }
    }
  }

  /** `str::trim_start`: drops the leading whitespace and nothing else. */
  function TrimStart(s: string): (r: string)
    ensures |r| <= |s| && r == s[|s| - |r|..]
    ensures forall i :: 0 <= i < |s| - |r| ==> IsWhitespace(s[i])
    ensures r == [] || !IsWhitespace(r[0])
  {
    if s != [] && IsWhitespace(s[0]) then TrimStart(s[1..]) else s
  }

  /** `str::trim_end`: drops the trailing whitespace and nothing else. */
  function TrimEnd(s: string): (r: string)
    ensures r <= s
    ensures forall i :: |r| <= i < |s| ==> IsWhitespace(s[i])
    ensures r == [] || !IsWhitespace(r[|r| - 1])
  {
    if s != [] && IsWhitespace(s[|s| - 1]) then TrimEnd(s[..|s| - 1]) else s
  }

  /** `str::trim`. */
  function Trim(s: string): (r: string)
  {
    TrimEnd(TrimStart(s))
  }

  /** Every text trimmed, in order. */
  function TrimEach(texts: seq<string>): (r: seq<string>)
    ensures |r| == |texts|
    ensures forall k :: 0 <= k < |texts| ==> r[k] == Trim(texts[k])
    decreases |texts|
  {
    if texts == [] then [] else TrimEach(texts[..|texts| - 1]) + [Trim(texts[|texts| - 1])]
  }

  lemma TrimEachAppend(texts: seq<string>, text: string)
    ensures TrimEach(texts + [text]) == TrimEach(texts) + [Trim(text)]
  {
    assert (texts + [text])[..|texts|] == texts;
  }

  /** What `trim` keeps: a piece of the input with no whitespace at either end, and only whitespace cut away. */
  lemma TrimSpec(s: string)
    ensures Trim(s) <= TrimStart(s) && TrimStart(s) == s[|s| - |TrimStart(s)|..]
    ensures Trim(s) == [] || (!IsWhitespace(Trim(s)[0]) && !IsWhitespace(Trim(s)[|Trim(s)| - 1]))
    ensures forall i :: 0 <= i < |s| - |TrimStart(s)| ==> IsWhitespace(s[i])
    ensures forall i :: |Trim(s)| <= i < |TrimStart(s)| ==> IsWhitespace(TrimStart(s)[i])
  {
  }

  /** Trimming twice is trimming once. */
  lemma TrimIdempotent(s: string)
    ensures Trim(Trim(s)) == Trim(s)
  {
    var t := Trim(s);
    TrimSpec(s);
    assert TrimStart(t) == t;
  }

  /**
   * `str::replace`: every non-overlapping occurrence of `pat`, found from
   * left to right, is replaced by `rep`.
   */
  function ReplaceAll(s: string, pat: string, rep: string): (r: string)
    requires pat != []
    ensures !Contains(s, pat) ==> r == s
    decreases |s|
  {
    if |s| < |pat| then s
    else if s[..|pat|] == pat then
      assert OccursAt(s, pat, 0);
      rep + ReplaceAll(s[|pat|..], pat, rep)
    else
      assert !Contains(s, pat) ==> !Contains(s[1..], pat) by {
        forall i | OccursAt(s[1..], pat, i) ensures OccursAt(s, pat, i + 1) {
          assert s[i + 1..i + 1 + |pat|] == s[1..][i..i + |pat|];
        }
      }
      [s[0]] + ReplaceAll(s[1..], pat, rep)
  }

  /** A head holding no character that starts the pattern is passed over unchanged. */
  lemma {:induction false} ReplaceAllSkipsHead(a: string, b: string, pat: string, rep: string)
    requires pat != [] && forall i :: 0 <= i < |a| ==> a[i] != pat[0]
    ensures ReplaceAll(a + b, pat, rep) == a + ReplaceAll(b, pat, rep)
    decreases |a|
  {
    if a == [] {
      assert a + b == b;
    } else {
      var s := a + b;
      assert s[1..] == a[1..] + b;
      ReplaceAllSkipsHead(a[1..], b, pat, rep);
      ReplaceAllStep(s, pat, rep);
      HeadThenRest(a, ReplaceAll(b, pat, rep));
    }
  }

  /** A non-empty text is its first character followed by the rest, whatever comes after. */
  lemma HeadThenRest(a: string, t: string)
    requires a != []
    ensures [a[0]] + (a[1..] + t) == a + t
  {
    assert [a[0]] + a[1..] == a;
  }

  /** A text that does not start with the pattern's first character keeps it and goes on with the rest. */
  lemma ReplaceAllStep(s: string, pat: string, rep: string)
    requires pat != [] && s != [] && s[0] != pat[0]
    ensures ReplaceAll(s, pat, rep) == [s[0]] + ReplaceAll(s[1..], pat, rep)
  {
    if |s| < |pat| {
      assert ReplaceAll(s[1..], pat, rep) == s[1..];
      assert [s[0]] + s[1..] == s;
    } else {
      assert s[..|pat|][0] == s[0];
    }
  }

  /** A text that starts with the pattern has it replaced, and the replacement goes on after it. */
  lemma ReplaceAllAtHead(pat: string, b: string, rep: string)
    requires pat != []
    ensures ReplaceAll(pat + b, pat, rep) == rep + ReplaceAll(b, pat, rep)
  {
    var s := pat + b;
    assert s[..|pat|] == pat;
    assert s[|pat|..] == b;
  }

  /** A text that does not start with the pattern's first character keeps its first character. */
  lemma {:induction false} ReplaceAllKeepsHead(s: string, pat: string, rep: string)
    requires pat != [] && s != [] && s[0] != pat[0]
    ensures ReplaceAll(s, pat, rep) != [] && ReplaceAll(s, pat, rep)[0] == s[0]
  {
    if |s| >= |pat| {
      assert s[..|pat|][0] == s[0];
    }
  }

  /** No two spaces stand next to each other. */
  predicate NoDoubleSpace(s: string)
  {
    forall i :: 0 <= i < |s| - 1 ==> !(s[i] == ' ' && s[i + 1] == ' ')
  }

  lemma NoDoubleSpaceNotContains(s: string)
    requires NoDoubleSpace(s)
    ensures !Contains(s, "  ")
  {
    forall i | 0 <= i <= |s| ensures !OccursAt(s, "  ", i) {
      if i + 2 <= |s| {
        assert s[i..i + 2] == [s[i], s[i + 1]];
      }
    }
  }

  lemma {:induction false} RemoveDoubleSpacesStep(s: string)
    ensures NoDoubleSpace(ReplaceAll(s, "  ", ""))
    decreases |s|
  {
    var pat := "  ";
    var r := ReplaceAll(s, pat, "");
    if |s| < 2 {
    } else if s[..2] == pat {
      assert r == "" + ReplaceAll(s[2..], pat, "");
      RemoveDoubleSpacesStep(s[2..]);
    } else {
      var t := ReplaceAll(s[1..], pat, "");
      RemoveDoubleSpacesStep(s[1..]);
      assert r == [s[0]] + t;
      if s[0] == ' ' {
        assert s[1] != ' ' by { assert s[..2] != pat; }
        ReplaceAllKeepsHead(s[1..], pat, "");
      }
    }
  }

  /** Removing every double space leaves no double space behind. */
  lemma RemoveDoubleSpaces(s: string)
    ensures !Contains(ReplaceAll(s, "  ", ""), "  ")
  {
    RemoveDoubleSpacesStep(s);
    NoDoubleSpaceNotContains(ReplaceAll(s, "  ", ""));
  }

  /** `str::replace` with a set of characters as the pattern and "" as the replacement. */
  function RemoveChars(s: string, cs: set<char>): (r: string)
    ensures |r| <= |s|
    ensures forall i :: 0 <= i < |r| ==> r[i] !in cs
    ensures forall i :: 0 <= i < |r| ==> r[i] in s
  {
    if s == [] then []
    else if s[0] in cs then RemoveChars(s[1..], cs)
    else [s[0]] + RemoveChars(s[1..], cs)
  }

  /** Removing characters keeps every other character, in order: a text without them is unchanged. */
  lemma {:induction false} RemoveCharsKeepsOthers(s: string, cs: set<char>)
    requires forall i :: 0 <= i < |s| ==> s[i] !in cs
    ensures RemoveChars(s, cs) == s
  {
    if s != [] {
      RemoveCharsKeepsOthers(s[1..], cs);
    }
  }

  /** Removal works piece by piece. */
  lemma {:induction false} RemoveCharsAppend(a: string, b: string, cs: set<char>)
    ensures RemoveChars(a + b, cs) == RemoveChars(a, cs) + RemoveChars(b, cs)
  {
    if a == [] {
      assert a + b == b;
    } else {
      assert (a + b)[0] == a[0] && (a + b)[1..] == a[1..] + b;
      RemoveCharsAppend(a[1..], b, cs);
    }
  }

  /** `[T]::join` on strings. */
  function Join(parts: seq<string>, sep: string): string
  {
    if parts == [] then ""
    else if |parts| == 1 then parts[0]
    else parts[0] + sep + Join(parts[1..], sep)
  }

  /** Index of the first `c` in `s`, if any. */
  function FindChar(s: string, c: char): (r: Option<nat>)
    ensures r.Some? ==> r.value < |s| && s[r.value] == c && c !in s[..r.value]
    ensures r.None? ==> c !in s
  {
    if s == [] then None
    else if s[0] == c then Some(0)
    else match FindChar(s[1..], c)
      case None => None
      case Some(k) =>
        assert s[..k + 1] == [s[0]] + s[1..][..k];
        Some(k + 1)
  }

  /**
   * `str::split` with a character: the pieces between the separators,
   * always at least one, possibly empty.
   */
  function Split(s: string, sep: char): (r: seq<string>)
    ensures |r| >= 1
    ensures |r| == 1 <==> sep !in s
    ensures forall i :: 0 <= i < |r| ==> sep !in r[i]
    ensures Join(r, [sep]) == s
    decreases |s|
  {
    match FindChar(s, sep)
      case None => [s]
      case Some(k) =>
        var rest := Split(s[k + 1..], sep);
        assert s == s[..k] + [sep] + s[k + 1..];
        [s[..k]] + rest
  }

  /** The first separator after a separator-free piece is the one right after it. */
  lemma {:induction false} FindCharAfter(p: string, c: char, rest: string)
    requires c !in p
    ensures FindChar(p + [c] + rest, c) == Some(|p|)
  {
    if p != [] {
      assert (p + [c] + rest)[1..] == p[1..] + [c] + rest;
      FindCharAfter(p[1..], c, rest);
    }
  }

  /** Splitting a join of separator-free pieces gives the pieces back. */
  lemma {:induction false} SplitJoin(parts: seq<string>, sep: char)
    requires |parts| >= 1
    requires forall i :: 0 <= i < |parts| ==> sep !in parts[i]
    ensures Split(Join(parts, [sep]), sep) == parts
  {
    if |parts| > 1 {
      var s := Join(parts, [sep]);
      assert s == parts[0] + [sep] + Join(parts[1..], [sep]);
      assert s[..|parts[0]|] == parts[0];
      FindCharAfter(parts[0], sep, Join(parts[1..], [sep]));
      assert s[|parts[0]| + 1..] == Join(parts[1..], [sep]);
      SplitJoin(parts[1..], sep);
    } else {
      assert FindChar(parts[0], sep) == None;
    }
  }

  predicate IsAsciiUpper(c: char) { 'A' <= c <= 'Z' }

  predicate IsAsciiLetter(c: char) { 'A' <= c <= 'Z' || 'a' <= c <= 'z' }

  /** The upper-case letters the lower-casing below knows: ASCII, the Cyrillic block U+0400..U+042F and the Ukrainian U+0490. */
  predicate IsUpper(c: char)
  {
    IsAsciiUpper(c) || '\U{400}' <= c <= '\U{42F}' || c == '\U{490}'
  }

  function LowerChar(c: char): (r: char)
    ensures !IsUpper(r)
    ensures !IsUpper(c) ==> r == c
  {
    if IsAsciiUpper(c) then (c as int + 32) as char
    else if '\U{410}' <= c <= '\U{42F}' then (c as int + 32) as char
    else if '\U{400}' <= c <= '\U{40F}' then (c as int + 80) as char
    else if c == '\U{490}' then '\U{491}'
    else c
  }

  /** `str::to_lowercase`, for the letters `IsUpper` knows. */
  function ToLower(s: string): (r: string)
    ensures |r| == |s|
    ensures forall i :: 0 <= i < |s| ==> r[i] == LowerChar(s[i])
  {
    seq(|s|, i requires 0 <= i < |s| => LowerChar(s[i]))
  }

  /** Lower-casing a lower-cased text changes nothing. */
  lemma ToLowerIdempotent(s: string)
    ensures ToLower(ToLower(s)) == ToLower(s)
  {
  }
}
