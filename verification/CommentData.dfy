/**
 * A comment without its history row: its text, and the author and time
 * the portal appends as `(user,YYYY-MM-DD HH:MM:SS)`. The metadata is
 * found by the pattern `\((Система|\S+ \S+ \S+),(\d{4}-\d\d-\d\d \d\d:\d\d:\d\d)\)`.
 * Decoding HTML entities and parsing a date-time in the Europe/Kyiv zone
 * belong to libraries and are parameters here.
 */
module CommentData {
  import opened Base
  import opened Strings
  import opened Matching
  import Chrono
  import ParseErrorKinds

  datatype CommentError = DateTimeFailed(text: string, kind: ParseErrorKinds.SerializableParseErrorKind)

  datatype Comment = Comment(
    text: string,
    user: Option<string>,
    datetime: Option<Result<Chrono.DateTime, ParseErrorKinds.SerializableParseErrorKind>>)

  /** The author the portal writes for its own entries. */
  const SystemUser: string := "Система"

  /** Line breaks as the portal writes them. */
  const LineBreakTag: string := "<br/>"

  /** Entities decoded, then every `<br/>` turned into a line feed. */
  function Clean(raw: string, decode: string -> string): (r: string)
  {
    ReplaceAll(decode(raw), LineBreakTag, "\n")
  }

  /** `n` decimal digits from `i` on. */
  predicate DigitsAt(s: string, i: int, n: nat)
    decreases n
  {
    0 <= i && i + n <= |s| && (n == 0 || (IsDecimalDigit(s[i]) && DigitsAt(s, i + 1, n - 1)))
  }

  /** Decimal digits are no white space. */
  lemma {:induction false} DigitsNonSpace(s: string, i: int, n: nat)
    requires DigitsAt(s, i, n)
    ensures AllIn(s, i, i + n, IsNonSpace)
    decreases n
  {
    if n > 0 {
      DigitsNonSpace(s, i + 1, n - 1);
    }
  }

  /**
   * `,` at `c`, then `YYYY-MM-DD HH:MM:SS` with Unicode decimal digits,
   * then `)`: the tail of the metadata, `s[c..c + 21]`.
   */
  predicate DateTimeAt(s: string, c: int)
  {
    0 <= c && c + 21 <= |s| && s[c] == ','
    && DigitsAt(s, c + 1, 4) && s[c + 5] == '-' && DigitsAt(s, c + 6, 2) && s[c + 8] == '-' && DigitsAt(s, c + 9, 2)
    && s[c + 11] == ' '
    && DigitsAt(s, c + 12, 2) && s[c + 14] == ':' && DigitsAt(s, c + 15, 2) && s[c + 17] == ':' && DigitsAt(s, c + 18, 2)
    && s[c + 20] == ')'
  }

  /** The first alternative: `(Система` at `i`, its comma at `c`. */
  predicate SystemAt(s: string, i: int, c: int)
  {
    0 <= i < |s| && s[i] == '(' && c == i + 8 && LitAt(s, i + 1, SystemUser) && DateTimeAt(s, c)
  }

  /** The second alternative: `(` at `i`, three non-space runs ending at `a`, `b` and the comma at `c`. */
  predicate TokensAt(s: string, i: int, a: int, b: int, c: int)
  {
    0 <= i < |s| && s[i] == '(' && i + 1 < a && a + 1 < b && b + 1 < c && c < |s|
    && AllIn(s, i + 1, a, IsNonSpace) && s[a] == ' '
    && AllIn(s, a + 1, b, IsNonSpace) && s[b] == ' '
    && AllIn(s, b + 1, c, IsNonSpace) && DateTimeAt(s, c)
  }

  /** Metadata `s[i..c + 21]` with its comma at `c`, by either alternative. */
  ghost predicate MetaShape(s: string, i: int, c: int)
  {
    SystemAt(s, i, c) || exists a, b :: TokensAt(s, i, a, b, c)
  }

  /**
   * The second alternative at `i`: each of the first two tokens runs to
   * the next white space, which must be a space, and the last token ends
   * where the comma leaves room for the date before the next white space.
   * Gives the comma.
   */
  function TokensComma(s: string, i: int): (r: Option<int>)
    requires 0 <= i < |s|
  {
    var a := RunEnd(s, i + 1, IsNonSpace);
    if a == i + 1 || a == |s| || s[a] != ' ' then None
    else
      var b := RunEnd(s, a + 1, IsNonSpace);
      if b == a + 1 || b == |s| || s[b] != ' ' then None
      else LastTokenComma(s, b)
  }

  /** The comma after the last token, which starts after the space at `b`. */
  function LastTokenComma(s: string, b: int): (r: Option<int>)
    requires 0 <= b < |s|
  {
    var c := RunEnd(s, b + 1, IsNonSpace) - 11;
    if b + 1 < c && DateTimeAt(s, c) then Some(c) else None
  }

  /** What the last-token search finds fits the last token. */
  lemma LastTokenCommaSound(s: string, b: int)
    requires 0 <= b < |s| && LastTokenComma(s, b).Some?
    ensures var c := LastTokenComma(s, b).value;
      b + 1 < c && AllIn(s, b + 1, c, IsNonSpace) && DateTimeAt(s, c)
  {
    assert AllIn(s, b + 1, RunEnd(s, b + 1, IsNonSpace), IsNonSpace);
  }

  /** The pattern at `i`: `Система` when the rest follows it, the three tokens otherwise. Gives the comma. */
  function MatchAt(s: string, i: int): (r: Option<int>)
    requires 0 <= i <= |s|
    ensures r.Some? ==> i < |s| && s[i] == '(' && i < r.value
  {
    if i == |s| || s[i] != '(' then None
    else if LitAt(s, i + 1, SystemUser) && DateTimeAt(s, i + 8) then Some(i + 8)
    else TokensComma(s, i)
  }

  /** A date-time tail holds no white space before the space inside it. */
  lemma DateTimeRun(s: string, c: int)
    requires DateTimeAt(s, c)
    ensures AllIn(s, c, c + 11, IsNonSpace) && s[c + 11] == ' '
  {
    DigitsNonSpace(s, c + 1, 4);
    DigitsNonSpace(s, c + 6, 2);
    DigitsNonSpace(s, c + 9, 2);
  }

  /** A non-space run that a space ends is the greedy run. */
  lemma RunEndAt(s: string, i: int, j: int)
    requires 0 <= i <= j < |s| && AllIn(s, i, j, IsNonSpace) && s[j] == ' '
    ensures RunEnd(s, i, IsNonSpace) == j
  {
    RunEndBound(s, i, j, IsNonSpace);
  }

  /** The token alternative's first two tokens: non-empty runs, each ended by a space. */
  lemma TokensCommaParts(s: string, i: int)
    requires 0 <= i < |s| && TokensComma(s, i).Some?
    ensures var a := RunEnd(s, i + 1, IsNonSpace);
      i + 1 < a < |s| && s[a] == ' '
      && var b := RunEnd(s, a + 1, IsNonSpace);
      a + 1 < b < |s| && s[b] == ' ' && TokensComma(s, i) == LastTokenComma(s, b)
  {
  }

  /** What the token alternative finds fits it. */
  lemma TokensCommaSound(s: string, i: int)
    requires 0 <= i < |s| && s[i] == '('
    ensures TokensComma(s, i).Some? ==> exists a, b :: TokensAt(s, i, a, b, TokensComma(s, i).value)
  {
    if TokensComma(s, i).Some? {
      TokensCommaParts(s, i);
      var a := RunEnd(s, i + 1, IsNonSpace);
      var b := RunEnd(s, a + 1, IsNonSpace);
      LastTokenCommaSound(s, b);
      assert AllIn(s, i + 1, a, IsNonSpace) && AllIn(s, a + 1, b, IsNonSpace);
      assert TokensAt(s, i, a, b, LastTokenComma(s, b).value);
    }
  }

  /** A last token of non-space characters before a date-time tail ends at that tail's comma. */
  lemma LastTokenCommaComplete(s: string, b: int, c: int)
    requires 0 <= b && b + 1 < c && AllIn(s, b + 1, c, IsNonSpace) && DateTimeAt(s, c)
    ensures LastTokenComma(s, b) == Some(c)
  {
    LastTokenRun(s, b, c);
  }

  /** The non-space run of the last token goes on through the date up to the space inside the date-time. */
  lemma LastTokenRun(s: string, b: int, c: int)
    requires 0 <= b && b + 1 < c && AllIn(s, b + 1, c, IsNonSpace) && DateTimeAt(s, c)
    ensures RunEnd(s, b + 1, IsNonSpace) == c + 11
  {
    LastTokenNonSpace(s, b, c);
    RunEndAt(s, b + 1, c + 11);
  }

  /** From the last token to the space inside the date-time there is no white space. */
  lemma LastTokenNonSpace(s: string, b: int, c: int)
    requires 0 <= b && b + 1 < c && AllIn(s, b + 1, c, IsNonSpace) && DateTimeAt(s, c)
    ensures AllIn(s, b + 1, c + 11, IsNonSpace) && c + 11 < |s| && s[c + 11] == ' '
  {
    DateTimeRun(s, c);
  }

  /** Wherever the token alternative fits, its comma is the one `TokensComma` gives. */
  lemma TokensCommaComplete(s: string, i: int, a: int, b: int, c: int)
    requires TokensAt(s, i, a, b, c)
    ensures TokensComma(s, i) == Some(c)
  {
    RunEndAt(s, i + 1, a);
    RunEndAt(s, a + 1, b);
    LastTokenCommaComplete(s, b, c);
  }

  /** What `MatchAt` finds is metadata, and `Система` wins whenever it fits. */
  lemma MatchAtSound(s: string, i: int)
    requires 0 <= i <= |s|
    ensures MatchAt(s, i).Some? ==> MetaShape(s, i, MatchAt(s, i).value)
    ensures SystemAt(s, i, i + 8) ==> MatchAt(s, i) == Some(i + 8)
  {
    if i < |s| && s[i] == '(' {
      TokensCommaSound(s, i);
    }
  }

  /** Wherever the token alternative fits and `Система` does not, `MatchAt` finds it with the same comma. */
  lemma MatchAtComplete(s: string, i: int, a: int, b: int, c: int)
    requires TokensAt(s, i, a, b, c)
    ensures MatchAt(s, i).Some?
    ensures !SystemAt(s, i, i + 8) ==> MatchAt(s, i) == Some(c)
  {
    TokensCommaComplete(s, i, a, b, c);
  }

  /** The start and the comma of the leftmost metadata. */
  datatype Meta = Meta(start: int, comma: int)

  /** `Regex::captures`: the leftmost metadata. */
  function Find(s: string): (r: Option<Meta>)
    ensures r.Some? ==> 0 <= r.value.start < |s| && r.value.start < r.value.comma && s[r.value.start] == '('
  {
    match FirstWhere(0, |s|, i => 0 <= i <= |s| && MatchAt(s, i).Some?)
    case None => None
    case Some(i) => Some(Meta(i, MatchAt(s, i).value))
  }

  /** The leftmost metadata is metadata, none starts before it, and there is none only when no metadata exists. */
  lemma FindSpec(s: string)
    ensures Find(s).Some? ==> (MetaShape(s, Find(s).value.start, Find(s).value.comma)
                               && forall j, c :: 0 <= j < Find(s).value.start ==> !MetaShape(s, j, c))
    ensures Find(s).None? <==> forall j, c :: !MetaShape(s, j, c)
  {
    var P := i => 0 <= i <= |s| && MatchAt(s, i).Some?;
    forall j, c | MetaShape(s, j, c) ensures 0 <= j < |s| && P(j) {
      if SystemAt(s, j, c) {
        MatchAtSound(s, j);
      } else {
        var a, b :| TokensAt(s, j, a, b, c);
        MatchAtComplete(s, j, a, b, c);
      }
    }
    if Find(s).Some? {
      MatchAtSound(s, Find(s).value.start);
    }
  }

  /** Metadata at `i` with none before it is what `Find` gives, with the comma the alternatives' order picks. */
  lemma FindAt(s: string, i: int, c: int)
    requires MetaShape(s, i, c) && forall j, c' :: 0 <= j < i ==> !MetaShape(s, j, c')
    ensures Find(s) == Some(Meta(i, if SystemAt(s, i, i + 8) then i + 8 else c))
  {
    FindSpec(s);
    var m := Find(s).value;
    assert m.start == i by {
      if m.start > i { }
    }
    MatchAtSound(s, i);
    if !SystemAt(s, i, i + 8) {
      var a, b :| TokensAt(s, i, a, b, c);
      MatchAtComplete(s, i, a, b, c);
    }
  }

  /** `as_datetime`: the library's parse, its error reduced to its serialisable kind. */
  function AsDateTime(input: string, parse: string -> Result<Chrono.DateTime, Chrono.ParseError>)
    : (r: Result<Chrono.DateTime, ParseErrorKinds.SerializableParseErrorKind>)
    ensures r.Ok? <==> parse(input).Ok?
    ensures r.Ok? ==> r.value == parse(input).value
    ensures r.Err? ==> r.error == ParseErrorKinds.FromKind(parse(input).error.kind)
  {
    match parse(input)
    case Ok(dt) => Ok(dt)
    case Err(e) => Err(ParseErrorKinds.FromError(e))
  }

  /**
   * `Comment::from`: clean the text, find its leftmost metadata, and read
   * the comment with `FromText`.
   */
  function From(raw: string, decode: string -> string, parse: string -> Result<Chrono.DateTime, Chrono.ParseError>)
    : (r: Result<Comment, CommentError>)
    ensures r.Ok?
  {
    var t := Clean(raw, decode);
    FromText(t, Find(t), decode, parse)
  }

  /**
   * The rest of `Comment::from` on the cleaned text `t` with the metadata
   * `found` in it: with metadata, drop it and clean what is left once more,
   * keeping the user and the parsed date-time; without, clean the text
   * once more.
   */
  function FromText(t: string, found: Option<Meta>, decode: string -> string,
                    parse: string -> Result<Chrono.DateTime, Chrono.ParseError>)
    : (r: Result<Comment, CommentError>)
    ensures r.Ok?
  {
    match found
    case None => Ok(Comment(Clean(t, decode), None, None))
    case Some(m) =>
      if 0 <= m.start < m.comma && m.comma + 21 <= |t| then
        Ok(Comment(Clean(t[..m.start] + t[m.comma + 21..], decode), Some(t[m.start + 1..m.comma]),
                   Some(AsDateTime(t[m.comma + 1..m.comma + 20], parse))))
      else Ok(Comment(Clean(t, decode), None, None))
  }

  /** Without metadata the text is cleaned twice and there is neither user nor date-time. */
  lemma WithoutMetadata(raw: string, decode: string -> string, parse: string -> Result<Chrono.DateTime, Chrono.ParseError>)
    requires forall j, c :: !MetaShape(Clean(raw, decode), j, c)
    ensures From(raw, decode, parse) == Ok(Comment(Clean(Clean(raw, decode), decode), None, None))
  {
    FindSpec(Clean(raw, decode));
  }

  /** Once the leftmost metadata is known, the comment is assembled from its pieces. */
  lemma FromMeta(raw: string, decode: string -> string, parse: string -> Result<Chrono.DateTime, Chrono.ParseError>, m: Meta)
    requires Find(Clean(raw, decode)) == Some(m) && 0 <= m.start < m.comma && m.comma + 21 <= |Clean(raw, decode)|
    ensures var t := Clean(raw, decode);
      From(raw, decode, parse) == Ok(Comment(Clean(t[..m.start] + t[m.comma + 21..], decode),
                                             Some(t[m.start + 1..m.comma]),
                                             Some(AsDateTime(t[m.comma + 1..m.comma + 20], parse))))
  {
    var t := Clean(raw, decode);
    assert From(raw, decode, parse) == FromText(t, Some(m), decode, parse);
    FromTextMeta(t, m, decode, parse);
  }

  /** `FromText` with metadata that fits the text: the pieces around and inside it. */
  lemma FromTextMeta(t: string, m: Meta, decode: string -> string, parse: string -> Result<Chrono.DateTime, Chrono.ParseError>)
    requires 0 <= m.start < m.comma && m.comma + 21 <= |t|
    ensures FromText(t, Some(m), decode, parse)
         == Ok(Comment(Clean(t[..m.start] + t[m.comma + 21..], decode), Some(t[m.start + 1..m.comma]),
                       Some(AsDateTime(t[m.comma + 1..m.comma + 20], parse))))
  {
  }

  /**
   * With metadata, the user is what stands between `(` and the comma, the
   * date-time is parsed from the nineteen characters after it, and the
   * text is what surrounds the metadata, cleaned again.
   */
  lemma WithMetadata(raw: string, decode: string -> string, parse: string -> Result<Chrono.DateTime, Chrono.ParseError>)
    requires exists j, c :: MetaShape(Clean(raw, decode), j, c)
    ensures var t := Clean(raw, decode);
      Find(t).Some? && var m := Find(t).value;
      MetaShape(t, m.start, m.comma)
      && From(raw, decode, parse) == Ok(Comment(Clean(t[..m.start] + t[m.comma + 21..], decode),
                                                Some(t[m.start + 1..m.comma]),
                                                Some(AsDateTime(t[m.comma + 1..m.comma + 20], parse))))
  {
    var t := Clean(raw, decode);
    FindSpec(t);
    var m := Find(t).value;
    assert 0 <= m.start < m.comma && m.comma + 21 <= |t| by {
      if SystemAt(t, m.start, m.comma) {
      } else {
        var a, b :| TokensAt(t, m.start, a, b, m.comma);
      }
    }
    FromMeta(raw, decode, parse, m);
  }

  /** `dt` is shaped `YYYY-MM-DD HH:MM:SS`, every `Y`, `M`, `D`, `H` and `S` a decimal digit. */
  predicate DateTimeText(dt: string)
  {
    |dt| == 19 && DigitsAt(dt, 0, 4) && dt[4] == '-' && DigitsAt(dt, 5, 2) && dt[7] == '-' && DigitsAt(dt, 8, 2)
    && dt[10] == ' ' && DigitsAt(dt, 11, 2) && dt[13] == ':' && DigitsAt(dt, 14, 2) && dt[16] == ':' && DigitsAt(dt, 17, 2)
  }

  /** Digits of a piece are digits of any text the piece is a slice of. */
  lemma {:induction false} DigitsSlice(t: string, o: int, x: string, i: int, n: nat)
    requires 0 <= o && o + |x| <= |t| && t[o..o + |x|] == x && DigitsAt(x, i, n)
    ensures DigitsAt(t, o + i, n)
    decreases n
  {
    if n > 0 {
      assert t[o + i] == x[i];
      DigitsSlice(t, o, x, i + 1, n - 1);
    }
  }

  /** A date-time text between a comma and `)` makes `DateTimeAt` at the comma. */
  lemma DateTimeSlice(t: string, c: int, dt: string)
    requires 0 <= c && c + 21 <= |t| && t[c] == ',' && t[c + 1..c + 20] == dt && t[c + 20] == ')'
    requires DateTimeText(dt)
    ensures DateTimeAt(t, c)
  {
    DigitsSlice(t, c + 1, dt, 0, 4);
    DigitsSlice(t, c + 1, dt, 5, 2);
    DigitsSlice(t, c + 1, dt, 8, 2);
    DigitsSlice(t, c + 1, dt, 11, 2);
    DigitsSlice(t, c + 1, dt, 14, 2);
    DigitsSlice(t, c + 1, dt, 17, 2);
    assert t[c + 5] == dt[4] && t[c + 8] == dt[7] && t[c + 11] == dt[10];
    assert t[c + 14] == dt[13] && t[c + 17] == dt[16];
  }

  /** `Система` holds neither a space nor a comma. */
  lemma SystemUserNoSpace()
    ensures ' ' !in SystemUser && ',' !in SystemUser
  {
  }

  /** No character of `s[i..j]` is `x`. */
  predicate Lacks(s: string, i: int, j: int, x: char)
  {
    0 <= i <= j <= |s| && forall k :: i <= k < j ==> s[k] != x
  }

  /**
   * With `(` at `i`, a first token without a comma that runs to a space
   * at `a` rules the `Система` alternative out.
   */
  lemma NotSystem(s: string, i: int, a: int)
    requires 0 <= i && i + 1 < a < |s| && s[a] == ' ' && Lacks(s, i + 1, a, ',')
    ensures !SystemAt(s, i, i + 8)
  {
    SystemUserNoSpace();
  }

  /** No metadata starts where there is no `(`. */
  lemma NoMetaBefore(s: string, i: int)
    requires Lacks(s, 0, i, '(')
    ensures forall j, c :: 0 <= j < i ==> !MetaShape(s, j, c)
  {
  }

  /** A nonempty run of non-space characters. */
  predicate Token(u: string)
  {
    u != [] && forall k :: 0 <= k < |u| ==> IsNonSpace(u[k])
  }

  /** `t` is written `body(u1 u2 u3,dt)after`. */
  predicate Rendered(t: string, body: string, u1: string, u2: string, u3: string, dt: string, after: string)
  {
    t == body + "(" + u1 + " " + u2 + " " + u3 + ("," + dt + ")") + after
  }

  /** `t` is `body(u1 u2 u3,dt)after`, piece by piece. */
  predicate Laid(t: string, body: string, u1: string, u2: string, u3: string, dt: string, after: string)
  {
    var i := |body|;
    var a := |body| + |u1| + 1;
    var b := |body| + |u1| + |u2| + 2;
    var c := |body| + |u1| + |u2| + |u3| + 3;
    |dt| == 19 && |t| == c + 21 + |after| && t[..i] == body && t[i] == '(' && t[i + 1..a] == u1 && t[a] == ' '
    && t[a + 1..b] == u2 && t[b] == ' ' && t[b + 1..c] == u3 && t[c] == ',' && t[c + 1..c + 20] == dt
    && t[c + 20] == ')' && t[c + 21..] == after
  }

  /** Written out and laid piece by piece are the same for a nineteen-character date-time. */
  lemma RenderedLaid(t: string, body: string, u1: string, u2: string, u3: string, dt: string, after: string)
    requires |dt| == 19
    ensures Rendered(t, body, u1, u2, u3, dt, after) <==> Laid(t, body, u1, u2, u3, dt, after)
  {
    var r := body + "(" + u1 + " " + u2 + " " + u3 + ("," + dt + ")") + after;
    LaidRendering(body, u1, u2, u3, dt, after);
    if Laid(t, body, u1, u2, u3, dt, after) {
      LaidUnique(t, r, body, u1, u2, u3, dt, after);
    }
  }

  /** The written-out comment is laid piece by piece. */
  lemma LaidRendering(body: string, u1: string, u2: string, u3: string, dt: string, after: string)
    requires |dt| == 19
    ensures Laid(body + "(" + u1 + " " + u2 + " " + u3 + ("," + dt + ")") + after, body, u1, u2, u3, dt, after)
  {
    var x := "," + dt + ")";
    var p := body + "(" + u1 + " " + u2 + " " + u3;
    var t := p + x + after;
    var i := |body|;
    var c := |p|;
    assert t[..c] == p && t[c..c + 21] == x && t[c + 21..] == after;
    assert p[..i] == body;
    assert x[1..20] == dt;
  }

  /** Two texts laid from the same pieces are equal. */
  lemma LaidUnique(t: string, t': string, body: string, u1: string, u2: string, u3: string, dt: string, after: string)
    requires Laid(t, body, u1, u2, u3, dt, after) && Laid(t', body, u1, u2, u3, dt, after)
    ensures t == t'
  {
    var i := |body|;
    var a := |body| + |u1| + 1;
    var b := |body| + |u1| + |u2| + 2;
    var c := |body| + |u1| + |u2| + |u3| + 3;
    forall k | 0 <= k < |t| ensures t[k] == t'[k] {
      if k < i {
        assert t[k] == t[..i][k] && t'[k] == t'[..i][k];
      } else if i < k < a {
        assert t[k] == t[i + 1..a][k - i - 1] && t'[k] == t'[i + 1..a][k - i - 1];
      } else if a < k < b {
        assert t[k] == t[a + 1..b][k - a - 1] && t'[k] == t'[a + 1..b][k - a - 1];
      } else if b < k < c {
        assert t[k] == t[b + 1..c][k - b - 1] && t'[k] == t'[b + 1..c][k - b - 1];
      } else if c < k < c + 20 {
        assert t[k] == t[c + 1..c + 20][k - c - 1] && t'[k] == t'[c + 1..c + 20][k - c - 1];
      } else if c + 20 < k {
        assert t[k] == t[c + 21..][k - c - 21] && t'[k] == t'[c + 21..][k - c - 21];
      }
    }
  }

  /** The user of a laid comment: the three tokens with their two spaces. */
  lemma LaidUser(t: string, body: string, u1: string, u2: string, u3: string, dt: string, after: string)
    requires Laid(t, body, u1, u2, u3, dt, after)
    ensures t[|body| + 1..|body| + |u1| + |u2| + |u3| + 3] == u1 + " " + u2 + " " + u3
  {
    var i := |body|;
    var a := |body| + |u1| + 1;
    var b := |body| + |u1| + |u2| + 2;
    var c := |body| + |u1| + |u2| + |u3| + 3;
    assert t[i + 1..c] == t[i + 1..a] + [t[a]] + t[a + 1..b] + [t[b]] + t[b + 1..c];
  }

  /** The three tokens and the date-time of a laid comment make `TokensAt`. */
  lemma LaidTokens(t: string, body: string, u1: string, u2: string, u3: string, dt: string, after: string)
    requires Laid(t, body, u1, u2, u3, dt, after) && DateTimeText(dt)
    requires Token(u1) && Token(u2) && Token(u3)
    ensures var i := |body|; var a := |body| + |u1| + 1; var b := |body| + |u1| + |u2| + 2;
      TokensAt(t, i, a, b, |body| + |u1| + |u2| + |u3| + 3)
  {
    var i := |body|;
    var a := |body| + |u1| + 1;
    var b := |body| + |u1| + |u2| + 2;
    var c := |body| + |u1| + |u2| + |u3| + 3;
    DateTimeSlice(t, c, dt);
    assert AllIn(t, i + 1, a, IsNonSpace) by {
      forall k | i + 1 <= k < a ensures IsNonSpace(t[k]) { assert t[k] == t[i + 1..a][k - i - 1]; }
    }
    assert AllIn(t, a + 1, b, IsNonSpace) by {
      forall k | a + 1 <= k < b ensures IsNonSpace(t[k]) { assert t[k] == t[a + 1..b][k - a - 1]; }
    }
    assert AllIn(t, b + 1, c, IsNonSpace) by {
      forall k | b + 1 <= k < c ensures IsNonSpace(t[k]) { assert t[k] == t[b + 1..c][k - b - 1]; }
    }
  }

  /** A laid comment without `(` in its text and without a comma in its first token. */
  lemma LaidLacks(t: string, body: string, u1: string, u2: string, u3: string, dt: string, after: string)
    requires Laid(t, body, u1, u2, u3, dt, after)
    requires '(' !in body && ',' !in u1
    ensures Lacks(t, 0, |body|, '(') && Lacks(t, |body| + 1, |body| + |u1| + 1, ',')
  {
    var i := |body|;
    var a := |body| + |u1| + 1;
    assert Lacks(t, 0, i, '(') by {
      forall k | 0 <= k < i ensures t[k] != '(' { assert t[k] == t[..i][k]; }
    }
    assert Lacks(t, i + 1, a, ',') by {
      forall k | i + 1 <= k < a ensures t[k] != ',' { assert t[k] == t[i + 1..a][k - i - 1]; }
    }
  }

  /** In a laid comment the leftmost metadata opens after the text and its comma follows the third token. */
  lemma LaidFind(t: string, body: string, u1: string, u2: string, u3: string, dt: string, after: string)
    requires Laid(t, body, u1, u2, u3, dt, after)
    requires DateTimeText(dt) && '(' !in body && ',' !in u1
    requires Token(u1) && Token(u2) && Token(u3)
    ensures Find(t) == Some(Meta(|body|, |body| + |u1| + |u2| + |u3| + 3))
  {
    var i := |body|;
    var a := |body| + |u1| + 1;
    LaidTokens(t, body, u1, u2, u3, dt, after);
    LaidLacks(t, body, u1, u2, u3, dt, after);
    NoMetaBefore(t, i);
    NotSystem(t, i, a);
    FindAt(t, i, |body| + |u1| + |u2| + |u3| + 3);
  }

  /** A laid comment read with the metadata that follows its text. */
  lemma TokensText(t: string, decode: string -> string, parse: string -> Result<Chrono.DateTime, Chrono.ParseError>,
                   body: string, u1: string, u2: string, u3: string, dt: string, after: string)
    requires Laid(t, body, u1, u2, u3, dt, after)
    ensures FromText(t, Some(Meta(|body|, |body| + |u1| + |u2| + |u3| + 3)), decode, parse)
         == Ok(Comment(Clean(body + after, decode), Some(u1 + " " + u2 + " " + u3), Some(AsDateTime(dt, parse))))
  {
    LaidUser(t, body, u1, u2, u3, dt, after);
  }

  /**
   * The documented shape: a text, then `(`, three space-separated tokens,
   * a comma, the date-time and `)`. When the text has no `(` and the
   * first token no comma, the user is the three tokens, the date-time is
   * parsed from its text, and the metadata leaves the text.
   */
  lemma TokensComment(raw: string, decode: string -> string, parse: string -> Result<Chrono.DateTime, Chrono.ParseError>,
                      body: string, u1: string, u2: string, u3: string, dt: string, after: string)
    requires Laid(Clean(raw, decode), body, u1, u2, u3, dt, after)
    requires DateTimeText(dt) && '(' !in body && ',' !in u1
    requires Token(u1) && Token(u2) && Token(u3)
    ensures From(raw, decode, parse)
         == Ok(Comment(Clean(body + after, decode), Some(u1 + " " + u2 + " " + u3), Some(AsDateTime(dt, parse))))
  {
    LaidFind(Clean(raw, decode), body, u1, u2, u3, dt, after);
    TokensText(Clean(raw, decode), decode, parse, body, u1, u2, u3, dt, after);
  }

  /** `t` is `body(Система,dt)after`, piece by piece. */
  predicate SystemLaid(t: string, body: string, dt: string, after: string)
  {
    var i := |body|;
    |dt| == 19 && |t| == i + 29 + |after| && t[..i] == body && t[i] == '(' && t[i + 1..i + 8] == SystemUser
    && t[i + 8] == ',' && t[i + 9..i + 28] == dt && t[i + 28] == ')' && t[i + 29..] == after
  }

  /** In a laid system comment the leftmost metadata opens after the text, its comma right after `Система`. */
  lemma SystemFind(t: string, body: string, dt: string, after: string)
    requires SystemLaid(t, body, dt, after) && DateTimeText(dt) && '(' !in body
    ensures Find(t) == Some(Meta(|body|, |body| + 8))
  {
    var i := |body|;
    DateTimeSlice(t, i + 8, dt);
    assert SystemAt(t, i, i + 8);
    assert Lacks(t, 0, i, '(') by {
      forall k | 0 <= k < i ensures t[k] != '(' { assert t[k] == t[..i][k]; }
    }
    NoMetaBefore(t, i);
    FindAt(t, i, i + 8);
  }

  /** A laid system comment read with the metadata that follows its text. */
  lemma SystemText(t: string, decode: string -> string, parse: string -> Result<Chrono.DateTime, Chrono.ParseError>,
                   body: string, dt: string, after: string)
    requires SystemLaid(t, body, dt, after)
    ensures FromText(t, Some(Meta(|body|, |body| + 8)), decode, parse)
         == Ok(Comment(Clean(body + after, decode), Some(SystemUser), Some(AsDateTime(dt, parse))))
  {
  }

  /**
   * An entry the system wrote: `(Система,` the date-time `)` after a text
   * without `(`. The user is `Система`, and the rest is as for a person.
   */
  lemma SystemComment(raw: string, decode: string -> string, parse: string -> Result<Chrono.DateTime, Chrono.ParseError>,
                      body: string, dt: string, after: string)
    requires SystemLaid(Clean(raw, decode), body, dt, after) && DateTimeText(dt) && '(' !in body
    ensures From(raw, decode, parse)
         == Ok(Comment(Clean(body + after, decode), Some(SystemUser), Some(AsDateTime(dt, parse))))
  {
    SystemFind(Clean(raw, decode), body, dt, after);
    SystemText(Clean(raw, decode), decode, parse, body, dt, after);
  }

  /**
   * Metadata needs a date-time of the full `YYYY-MM-DD HH:MM:SS` shape:
   * a text with none, such as one whose date lacks its month, keeps its
   * `(…)` and has neither user nor date-time.
   */
  lemma NoDateTimeNoMetadata(raw: string, decode: string -> string, parse: string -> Result<Chrono.DateTime, Chrono.ParseError>)
    requires forall c :: !DateTimeAt(Clean(raw, decode), c)
    ensures From(raw, decode, parse) == Ok(Comment(Clean(Clean(raw, decode), decode), None, None))
  {
    assert forall j, c :: !MetaShape(Clean(raw, decode), j, c);
    WithoutMetadata(raw, decode, parse);
  }
}
