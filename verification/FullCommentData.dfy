/**
 * `FullComment`: one row of an order's history table, read cell by cell.
 * The cells are the row's child elements, each reduced to its first text
 * node; the date-time sits in cell 0, the user in cell 2, the internal
 * status in cell 4 and the text in cell 5, while cells 1 and 3 are never
 * read. The cells are indexed without a length check, so a short row
 * panics as soon as a missing cell is reached.
 */
module FullCommentData {
  import opened Base
  import opened Numbers
  import Dom
  import Chrono
  import ParseErrorKinds
  import CommentData
  import InternalStatusData

  datatype FullCommentError =
    | DateTimeShouldBePresent
    | UserShouldBePresent
    | InternalStatusShouldBePresent
    | DateTimeFailed(raw: string, kind: ParseErrorKinds.SerializableParseErrorKind)
    | InvalidInternalStatus(error: InternalStatusData.InternalStatusError)

  datatype FullComment = FullComment(
    text: Option<string>,
    user: string,
    datetime: Chrono.DateTime,
    internalStatus: InternalStatusData.InternalStatus)

  /** `comment.child_elements().map(|x| x.text().nth(0))`: the first text node of every child element. */
  function Cells(row: Dom.Node): (r: seq<Option<string>>)
    ensures |r| == |Dom.ChildElements(row)|
    ensures forall k :: 0 <= k < |r| ==> r[k] == Dom.FirstText(Dom.ChildElements(row)[k])
  {
    seq(|Dom.ChildElements(row)|, k requires 0 <= k < |Dom.ChildElements(row)| => Dom.FirstText(Dom.ChildElements(row)[k]))
  }

  /** Rust's panic message for `data[index]` on a vector of length `len`. */
  function OutOfBounds(len: nat, index: nat): string
  {
    "index out of bounds: the len is " + DecimalString(len) + " but the index is " + DecimalString(index)
  }

  /**
   * `FullComment::from` on the cells of a row: the three presence checks
   * in the order 0, 2, 4 (each index reached panics on a shorter row), the
   * read of cell 5, then the date-time parse and the status parse.
   */
  function FromCells(data: seq<Option<string>>, decode: string -> string,
                     parse: string -> Result<Chrono.DateTime, Chrono.ParseError>)
    : (r: Outcome<Result<FullComment, FullCommentError>>)
    ensures |data| >= 6 ==> r.Done?
    ensures r == Done(Err(DateTimeShouldBePresent)) <==> |data| >= 1 && data[0].None?
    ensures r == Done(Err(UserShouldBePresent)) <==> |data| >= 3 && data[0].Some? && data[2].None?
    ensures r == Done(Err(InternalStatusShouldBePresent))
        <==> |data| >= 5 && data[0].Some? && data[2].Some? && data[4].None?
    ensures r.Panic? <==> (|data| == 0 || (data[0].Some? && |data| <= 2) || (data[0].Some? && data[2].Some? && |data| <= 4)
                           || (data[0].Some? && data[2].Some? && data[4].Some? && |data| == 5))
    ensures r.Done? && r.value.Ok? ==>
      |data| >= 6 && data[0].Some? && data[2].Some? && data[4].Some?
      && parse(data[0].value).Ok? && r.value.value.datetime == parse(data[0].value).value
      && r.value.value.user == data[2].value
      && InternalStatusData.Label(r.value.value.internalStatus) == data[4].value
      && r.value.value.text == (if data[5].Some? then Some(CommentData.Clean(data[5].value, decode)) else None)
  {
    if |data| <= 0 then Panic(OutOfBounds(|data|, 0))
    else if data[0].None? then Done(Err(DateTimeShouldBePresent))
    else if |data| <= 2 then Panic(OutOfBounds(|data|, 2))
    else if data[2].None? then Done(Err(UserShouldBePresent))
    else if |data| <= 4 then Panic(OutOfBounds(|data|, 4))
    else if data[4].None? then Done(Err(InternalStatusShouldBePresent))
    else if |data| <= 5 then Panic(OutOfBounds(|data|, 5))
    else
      var rawDateTime := data[0].value;
      var text := if data[5].Some? then Some(CommentData.Clean(data[5].value, decode)) else None;
      match CommentData.AsDateTime(rawDateTime, parse)
      case Err(kind) => Done(Err(DateTimeFailed(rawDateTime, kind)))
      case Ok(datetime) =>
        match InternalStatusData.FromStr(data[4].value)
        case Err(e) => Done(Err(InvalidInternalStatus(e)))
        case Ok(status) => Done(Ok(FullComment(text, data[2].value, datetime, status)))
  }

  /** `FullComment::from`: the row's cells read by `FromCells`. */
  function From(row: Dom.Node, decode: string -> string, parse: string -> Result<Chrono.DateTime, Chrono.ParseError>)
    : (r: Outcome<Result<FullComment, FullCommentError>>)
  {
    FromCells(Cells(row), decode, parse)
  }

  /** Every cell the parser needs is there and has text. */
  predicate Complete(data: seq<Option<string>>)
  {
    |data| >= 6 && data[0].Some? && data[2].Some? && data[4].Some?
  }

  /**
   * With every needed cell present, an unreadable date-time is reported
   * with the cell's raw text and the kind of the parse error, whatever the
   * status cell holds: the date-time is parsed first.
   */
  lemma DateTimeFailsFirst(data: seq<Option<string>>, decode: string -> string,
                           parse: string -> Result<Chrono.DateTime, Chrono.ParseError>)
    requires Complete(data) && parse(data[0].value).Err?
    ensures FromCells(data, decode, parse)
         == Done(Err(DateTimeFailed(data[0].value, ParseErrorKinds.FromKind(parse(data[0].value).error.kind))))
  {
  }

  /** With a readable date-time, a status cell that is not one of the labels is reported with its text. */
  lemma StatusFails(data: seq<Option<string>>, decode: string -> string,
                    parse: string -> Result<Chrono.DateTime, Chrono.ParseError>)
    requires Complete(data) && parse(data[0].value).Ok?
    requires forall st: InternalStatusData.InternalStatus :: InternalStatusData.Label(st) != data[4].value
    ensures FromCells(data, decode, parse)
         == Done(Err(InvalidInternalStatus(InternalStatusData.InvalidStrStatus(data[4].value))))
  {
  }

  /**
   * A row reads successfully exactly when every needed cell is present,
   * the date-time parses and the status cell holds a label; the comment
   * then carries the status whose label that is.
   */
  lemma Success(data: seq<Option<string>>, decode: string -> string,
                parse: string -> Result<Chrono.DateTime, Chrono.ParseError>, st: InternalStatusData.InternalStatus)
    ensures (FromCells(data, decode, parse).Done? && FromCells(data, decode, parse).value.Ok?)
        <==> Complete(data) && parse(data[0].value).Ok? && exists s :: InternalStatusData.Label(s) == data[4].value
    ensures Complete(data) && parse(data[0].value).Ok? && InternalStatusData.Label(st) == data[4].value ==>
      FromCells(data, decode, parse)
      == Done(Ok(FullComment(if data[5].Some? then Some(CommentData.Clean(data[5].value, decode)) else None,
                             data[2].value, parse(data[0].value).value, st)))
  {
    if Complete(data) && parse(data[0].value).Ok? && InternalStatusData.Label(st) == data[4].value {
      InternalStatusData.LabelRoundTrip(st, st);
    }
    if Complete(data) && parse(data[0].value).Ok? && exists s :: InternalStatusData.Label(s) == data[4].value {
      var s :| InternalStatusData.Label(s) == data[4].value;
      InternalStatusData.LabelRoundTrip(s, s);
    }
  }

  /** Cells 1 and 3 are never read. */
  lemma IgnoredCells(data: seq<Option<string>>, x: Option<string>, y: Option<string>, decode: string -> string,
                     parse: string -> Result<Chrono.DateTime, Chrono.ParseError>)
    requires |data| >= 4
    ensures FromCells(data[1 := x][3 := y], decode, parse) == FromCells(data, decode, parse)
  {
    var d := data[1 := x][3 := y];
    assert d[0] == data[0] && d[2] == data[2] && |d| == |data|;
    if |data| >= 5 {
      assert d[4] == data[4];
    }
    if |data| >= 6 {
      assert d[5] == data[5];
    }
  }

  /**
   * A row whose second cell is missing altogether has five cells: with the
   * date-time, user and status present, reading cell 5 panics.
   */
  lemma FiveCells(data: seq<Option<string>>, decode: string -> string,
                  parse: string -> Result<Chrono.DateTime, Chrono.ParseError>)
    requires |data| == 5 && data[0].Some? && data[2].Some? && data[4].Some?
    ensures FromCells(data, decode, parse) == Panic("index out of bounds: the len is 5 but the index is 5")
  {
    assert DecimalString(5) == "5";
  }

  /** The row of a comment's history read through its child elements. */
  lemma RowCells(row: Dom.Node, decode: string -> string, parse: string -> Result<Chrono.DateTime, Chrono.ParseError>)
    ensures From(row, decode, parse).Done? <== |Dom.ChildElements(row)| >= 6
    ensures From(row, decode, parse) == Done(Err(DateTimeShouldBePresent))
        <==> |Dom.ChildElements(row)| >= 1 && Dom.TextNodes(Dom.ChildElements(row)[0]) == []
  {
  }
}
