/**
 * `BasicSearch`: the rows of a basic search result, read column by
 * column. Every `tr` gives one `SearchEntry`, pushed whatever its cells
 * hold; the cells are taken from the row's child-element iterator with
 * `nth`, so a column is a position and a short row simply runs out.
 * The HTML parse and the `tr` selection are not modelled: the parser
 * receives the selected rows.
 */
module BasicSearchParser {
  import opened Base
  import opened Strings
  import Dom
  import Chrono
  import Numbers
  import IntErrorKinds
  import ParseErrorKinds
  import AddressData
  import MduData
  import InternalStatusData
  import opened SearchEntryData

  /** `BasicSearch::get_text`: the element's text nodes joined with spaces; no element or an empty text gives nothing. */
  function GetText(element: Option<Dom.Node>): (r: Option<string>)
    ensures r.Some? <==> element.Some? && Dom.JoinedText(element.value) != ""
    ensures r.Some? ==> r.value == Dom.JoinedText(element.value) && r.value != ""
  {
    match element
    case None => None
    case Some(e) => if Dom.JoinedText(e) == "" then None else Some(Dom.JoinedText(e))
  }

  /** `BasicSearch::get_prop`: the callback on the element's text, skipped when there is no text. */
  function GetProp<T>(element: Option<Dom.Node>, callback: string -> Option<T>): (r: Option<T>)
    ensures GetText(element).None? ==> r.None?
    ensures GetText(element).Some? ==> r == callback(GetText(element).value)
  {
    match GetText(element)
    case None => None
    case Some(text) => callback(text)
  }

  /** A cell without any text node, or with one empty text node, counts as missing. */
  lemma EmptyCell(e: Dom.Node)
    requires Dom.TextNodes(e) == [] || Dom.TextNodes(e) == [""]
    ensures GetText(Some(e)) == None
  {
  }

  /** A cell with one text node gives that text when it is not empty. */
  lemma SingleTextCell(e: Dom.Node, t: string)
    requires Dom.TextNodes(e) == [t] && t != ""
    ensures GetText(Some(e)) == Some(t)
  {
  }

  /** `Iterator::nth(n)` on what is left of the iterator: skip `n` elements and yield the next; past the end, nothing is yielded and nothing is left. */
  function Nth(rest: seq<Dom.Node>, n: nat): (r: (Option<Dom.Node>, seq<Dom.Node>))
    ensures r.0.Some? <==> n < |rest|
    ensures r.0.Some? ==> r.0.value == rest[n] && r.1 == rest[n + 1..]
    ensures r.0.None? ==> r.1 == []
  {
    if n < |rest| then (Some(rest[n]), rest[n + 1..]) else (None, [])
  }

  /** What is left of the iterator over `cells` after `k` of them were taken. */
  function Drop(cells: seq<Dom.Node>, k: nat): seq<Dom.Node>
  {
    if k <= |cells| then cells[k..] else []
  }

  /** The cell in column `k`, if the row has that many. */
  function Cell(cells: seq<Dom.Node>, k: nat): (r: Option<Dom.Node>)
    ensures r.Some? <==> k < |cells|
  {
    if k < |cells| then Some(cells[k]) else None
  }

  /** Taking `n` more elements after `k` reaches the cell in column `k + n`. */
  lemma NthOfDrop(cells: seq<Dom.Node>, k: nat, n: nat)
    ensures Nth(Drop(cells, k), n) == (Cell(cells, k + n), Drop(cells, k + n + 1))
  {
    if k + n < |cells| {
      assert Drop(cells, k)[n + 1..] == cells[k + n + 1..];
    }
  }

  /** The closures `collect_fragments` passes to `get_prop`, one per parsed column, and the address builder. */
  datatype Closures = Closures(
    number: string -> Option<Result<nat, IntErrorKinds.SerializableIntErrorKind>>,
    client: string -> Option<string>,
    date: string -> Option<Result<Chrono.NaiveDate, ParseErrorKinds.SerializableParseErrorKind>>,
    status: string -> Option<Result<InternalStatusData.InternalStatus, InternalStatusData.InternalStatusError>>,
    mdu: string -> Option<Result<MduData.Mdu, MduData.MduError>>,
    address: (string, string, string, string) -> AddressData.Address)

  /** The phone and the installer: the text as it is. */
  function AsPlain(text: string): (r: Option<string>)
    ensures r.Some? && r.value == text
  {
    Some(text)
  }

  /** The `%Y-%m-%d` parse of the update date, its error reduced to the serialisable kind. */
  function AsDate(text: string, parseDate: string -> Result<Chrono.NaiveDate, Chrono.ParseError>)
    : (r: Option<Result<Chrono.NaiveDate, ParseErrorKinds.SerializableParseErrorKind>>)
    ensures r.Some? && (r.value.Ok? <==> parseDate(text).Ok?)
    ensures r.value.Ok? ==> r.value.value == parseDate(text).value
    ensures r.value.Err? ==> r.value.error == ParseErrorKinds.FromKind(parseDate(text).error.kind)
  {
    match parseDate(text)
    case Ok(d) => Some(Ok(d))
    case Err(e) => Some(Err(ParseErrorKinds.FromKind(e.kind)))
  }

  /**
   * The closures as the source writes them: ids as `u32`, the client
   * trimmed, the date with the date parser, the status and the MDU with
   * their parsers, the address with `Address::from_parts`. None of them
   * gives up: every text gives a value or a kept error.
   */
  function Parsers(parseDate: string -> Result<Chrono.NaiveDate, Chrono.ParseError>): (cl: Closures)
    ensures forall text :: cl.number(text) == Some(IntErrorKinds.FromStrUnsigned(text, Numbers.U32Bound))
    ensures forall text :: cl.client(text) == Some(Trim(text))
    ensures forall text :: cl.date(text) == AsDate(text, parseDate)
    ensures forall text :: cl.status(text) == Some(InternalStatusData.FromStr(text))
    ensures forall text :: cl.mdu(text) == Some(MduData.FromWorkSchedule(text))
    ensures forall c, s, b, a :: cl.address(c, s, b, a) == AddressData.FromParts(c, s, b, a)
  {
    Closures(text => Some(IntErrorKinds.FromStrUnsigned(text, Numbers.U32Bound)), text => Some(Trim(text)),
             text => AsDate(text, parseDate), text => Some(InternalStatusData.FromStr(text)),
             text => Some(MduData.FromWorkSchedule(text)), AddressData.FromParts)
  }

  /**
   * The entry a row stands for, column by column: 0 the internal order
   * id, 1 the order id, 2 to 5 city, street, building and apartment, 6
   * the client, 7 the phone, 8 the update date, 9 and 10 unread, 11 the
   * installer, 12 the internal status, 13 the MDU. The address is set
   * only when its four cells all have text.
   */
  function EntryOf(cells: seq<Dom.Node>, cl: Closures): SearchEntry
  {
    var city := GetText(Cell(cells, 2));
    var street := GetText(Cell(cells, 3));
    var building := GetText(Cell(cells, 4));
    var apartment := GetText(Cell(cells, 5));
    SearchEntry(
      GetProp(Cell(cells, 1), cl.number),
      GetProp(Cell(cells, 0), cl.number),
      GetProp(Cell(cells, 7), AsPlain),
      if city.Some? && street.Some? && building.Some? && apartment.Some?
      then Some(cl.address(city.value, street.value, building.value, apartment.value))
      else None,
      GetProp(Cell(cells, 13), cl.mdu),
      GetProp(Cell(cells, 6), cl.client),
      GetProp(Cell(cells, 11), AsPlain),
      GetProp(Cell(cells, 12), cl.status),
      GetProp(Cell(cells, 8), cl.date))
  }

  /** `f` applied to each row, in order. */
  function MapRows<T>(rows: seq<Dom.Node>, f: Dom.Node -> T): (r: seq<T>)
    ensures |r| == |rows|
  {
    if rows == [] then [] else MapRows(rows[..|rows| - 1], f) + [f(rows[|rows| - 1])]
  }

  /** Element `k` of the map is `f` of row `k`: none is dropped, none is reordered. */
  lemma {:induction false} MapRowsPointwise<T>(rows: seq<Dom.Node>, f: Dom.Node -> T)
    ensures forall k :: 0 <= k < |rows| ==> MapRows(rows, f)[k] == f(rows[k])
  {
    if rows != [] {
      var init := rows[..|rows| - 1];
      MapRowsPointwise(init, f);
      assert forall k :: 0 <= k < |init| ==> rows[k] == init[k];
    }
  }

  /** The entries of the rows: one per row, in document order. */
  function Entries(rows: seq<Dom.Node>, cl: Closures): (r: seq<SearchEntry>)
    ensures |r| == |rows|
  {
    MapRows(rows, row => EntryOf(Dom.ChildElements(row), cl))
  }

  /** Entry `k` is the entry of row `k`. */
  lemma EntriesPointwise(rows: seq<Dom.Node>, cl: Closures)
    ensures forall k :: 0 <= k < |rows| ==> Entries(rows, cl)[k] == EntryOf(Dom.ChildElements(rows[k]), cl)
  {
    MapRowsPointwise(rows, row => EntryOf(Dom.ChildElements(row), cl));
  }

  /** A row without cells still gives an entry, with nothing found. */
  lemma EmptyRow(cl: Closures)
    ensures EntryOf([], cl) == Default
  {
  }

  /** Columns 9 and 10 are skipped: whatever they hold, the entry is the same. */
  lemma SkippedColumns(cells: seq<Dom.Node>, x: Dom.Node, y: Dom.Node, cl: Closures)
    requires |cells| >= 11
    ensures EntryOf(cells[9 := x][10 := y], cl) == EntryOf(cells, cl)
  {
    var c := cells[9 := x][10 := y];
    assert forall k :: 0 <= k < |cells| && k != 9 && k != 10 ==> Cell(c, k) == Cell(cells, k);
  }

  /** A row of at most five cells has no apartment column and nothing after it: only the ids can be found. */
  lemma ShortRow(cells: seq<Dom.Node>, cl: Closures)
    requires |cells| <= 5
    ensures var e := EntryOf(cells, cl);
      e.address == None && e.client == None && e.phoneNumber == None && e.lastUpdated == None
      && e.installer == None && e.internalStatus == None && e.mdu == None
  {
  }

  /**
   * The address is present exactly when the city, street, building and
   * apartment cells all have text, and is then built from those texts.
   */
  lemma AddressFromFourCells(cells: seq<Dom.Node>, cl: Closures)
    ensures EntryOf(cells, cl).address.Some?
        <==> |cells| >= 6 && forall k :: 2 <= k < 6 ==> Dom.JoinedText(cells[k]) != ""
    ensures EntryOf(cells, cl).address.Some? ==>
      EntryOf(cells, cl).address.value
      == cl.address(Dom.JoinedText(cells[2]), Dom.JoinedText(cells[3]), Dom.JoinedText(cells[4]),
                    Dom.JoinedText(cells[5]))
  {
    if |cells| >= 6 && forall k :: 2 <= k < 6 ==> Dom.JoinedText(cells[k]) != "" {
      assert Dom.JoinedText(cells[2]) != "" && Dom.JoinedText(cells[3]) != "";
      assert Dom.JoinedText(cells[4]) != "" && Dom.JoinedText(cells[5]) != "";
    }
  }

  /** The client, the phone and the installer: the client's text trimmed, the others as they are. */
  lemma TextColumns(cells: seq<Dom.Node>, parseDate: string -> Result<Chrono.NaiveDate, Chrono.ParseError>)
    requires |cells| >= 12 && Dom.JoinedText(cells[6]) != "" && Dom.JoinedText(cells[7]) != ""
    requires Dom.JoinedText(cells[11]) != ""
    ensures var e := EntryOf(cells, Parsers(parseDate));
      e.client == Some(Trim(Dom.JoinedText(cells[6]))) && e.phoneNumber == Some(Dom.JoinedText(cells[7]))
      && e.installer == Some(Dom.JoinedText(cells[11]))
  {
  }

  /** An internal order id whose text starts with a character that is not a digit is kept as `InvalidDigit`. */
  lemma NonNumericId(cells: seq<Dom.Node>, parseDate: string -> Result<Chrono.NaiveDate, Chrono.ParseError>)
    requires |cells| >= 1 && Dom.JoinedText(cells[0]) != ""
    requires Numbers.Unsigned(Dom.JoinedText(cells[0])) != []
    requires !Numbers.IsAsciiDigit(Numbers.Unsigned(Dom.JoinedText(cells[0]))[0])
    ensures EntryOf(cells, Parsers(parseDate)).internalOrderId == Some(Err(IntErrorKinds.InvalidDigit))
  {
    IntErrorKinds.NonDigitText(Dom.JoinedText(cells[0]), Numbers.U32Bound);
  }

  /** An update date that does not parse is kept with the kind of the parse error. */
  lemma BadDate(cells: seq<Dom.Node>, parseDate: string -> Result<Chrono.NaiveDate, Chrono.ParseError>)
    requires |cells| >= 9 && Dom.JoinedText(cells[8]) != "" && parseDate(Dom.JoinedText(cells[8])).Err?
    ensures EntryOf(cells, Parsers(parseDate)).lastUpdated
         == Some(Err(ParseErrorKinds.FromKind(parseDate(Dom.JoinedText(cells[8])).error.kind)))
  {
  }

  /** The basic search: the entries read so far. */
  class BasicSearch {
    var entries: seq<SearchEntry>

    /** `BasicSearch::default()`. */
    constructor ()
      ensures entries == []
    {
      entries := [];
    }

    /**
     * One pass of the `collect_fragments` loop body: a default entry
     * filled field by field while the child-element iterator advances,
     * `nth(0)` for each column and `nth(2)` over the two unread ones.
     */
    static method ReadEntry(row: Dom.Node, cl: Closures) returns (entry: SearchEntry)
      ensures entry == EntryOf(Dom.ChildElements(row), cl)
    {
      var cells := Dom.ChildElements(row);
      entry := Default;
      var cell, taken := Advance(cells, 0, 0);
      entry := entry.(internalOrderId := GetProp(cell, cl.number));
      cell, taken := Advance(cells, taken, 0);
      entry := entry.(orderId := GetProp(cell, cl.number));
      cell, taken := Advance(cells, taken, 0);
      var city := GetText(cell);
      cell, taken := Advance(cells, taken, 0);
      var street := GetText(cell);
      cell, taken := Advance(cells, taken, 0);
      var building := GetText(cell);
      cell, taken := Advance(cells, taken, 0);
      var apartment := GetText(cell);
      cell, taken := Advance(cells, taken, 0);
      entry := entry.(client := GetProp(cell, cl.client));
      cell, taken := Advance(cells, taken, 0);
      entry := entry.(phoneNumber := GetProp(cell, AsPlain));
      cell, taken := Advance(cells, taken, 0);
      entry := entry.(lastUpdated := GetProp(cell, cl.date));
      cell, taken := Advance(cells, taken, 2);
      entry := entry.(installer := GetProp(cell, AsPlain));
      cell, taken := Advance(cells, taken, 0);
      entry := entry.(internalStatus := GetProp(cell, cl.status));
      cell, taken := Advance(cells, taken, 0);
      entry := entry.(mdu := GetProp(cell, cl.mdu));
      if city.Some? && street.Some? && building.Some? && apartment.Some? {
        entry := entry.(address := Some(cl.address(city.value, street.value, building.value, apartment.value)));
      }
    }

    /**
     * `children.nth(n)` on the child-element iterator of a row once `taken`
     * cells were consumed: what is left is `Drop(cells, taken)`, the cell
     * yielded is the one in column `taken + n`, and `taken + n + 1` cells
     * are consumed afterwards (past the end, every further call yields
     * nothing, as `Cell` does).
     */
    static method Advance(cells: seq<Dom.Node>, taken: nat, n: nat) returns (cell: Option<Dom.Node>, next: nat)
      ensures cell == Cell(cells, taken + n) && next == taken + n + 1
    {
      NthOfDrop(cells, taken, n);
      cell := Nth(Drop(cells, taken), n).0;
      next := taken + n + 1;
    }

    /** `collect_fragments`: one entry per selected row, in document order, appended to those already read. */
    method CollectFragments(rows: seq<Dom.Node>, cl: Closures)
      modifies this
      ensures entries == old(entries) + Entries(rows, cl)
    {
      var i := 0;
      while i < |rows|
        invariant i <= |rows|
        invariant entries == old(entries) + Entries(rows[..i], cl)
      {
        var entry := ReadEntry(rows[i], cl);
        assert rows[..i + 1][..i] == rows[..i];
        entries := entries + [entry];
        i := i + 1;
      }
      assert rows[..i] == rows;
    }
  }

  /** `BasicSearch::from`: a fresh search filled from the selected rows. */
  method Parse(rows: seq<Dom.Node>, parseDate: string -> Result<Chrono.NaiveDate, Chrono.ParseError>)
    returns (search: BasicSearch)
    ensures fresh(search)
    ensures search.entries == Entries(rows, Parsers(parseDate))
  {
    search := new BasicSearch();
    search.CollectFragments(rows, Parsers(parseDate));
  }
}
