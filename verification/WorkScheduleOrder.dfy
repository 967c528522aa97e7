/**
 * `Order`: one order of a work schedule, read from its `requestrow` row
 * with CSS queries, and from the whole schedule for the phones, which sit
 * in a `requestrow2` row carrying the same `rowid`. No field makes the
 * read fail: each is missing, a value, or a kept error. The CSS engine is
 * the `Select` parameter of `selector!`.
 */
module WorkScheduleOrder {
  import opened Base
  import opened Strings
  import Dom
  import Numbers
  import IntErrorKinds
  import AddressData
  import MduData
  import TimeConstrainsData
  import StatusData
  import OrderTypeData
  import InternalStatusData
  import opened Macros

  datatype Order = Order(
    orderIndex: Option<Result<nat, IntErrorKinds.SerializableIntErrorKind>>,
    orderId: Option<Result<nat, IntErrorKinds.SerializableIntErrorKind>>,
    internalOrderId: Option<Result<nat, IntErrorKinds.SerializableIntErrorKind>>,
    timeConstrains: Option<Result<TimeConstrainsData.TimeConstrains, TimeConstrainsData.TimeConstrainsError>>,
    phones: Option<seq<string>>,
    pa: Option<string>,
    address: Option<Result<AddressData.Address, AddressData.AddressError>>,
    mdu: Option<Result<MduData.Mdu, MduData.MduError>>,
    status: Option<Result<StatusData.Status, StatusData.StatusError>>,
    orderType: Option<Result<OrderTypeData.OrderType, OrderTypeData.OrderTypeError>>,
    client: Option<string>,
    internalStatus: Option<Result<InternalStatusData.InternalStatus, InternalStatusData.InternalStatusError>>)

  datatype GuaranteedOrder = GuaranteedOrder(
    orderIndex: nat,
    orderId: nat,
    internalOrderId: nat,
    timeConstrains: TimeConstrainsData.TimeConstrains,
    phones: seq<string>,
    pa: string,
    address: AddressData.Address,
    mdu: MduData.Mdu,
    status: StatusData.Status,
    orderType: OrderTypeData.OrderType,
    client: string,
    internalStatus: InternalStatusData.InternalStatus)

  /** The order a guaranteed order stands for: every field found and parsed. */
  function Raw(g: GuaranteedOrder): Order
  {
    Order(Some(Ok(g.orderIndex)), Some(Ok(g.orderId)), Some(Ok(g.internalOrderId)), Some(Ok(g.timeConstrains)),
          Some(g.phones), Some(g.pa), Some(Ok(g.address)), Some(Ok(g.mdu)), Some(Ok(g.status)),
          Some(Ok(g.orderType)), Some(g.client), Some(Ok(g.internalStatus)))
  }

  /**
   * `Order::into_guaranteed`: the `?` chain over all twelve fields. An
   * order is accepted exactly when it is the image of a guaranteed order,
   * and then gives that order.
   */
  function IntoGuaranteed(o: Order): (r: Option<GuaranteedOrder>)
    ensures r.Some? ==> Raw(r.value) == o
    ensures r.None? ==> forall g :: Raw(g) != o
  {
    match (Required(o.orderId), Required(o.internalOrderId), Required(o.orderIndex), Required(o.timeConstrains),
           o.phones, o.pa)
    case (Some(orderId), Some(internalOrderId), Some(orderIndex), Some(timeConstrains), Some(phones), Some(pa)) =>
      (match (Required(o.address), Required(o.mdu), Required(o.status), Required(o.orderType), o.client,
              Required(o.internalStatus))
       case (Some(address), Some(mdu), Some(status), Some(orderType), Some(client), Some(internalStatus)) =>
         Some(GuaranteedOrder(orderIndex, orderId, internalOrderId, timeConstrains, phones, pa, address, mdu,
                              status, orderType, client, internalStatus))
       case _ => None)
    case _ => None
  }

  /** A guaranteed order comes back unchanged from the order it stands for. */
  lemma RoundTrip(g: GuaranteedOrder)
    ensures IntoGuaranteed(Raw(g)) == Some(g)
  {
  }

  /** Acceptance field by field: every field present, every parsed field parsed without error. */
  lemma Accepted(o: Order)
    ensures IntoGuaranteed(o).Some? <==>
      o.orderIndex.Some? && o.orderIndex.value.Ok? && o.orderId.Some? && o.orderId.value.Ok?
      && o.internalOrderId.Some? && o.internalOrderId.value.Ok? && o.timeConstrains.Some? && o.timeConstrains.value.Ok?
      && o.phones.Some? && o.pa.Some? && o.address.Some? && o.address.value.Ok? && o.mdu.Some? && o.mdu.value.Ok?
      && o.status.Some? && o.status.value.Ok? && o.orderType.Some? && o.orderType.value.Ok? && o.client.Some?
      && o.internalStatus.Some? && o.internalStatus.value.Ok?
  {
  }

  /** An empty list of phones is still a list: it does not reject the order. */
  lemma NoPhonesAccepted(o: Order)
    requires IntoGuaranteed(o).Some?
    ensures IntoGuaranteed(o.(phones := Some([]))) == Some(IntoGuaranteed(o).value.(phones := []))
  {
  }

  /** `Order::inner_text`: the element's text nodes joined with spaces; an empty text counts as none. */
  function InnerText(element: Dom.Node): (r: Option<string>)
    ensures r.Some? <==> Dom.JoinedText(element) != ""
    ensures r.Some? ==> r.value == Dom.JoinedText(element)
  {
    var text := Dom.JoinedText(element);
    if text == "" then None else Some(text)
  }

  /** An element with a single text node has that text, unless it is empty. */
  lemma SingleText(element: Dom.Node, t: string)
    requires Dom.TextNodes(element) == [t]
    ensures InnerText(element) == if t == "" then None else Some(t)
  {
  }

  /** The parsers the fields are read with, passed in so that each stays a black box here. */
  datatype Closures = Closures(
    timeConstrains: (string, string) -> Result<TimeConstrainsData.TimeConstrains, TimeConstrainsData.TimeConstrainsError>,
    address: string -> Result<AddressData.Address, AddressData.AddressError>,
    mdu: string -> Result<MduData.Mdu, MduData.MduError>,
    status: string -> Result<StatusData.Status, StatusData.StatusError>,
    orderType: string -> Result<OrderTypeData.OrderType, OrderTypeData.OrderTypeError>,
    internalStatus: string -> Result<InternalStatusData.InternalStatus, InternalStatusData.InternalStatusError>)

  /** The parsers of the data types, as `from_row_and_fragment` calls them. */
  function Parsers(): (cl: Closures)
    ensures forall f, t :: cl.timeConstrains(f, t) == TimeConstrainsData.FromWorkSchedule(f, t)
    ensures forall text :: cl.address(text) == AddressData.FromWorkSchedule(text)
    ensures forall text :: cl.mdu(text) == MduData.FromWorkSchedule(text)
    ensures forall text :: cl.status(text) == StatusData.FromStr(text)
    ensures forall text :: cl.orderType(text) == OrderTypeData.FromStr(text)
    ensures forall text :: cl.internalStatus(text) == InternalStatusData.FromStr(text)
  {
    Closures(TimeConstrainsData.FromWorkSchedule, AddressData.FromWorkSchedule, MduData.FromWorkSchedule,
             StatusData.FromStr, OrderTypeData.FromStr, InternalStatusData.FromStr)
  }

  /** The prefix of the order id cell. */
  const OrderIdMark := "№ наряда: "

  /** The text of the order index cell with every `.` removed. */
  function IndexText(text: string): (r: string)
    ensures |r| <= |text| && forall k :: 0 <= k < |r| ==> r[k] != '.'
  {
    RemoveChars(text, {'.'})
  }

  /** The order index: `IndexText` as a `u8`. */
  function IndexOf(text: string): (r: Option<Result<nat, IntErrorKinds.SerializableIntErrorKind>>)
    ensures r.Some? && (r.value.Ok? ==> r.value.value < 256)
    ensures r.value.Ok? <==> Numbers.ParseUnsigned(IndexText(text), Numbers.U8Bound).Ok?
  {
    Some(IntErrorKinds.FromStrUnsigned(IndexText(text), Numbers.U8Bound))
  }

  /** The text of the order id cell with every occurrence of its prefix removed. */
  function OrderIdText(text: string): (r: string)
    ensures !Contains(text, OrderIdMark) ==> r == text
  {
    ReplaceAll(text, OrderIdMark, "")
  }

  /** The order id: `OrderIdText` as a `u32`. */
  function OrderIdOf(text: string): (r: Option<Result<nat, IntErrorKinds.SerializableIntErrorKind>>)
    ensures r.Some? && (r.value.Ok? ==> r.value.value < 0x1_0000_0000)
    ensures r.value.Ok? <==> Numbers.ParseUnsigned(OrderIdText(text), Numbers.U32Bound).Ok?
  {
    Some(IntErrorKinds.FromStrUnsigned(OrderIdText(text), Numbers.U32Bound))
  }

  /** The pa: the text as it is. */
  function AsPlain(text: string): (r: Option<string>)
    ensures r.Some? && r.value == text
  {
    Some(text)
  }

  /** The phones: the text split on commas, each piece kept as it is. */
  function PhonesOf(text: string): (r: Option<seq<string>>)
    ensures r.Some? && Join(r.value, ",") == text
    ensures r.Some? && forall k :: 0 <= k < |r.value| ==> ',' !in r.value[k]
  {
    Some(Split(text, ','))
  }

  /** The time window: the second and third `th` of the row, both with text. */
  function WindowOf(ths: seq<Dom.Node>, cl: Closures)
    : (r: Option<Result<TimeConstrainsData.TimeConstrains, TimeConstrainsData.TimeConstrainsError>>)
    ensures r.Some? <==> |ths| >= 3 && InnerText(ths[1]).Some? && InnerText(ths[2]).Some?
    ensures r.Some? ==> r.value == cl.timeConstrains(InnerText(ths[1]).value, InnerText(ths[2]).value)
  {
    if |ths| < 3 then None
    else
      match (InnerText(ths[1]), InnerText(ths[2]))
      case (Some(from), Some(to)) => Some(cl.timeConstrains(from, to))
      case _ => None
  }

  /** A `td` without any attribute. */
  predicate Bare(n: Dom.Node)
  {
    n.Element? && n.attrs == []
  }

  /** `filter(|element| element.value().attrs().count() == 0)`: the bare cells, in order. */
  function BareCells(tds: seq<Dom.Node>): (r: seq<Dom.Node>)
    ensures |r| <= |tds|
    ensures forall k :: 0 <= k < |r| ==> Bare(r[k])
  {
    if tds == [] then []
    else if Bare(tds[0]) then [tds[0]] + BareCells(tds[1..])
    else BareCells(tds[1..])
  }

  /** The filter keeps every bare cell and only those, in order: it distributes over concatenation. */
  lemma {:induction false} BareCellsAppend(a: seq<Dom.Node>, b: seq<Dom.Node>)
    ensures BareCells(a + b) == BareCells(a) + BareCells(b)
    decreases |a|
  {
    if a != [] {
      assert (a + b)[1..] == a[1..] + b;
      BareCellsAppend(a[1..], b);
    } else {
      assert a + b == b;
    }
  }

  /** Cells before `j` that are not bare are skipped over by the filter. */
  lemma {:induction false} BareCellsSkip(tds: seq<Dom.Node>, j: nat)
    requires j <= |tds| && forall k :: 0 <= k < j ==> !Bare(tds[k])
    ensures BareCells(tds) == BareCells(tds[j..])
  {
    if j > 0 {
      assert !Bare(tds[0]);
      BareCellsSkip(tds[1..], j - 1);
      assert tds[1..][j - 1..] == tds[j..];
    }
  }

  /** The client: the first bare `td`, trimmed. */
  function ClientOf(tds: seq<Dom.Node>): (r: Option<string>)
    ensures r.Some? <==> BareCells(tds) != [] && Dom.JoinedText(BareCells(tds)[0]) != ""
    ensures r.Some? ==> r.value == Trim(Dom.JoinedText(BareCells(tds)[0]))
    ensures r.Some? ==> exists k :: 0 <= k < |tds| && Bare(tds[k]) && r.value == Trim(Dom.JoinedText(tds[k]))
  {
    var bare := BareCells(tds);
    if bare == [] then None
    else
      match InnerText(bare[0])
      case None => None
      case Some(client) =>
        BareCellsIn(tds, 0);
        Some(Trim(client))
  }

  /** Each bare cell comes from the cells given. */
  lemma {:induction false} BareCellsIn(tds: seq<Dom.Node>, i: nat)
    requires i < |BareCells(tds)|
    ensures exists k :: 0 <= k < |tds| && tds[k] == BareCells(tds)[i]
  {
    if Bare(tds[0]) {
      if i > 0 {
        BareCellsIn(tds[1..], i - 1);
        var k :| 0 <= k < |tds[1..]| && tds[1..][k] == BareCells(tds[1..])[i - 1];
        assert tds[k + 1] == BareCells(tds)[i];
      } else {
        assert tds[0] == BareCells(tds)[0];
      }
    } else {
      BareCellsIn(tds[1..], i);
      var k :| 0 <= k < |tds[1..]| && tds[1..][k] == BareCells(tds[1..])[i];
      assert tds[k + 1] == BareCells(tds)[i];
    }
  }

  /** The order type: the second bare `td`, parsed. */
  function OrderTypeOf(tds: seq<Dom.Node>, cl: Closures)
    : (r: Option<Result<OrderTypeData.OrderType, OrderTypeData.OrderTypeError>>)
    ensures r.Some? <==> |BareCells(tds)| >= 2 && InnerText(BareCells(tds)[1]).Some?
    ensures r.Some? ==> r.value == cl.orderType(Dom.JoinedText(BareCells(tds)[1]))
  {
    var bare := BareCells(tds);
    if |bare| < 2 then None
    else
      match InnerText(bare[1])
      case None => None
      case Some(text) => Some(cl.orderType(text))
  }

  /** The selector of the phone cell of the `requestrow2` row with the given `rowid`. */
  function PhoneSelector(rowid: string): string
  {
    "table tr td table tr.requestrow2[rowid=\"" + rowid + "\"] > td[rowspan=\"2\"]"
  }

  /**
   * `Order::from_row_and_fragment`: each field read with `selector!` from
   * the row, except the internal order id, which is the row's `rowid`,
   * and the phones, which are looked up in the whole schedule by that id.
   */
  function FromRowAndFragment(row: Dom.Node, fragment: Dom.Node, select: Select, cl: Closures): Order
  {
    var rowid := Dom.AttrValue(row, "rowid");
    Order(
      GetAndText(select, "th", Next, row, InnerText, IndexOf),
      GetAndText(select, "td.td_nocontext", Next, row, InnerText, OrderIdOf),
      if rowid.Some? then Some(IntErrorKinds.FromStrUnsigned(rowid.value, Numbers.U32Bound)) else None,
      SelectArm(select, "th", row, ths => WindowOf(ths, cl)),
      if rowid.Some? then GetAndText(select, PhoneSelector(rowid.value), Next, fragment, InnerText, PhonesOf) else None,
      GetAndText(select, "td.td_nocontext > b", Next, row, InnerText, AsPlain),
      GetAs(select, "a.viewAddrLink", Next, row, InnerText, cl.address),
      GetAs(select, "td span.small", Next, row, InnerText, cl.mdu),
      GetAs(select, "span.networkstatus", Next, row, InnerText, cl.status),
      SelectArm(select, "td", row, tds => OrderTypeOf(tds, cl)),
      SelectArm(select, "td", row, ClientOf),
      GetAs(select, "td", Last, row, InnerText, cl.internalStatus))
  }

  /** The internal order id is the row's `rowid` read as a `u32`, and is missing exactly when the attribute is. */
  lemma InternalOrderIdFromRowid(row: Dom.Node, fragment: Dom.Node, select: Select, cl: Closures)
    ensures FromRowAndFragment(row, fragment, select, cl).internalOrderId.None? <==> Dom.AttrValue(row, "rowid").None?
    ensures Dom.AttrValue(row, "rowid").Some? ==>
      FromRowAndFragment(row, fragment, select, cl).internalOrderId
      == Some(IntErrorKinds.FromStrUnsigned(Dom.AttrValue(row, "rowid").value, Numbers.U32Bound))
  {
  }

  /** Without a `rowid` there is no way to find the phones either. */
  lemma NoRowidNoPhones(row: Dom.Node, fragment: Dom.Node, select: Select, cl: Closures)
    requires Dom.AttrValue(row, "rowid").None?
    ensures FromRowAndFragment(row, fragment, select, cl).phones.None?
  {
  }

  /**
   * The phones are the text of the first cell the phone selector finds in
   * the schedule, cut at every comma and not trimmed: joining them with
   * commas gives the text back.
   */
  lemma PhonesSplit(row: Dom.Node, fragment: Dom.Node, select: Select, cl: Closures)
    requires Dom.AttrValue(row, "rowid").Some?
    requires Picked(select, PhoneSelector(Dom.AttrValue(row, "rowid").value), Next, fragment).Some?
    requires InnerText(Picked(select, PhoneSelector(Dom.AttrValue(row, "rowid").value), Next, fragment).value).Some?
    ensures var o := FromRowAndFragment(row, fragment, select, cl);
      o.phones.Some?
      && Join(o.phones.value, ",")
         == Dom.JoinedText(Picked(select, PhoneSelector(Dom.AttrValue(row, "rowid").value), Next, fragment).value)
  {
  }

  /**
   * The time window comes from the second and third `th` of the row; a
   * row with fewer, or with either of them empty, has no window.
   */
  lemma TimeWindow(row: Dom.Node, fragment: Dom.Node, select: Select, cl: Closures)
    requires select("th", row).Some?
    ensures var ths := select("th", row).value;
      FromRowAndFragment(row, fragment, select, cl).timeConstrains.Some?
      <==> |ths| >= 3 && Dom.JoinedText(ths[1]) != "" && Dom.JoinedText(ths[2]) != ""
    ensures var ths := select("th", row).value;
      FromRowAndFragment(row, fragment, select, cl).timeConstrains.Some? ==>
      FromRowAndFragment(row, fragment, select, cl).timeConstrains.value
      == cl.timeConstrains(Dom.JoinedText(ths[1]), Dom.JoinedText(ths[2]))
  {
  }

  /** The first two bare cells are the first bare cell and the next one after it. */
  lemma FirstTwoBare(tds: seq<Dom.Node>, j: nat, m: nat)
    requires j < m < |tds| && Bare(tds[j]) && Bare(tds[m])
    requires (forall k :: 0 <= k < j ==> !Bare(tds[k])) && (forall k :: j < k < m ==> !Bare(tds[k]))
    ensures |BareCells(tds)| >= 2 && BareCells(tds)[0] == tds[j] && BareCells(tds)[1] == tds[m]
  {
    BareCellsSkip(tds, j);
    var after := tds[j + 1..];
    assert tds[j..] == [tds[j]] + after;
    assert BareCells(tds) == [tds[j]] + BareCells(after);
    BareCellsSkip(after, m - j - 1);
    assert after[m - j - 1..] == [tds[m]] + after[m - j..];
    assert BareCells(after)[0] == tds[m];
  }

  /**
   * The client is the first `td` without attributes, trimmed, and the
   * order type the next one: cells with attributes before them are passed
   * over.
   */
  lemma ClientAndOrderType(row: Dom.Node, fragment: Dom.Node, select: Select, cl: Closures, j: nat, m: nat)
    requires select("td", row).Some?
    requires var tds := select("td", row).value;
      j < m < |tds| && Bare(tds[j]) && Bare(tds[m])
      && (forall k :: 0 <= k < j ==> !Bare(tds[k])) && (forall k :: j < k < m ==> !Bare(tds[k]))
      && Dom.JoinedText(tds[j]) != "" && Dom.JoinedText(tds[m]) != ""
    ensures var tds := select("td", row).value;
      var o := FromRowAndFragment(row, fragment, select, cl);
      o.client == Some(Trim(Dom.JoinedText(tds[j]))) && o.orderType == Some(cl.orderType(Dom.JoinedText(tds[m])))
  {
    BareClientAndOrderType(select("td", row).value, cl, j, m);
  }

  /** The client and the order type read from the cells themselves. */
  lemma BareClientAndOrderType(tds: seq<Dom.Node>, cl: Closures, j: nat, m: nat)
    requires j < m < |tds| && Bare(tds[j]) && Bare(tds[m])
    requires (forall k :: 0 <= k < j ==> !Bare(tds[k])) && (forall k :: j < k < m ==> !Bare(tds[k]))
    requires Dom.JoinedText(tds[j]) != "" && Dom.JoinedText(tds[m]) != ""
    ensures ClientOf(tds) == Some(Trim(Dom.JoinedText(tds[j])))
    ensures OrderTypeOf(tds, cl) == Some(cl.orderType(Dom.JoinedText(tds[m])))
  {
    FirstTwoBare(tds, j, m);
  }

  /**
   * The order index is the first `th`'s text read as a `u8` once its dots
   * are gone: digits without dots over 255 are kept as `PosOverflow`.
   */
  lemma OrderIndexOverflow(row: Dom.Node, fragment: Dom.Node, select: Select, cl: Closures)
    requires Picked(select, "th", Next, row).Some?
    requires var text := Dom.JoinedText(Picked(select, "th", Next, row).value);
      text != [] && Numbers.AllAsciiDigits(text) && Numbers.DecimalValue(0, text) >= Numbers.U8Bound
    ensures FromRowAndFragment(row, fragment, select, cl).orderIndex == Some(Err(IntErrorKinds.PosOverflow))
  {
    var text := Dom.JoinedText(Picked(select, "th", Next, row).value);
    RemoveCharsKeepsOthers(text, {'.'});
    assert IndexText(text) == text;
    IntErrorKinds.TooLargeText(text, Numbers.U8Bound);
  }

  /** Dots in the order index are dropped wherever they stand, and the rest is kept in order. */
  lemma OrderIndexDots(before: string, after: string)
    requires forall k :: 0 <= k < |before| ==> before[k] != '.'
    requires forall k :: 0 <= k < |after| ==> after[k] != '.'
    ensures IndexText(before + "." + after) == before + after
  {
    RemoveCharsAppend(before + ".", after, {'.'});
    RemoveCharsAppend(before, ".", {'.'});
    RemoveCharsKeepsOthers(before, {'.'});
    RemoveCharsKeepsOthers(after, {'.'});
    assert RemoveChars(".", {'.'}) == [];
    assert RemoveChars(before + ".", {'.'}) == before;
  }

  /** The order id cell's prefix is dropped before the number is read, leaving the digits. */
  lemma OrderIdPrefix(digits: string)
    requires Numbers.AllAsciiDigits(digits)
    ensures OrderIdText(OrderIdMark + digits) == digits
  {
    var s := OrderIdMark + digits;
    assert s[..|OrderIdMark|] == OrderIdMark;
    assert s[|OrderIdMark|..] == digits;
    assert OrderIdMark[0] == '№';
    MissingCharNotContained(digits, OrderIdMark, 0);
    assert ReplaceAll(s, OrderIdMark, "") == "" + ReplaceAll(digits, OrderIdMark, "");
  }
}
