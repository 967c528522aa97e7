/**
 * `ViewRequest`: the full card of a request, filled in by one pass over
 * the document's leaves, like the brief card. Two things differ from the
 * brief scan: an `h3` heading that carries the request number sets the
 * internal id before any label is tried, and after the pass the rows of
 * the history table are read into comments. The address is assembled
 * last, from the three pieces kept aside while scanning.
 */
module ViewRequestParser {
  import opened Base
  import opened Strings
  import opened Dom
  import opened Leaves
  import opened Macros
  import opened IsItTrait
  import Chrono
  import IntErrorKinds
  import ParseErrorKinds
  import Numbers
  import AddressData
  import FullCommentData
  import InternalStatusData
  import OrderTypeData
  import StatusData
  import TimeConstrainsData

  /**
   * What the parser takes from libraries: HTML entity decoding, the
   * `%Y-%m-%d %H:%M:%S` date-time parse in Kyiv time, the `%d.%m.%Y`
   * date parse, and the history rows the comment selector picks out of
   * the document.
   */
  datatype Env = Env(
    decode: string -> string,
    parseDateTime: string -> Result<Chrono.DateTime, Chrono.ParseError>,
    parseDate: string -> Result<Chrono.NaiveDate, Chrono.ParseError>,
    historyRows: Node -> seq<Node>)

  /** The closures of the scan: the value parsers of the labels and the history row reader. */
  datatype Closures = Closures(
    number: string -> Result<nat, IntErrorKinds.SerializableIntErrorKind>,
    orderType: string -> Result<OrderTypeData.OrderType, OrderTypeData.OrderTypeError>,
    dateTime: string -> Result<Chrono.DateTime, ParseErrorKinds.SerializableParseErrorKind>,
    internalStatus: string -> Result<InternalStatusData.InternalStatus, InternalStatusData.InternalStatusError>,
    timeConstrains: string -> Result<TimeConstrainsData.TimeConstrains, TimeConstrainsData.TimeConstrainsError>,
    status: string -> Result<StatusData.Status, StatusData.StatusError>,
    date: string -> Result<Chrono.NaiveDate, ParseErrorKinds.SerializableParseErrorKind>,
    historyRow: Node -> Outcome<Result<FullCommentData.FullComment, FullCommentData.FullCommentError>>)

  /** The fields of a view request, as a value. */
  datatype View = View(
    orderId: Option<Result<nat, IntErrorKinds.SerializableIntErrorKind>>,
    internalOrderId: Option<Result<nat, IntErrorKinds.SerializableIntErrorKind>>,
    orderType: Option<Result<OrderTypeData.OrderType, OrderTypeData.OrderTypeError>>,
    creationDate: Option<Result<Chrono.DateTime, ParseErrorKinds.SerializableParseErrorKind>>,
    internalStatus: Option<Result<InternalStatusData.InternalStatus, InternalStatusData.InternalStatusError>>,
    address: Option<AddressData.Address>,
    client: Option<string>,
    service: Option<string>,
    pa: Option<string>,
    seller: Option<string>,
    timeConstrains: Option<Result<TimeConstrainsData.TimeConstrains, TimeConstrainsData.TimeConstrainsError>>,
    installers: seq<string>,
    status: Option<Result<StatusData.Status, StatusData.StatusError>>,
    phones: seq<string>,
    assignedFor: Option<Result<Chrono.NaiveDate, ParseErrorKinds.SerializableParseErrorKind>>,
    comments: seq<Result<FullCommentData.FullComment, FullCommentData.FullCommentError>>)

  /** `ViewRequest::default()`. */
  const Empty: View := View(None, None, None, None, None, None, None, None, None, None, None, [], None, [], None, [])

  /** The three address pieces the scan keeps in locals until the end. */
  datatype Pending = Pending(city: Option<string>, addressLine: Option<string>, apartment: Option<string>)

  const NothingPending: Pending := Pending(None, None, None)

  /** The request and the pending address pieces between two leaves. */
  datatype State = State(view: View, pending: Pending)

  /** What a leaf sets: the heading sets the internal id, the labels the rest. */
  datatype Field =
    | InternalOrderIdField | OrderIdField | OrderTypeField | CreationDateField | InternalStatusField
    | CityField | AddressLineField | ApartmentField | ClientField | ServiceField | PhonesField
    | PaField | SellerField | TimeConstrainsField | InstallersField | StatusField | AssignedForField

  /** The `match_and_set!` invocations of the scan, in the order they are written. */
  const Table: seq<Entry<Field>> := [
    Entry("наряд:", OrderIdField),
    Entry("подтип:", OrderTypeField),
    Entry("дата создания:", CreationDateField),
    Entry("статус:", InternalStatusField),
    Entry("город:", CityField),
    Entry("адрес:", AddressLineField),
    Entry("квартира:", ApartmentField),
    Entry("клиент:", ClientField),
    Entry("пакет:", ServiceField),
    Entry("телефон:", PhonesField),
    Entry("телефон 2:", PhonesField),
    Entry("лицевой счет:", PaField),
    Entry("телефон продавца:", SellerField),
    Entry("время подключения:", TimeConstrainsField),
    Entry("монтажник:", InstallersField),
    Entry("монтажник 2:", InstallersField),
    Entry("статус у заказчика:", StatusField),
    Entry("дата подключения:", AssignedForField)
  ]

  /** The words before the request number in the page heading. */
  const IdMark: string := "Заявка №"

  /** A heading leaf that names the request: an `h3` whose joined text contains the mark. */
  function IsHeader(leaf: Leaf): (r: bool)
    ensures r ==> leaf.node.Element? && leaf.node.tag == "h3" && |IdMark| <= |JoinedText(leaf.node)|
  {
    leaf.node.Element? && leaf.node.tag == "h3" && Contains(JoinedText(leaf.node), IdMark)
  }

  /** The heading's text with every occurrence of the mark removed: what is parsed as the id. */
  function IdText(text: string): (r: string)
    ensures !Contains(text, IdMark) ==> r == text
  {
    ReplaceAll(text, IdMark, "")
  }

  /**
   * A heading reading "Заявка №" and the digits, possibly after other words,
   * leaves those words and the digits once the mark is removed.
   */
  lemma IdTextOfHeading(before: string, digits: string)
    requires forall i :: 0 <= i < |before| ==> before[i] != IdMark[0]
    requires Numbers.AllAsciiDigits(digits)
    ensures IdText(before + IdMark + digits) == before + digits
  {
    assert before + IdMark + digits == before + (IdMark + digits);
    ReplaceAllSkipsHead(before, IdMark + digits, IdMark, "");
    ReplaceAllAtHead(IdMark, digits, "");
    assert IdMark[7] == '№';
    MissingCharNotContained(digits, IdMark, 7);
  }

  /** The bare heading "Заявка №" and digits leaves the digits. */
  lemma IdTextOfBareHeading(digits: string)
    requires Numbers.AllAsciiDigits(digits)
    ensures IdText(IdMark + digits) == digits
  {
    IdTextOfHeading("", digits);
    assert "" + IdMark + digits == IdMark + digits;
  }

  /** `as_datetime`: the date-time parse, its error reduced to the serialisable kind. */
  function AsDateTime(text: string, env: Env): (r: Result<Chrono.DateTime, ParseErrorKinds.SerializableParseErrorKind>)
    ensures r.Ok? <==> env.parseDateTime(text).Ok?
    ensures r.Ok? ==> r.value == env.parseDateTime(text).value
    ensures r.Err? ==> r.error == ParseErrorKinds.FromKind(env.parseDateTime(text).error.kind)
  {
    match env.parseDateTime(text)
    case Ok(dt) => Ok(dt)
    case Err(e) => Err(ParseErrorKinds.FromKind(e.kind))
  }

  /** The `%d.%m.%Y` parse of the assigned date, its error reduced to the serialisable kind. */
  function AsDate(text: string, env: Env): (r: Result<Chrono.NaiveDate, ParseErrorKinds.SerializableParseErrorKind>)
    ensures r.Ok? <==> env.parseDate(text).Ok?
    ensures r.Ok? ==> r.value == env.parseDate(text).value
    ensures r.Err? ==> r.error == ParseErrorKinds.FromKind(env.parseDate(text).error.kind)
  {
    match env.parseDate(text)
    case Ok(d) => Ok(d)
    case Err(e) => Err(ParseErrorKinds.FromKind(e.kind))
  }

  /** The closures the scan is written with. */
  function Parsers(env: Env): (cl: Closures)
    ensures forall text :: cl.number(text) == IntErrorKinds.FromStrUnsigned(text, Numbers.U32Bound)
    ensures forall text :: cl.dateTime(text) == AsDateTime(text, env)
    ensures forall text :: cl.date(text) == AsDate(text, env)
    ensures forall row :: cl.historyRow(row) == FullCommentData.From(row, env.decode, env.parseDateTime)
  {
    Closures(text => IntErrorKinds.FromStrUnsigned(text, Numbers.U32Bound), OrderTypeData.FromStr,
             text => AsDateTime(text, env), InternalStatusData.FromStr, TimeConstrainsData.From, StatusData.FromStr,
             text => AsDate(text, env), row => FullCommentData.From(row, env.decode, env.parseDateTime))
  }

  /**
   * What a leaf sends to `field` with the text `text` does to the state:
   * that field is assigned or appended to, the others are kept.
   */
  function Apply(st: State, field: Field, text: string, cl: Closures): State
  {
    var v := st.view;
    var p := st.pending;
    State(
      View(
        if field.OrderIdField? then Some(cl.number(text)) else v.orderId,
        if field.InternalOrderIdField? then Some(cl.number(text)) else v.internalOrderId,
        if field.OrderTypeField? then Some(cl.orderType(text)) else v.orderType,
        if field.CreationDateField? then Some(cl.dateTime(text)) else v.creationDate,
        if field.InternalStatusField? then Some(cl.internalStatus(text)) else v.internalStatus,
        v.address,
        if field.ClientField? then Some(Trim(text)) else v.client,
        if field.ServiceField? then (if text == "" then None else Some(text)) else v.service,
        if field.PaField? then Some(text) else v.pa,
        if field.SellerField? then Some(text) else v.seller,
        if field.TimeConstrainsField? then Some(cl.timeConstrains(text)) else v.timeConstrains,
        if field.InstallersField? then v.installers + [text] else v.installers,
        if field.StatusField? then Some(cl.status(text)) else v.status,
        if field.PhonesField? then v.phones + [text] else v.phones,
        if field.AssignedForField? then Some(cl.date(text)) else v.assignedFor,
        v.comments),
      Pending(
        if field.CityField? then Some(text) else p.city,
        if field.AddressLineField? then Some(text) else p.addressLine,
        if field.ApartmentField? then Some(text) else p.apartment))
  }

  /** One pass of the loop body over `leaf`: the heading check, then the label table `table`. */
  function Step(st: State, leaf: Leaf, table: seq<Entry<Field>>, cl: Closures): State
  {
    if IsHeader(leaf) then Apply(st, InternalOrderIdField, IdText(JoinedText(leaf.node)), cl)
    else
      match FirstMatch(table, leaf, JoinedText)
      case None => st
      case Some(m) => Apply(st, m.field, m.text, cl)
  }

  /** The loop over `leaves`, from `st`. */
  function Scan(st: State, leaves: seq<Leaf>, table: seq<Entry<Field>>, cl: Closures): State
    decreases |leaves|
  {
    if leaves == [] then st else Step(Scan(st, leaves[..|leaves| - 1], table, cl), leaves[|leaves| - 1], table, cl)
  }

  /**
   * `set_comments`: every history row read in order; the first row whose
   * reading panics ends the reading with that panic.
   */
  function Comments(rows: seq<Node>, cl: Closures)
    : (r: Outcome<seq<Result<FullCommentData.FullComment, FullCommentData.FullCommentError>>>)
    ensures r.Done? <==> forall k :: 0 <= k < |rows| ==> cl.historyRow(rows[k]).Done?
    ensures r.Done? ==> |r.value| == |rows| && forall k :: 0 <= k < |rows| ==> r.value[k] == cl.historyRow(rows[k]).value
    ensures r.Panic? ==>
      exists k :: 0 <= k < |rows| && cl.historyRow(rows[k]) == Panic(r.message)
                  && forall i :: 0 <= i < k ==> cl.historyRow(rows[i]).Done?
    decreases |rows|
  {
    if rows == [] then Done([])
    else
      match cl.historyRow(rows[0])
      case Panic(msg) => Panic(msg)
      case Done(c) =>
        match Comments(rows[1..], cl)
        case Panic(msg) =>
          var k :| 0 <= k < |rows[1..]| && cl.historyRow(rows[1..][k]) == Panic(msg)
                   && forall i :: 0 <= i < k ==> cl.historyRow(rows[1..][i]).Done?;
          assert cl.historyRow(rows[k + 1]) == Panic(msg);
          Panic(msg)
        case Done(cs) => Done([c] + cs)
  }

  /** The address assembly: set when all three pieces were found, otherwise the request is left as it is. */
  function Place(v: View, pending: Pending): (r: Outcome<View>)
    ensures !(pending.city.Some? && pending.addressLine.Some? && pending.apartment.Some?) ==> r == Done(v)
    ensures pending.city.Some? && pending.addressLine.Some? && pending.apartment.Some? ==>
      match AddressData.FromLine(pending.city.value, pending.addressLine.value, pending.apartment.value)
      case Panic(msg) => r == Panic(msg)
      case Done(a) => r == Done(v.(address := Some(a)))
  {
    match pending
    case Pending(Some(city), Some(line), Some(apartment)) =>
      (match AddressData.FromLine(city, line, apartment)
       case Panic(msg) => Panic(msg)
       case Done(a) => Done(v.(address := Some(a))))
    case _ => Done(v)
  }

  /** After the loop: the comments are read, then the address is placed; either step may panic. */
  function Finish(st: State, rows: seq<Node>, cl: Closures): Outcome<View>
  {
    match Comments(rows, cl)
    case Panic(msg) => Panic(msg)
    case Done(cs) => Place(st.view.(comments := cs), st.pending)
  }

  /** `collect_fragments` from the request `v` over `leaves` and the history rows `rows`. */
  function Collect(v: View, leaves: seq<Leaf>, rows: seq<Node>, cl: Closures): Outcome<View>
  {
    Finish(Scan(State(v, NothingPending), leaves, Table, cl), rows, cl)
  }

  /** `ViewRequest::from`: a default request filled from the leaves and the history rows of the document. */
  function From(root: Node, env: Env): Outcome<View>
  {
    Collect(Empty, DocumentLeaves(root), env.historyRows(root), Parsers(env))
  }

  /** The field `field` reset to nothing: the request as it is apart from that one field. */
  function Without(st: State, field: Field): State
  {
    var v := st.view;
    var p := st.pending;
    match field
    case InternalOrderIdField => State(v.(internalOrderId := None), p)
    case OrderIdField => State(v.(orderId := None), p)
    case OrderTypeField => State(v.(orderType := None), p)
    case CreationDateField => State(v.(creationDate := None), p)
    case InternalStatusField => State(v.(internalStatus := None), p)
    case CityField => State(v, p.(city := None))
    case AddressLineField => State(v, p.(addressLine := None))
    case ApartmentField => State(v, p.(apartment := None))
    case ClientField => State(v.(client := None), p)
    case ServiceField => State(v.(service := None), p)
    case PhonesField => State(v.(phones := []), p)
    case PaField => State(v.(pa := None), p)
    case SellerField => State(v.(seller := None), p)
    case TimeConstrainsField => State(v.(timeConstrains := None), p)
    case InstallersField => State(v.(installers := []), p)
    case StatusField => State(v.(status := None), p)
    case AssignedForField => State(v.(assignedFor := None), p)
  }

  /** What a leaf sets touches its own field and nothing else. */
  lemma ApplyTouchesOneField(st: State, field: Field, text: string, cl: Closures)
    ensures Without(Apply(st, field, text, cl), field) == Without(st, field)
  {
  }

  /** A heading is neither a `td` nor an `a`, so no label ever names it. */
  lemma HeaderNotLabelled(leaf: Leaf, table: seq<Entry<Field>>)
    requires IsHeader(leaf)
    ensures FirstMatch(table, leaf, JoinedText).None?
  {
    forall j | 0 <= j < |table| ensures IsIt(table[j].labelText, leaf, JoinedText).None? {
      assert leaf.node.tag != "td" && leaf.node.tag != "a";
    }
  }

  /**
   * One leaf sets at most one field: the internal id for a heading that
   * names the request, otherwise the field of the first label that names
   * the leaf, or none.
   */
  lemma StepSetsAtMostOneField(st: State, leaf: Leaf, table: seq<Entry<Field>>, cl: Closures)
    ensures IsHeader(leaf) ==>
      Without(Step(st, leaf, table, cl), InternalOrderIdField) == Without(st, InternalOrderIdField)
      && Step(st, leaf, table, cl).view.internalOrderId == Some(cl.number(IdText(JoinedText(leaf.node))))
    ensures !IsHeader(leaf) && FirstMatch(table, leaf, JoinedText).None? ==> Step(st, leaf, table, cl) == st
    ensures !IsHeader(leaf) && FirstMatch(table, leaf, JoinedText).Some? ==>
      var m := FirstMatch(table, leaf, JoinedText).value;
      Without(Step(st, leaf, table, cl), m.field) == Without(st, m.field)
      && Step(st, leaf, table, cl) == Apply(st, m.field, IsIt(table[m.index].labelText, leaf, JoinedText).value, cl)
  {
    if IsHeader(leaf) {
      ApplyTouchesOneField(st, InternalOrderIdField, IdText(JoinedText(leaf.node)), cl);
    } else if FirstMatch(table, leaf, JoinedText).Some? {
      var m := FirstMatch(table, leaf, JoinedText).value;
      ApplyTouchesOneField(st, m.field, m.text, cl);
    }
  }

  /** An `h3` heading without the mark is not a heading that names the request: it goes through the table like any leaf. */
  lemma PlainHeading(st: State, leaf: Leaf, table: seq<Entry<Field>>, cl: Closures)
    requires leaf.node.Element? && leaf.node.tag == "h3" && !Contains(JoinedText(leaf.node), IdMark)
    ensures Step(st, leaf, table, cl) == st
  {
    forall j | 0 <= j < |table| ensures IsIt(table[j].labelText, leaf, JoinedText).None? {
      assert leaf.node.tag != "td" && leaf.node.tag != "a";
    }
  }

  /**
   * A leaf under one of the table's labels goes to that label's field,
   * with the leaf's joined text, when no earlier label is the same.
   */
  lemma LabelledLeaf(st: State, leaf: Leaf, j: nat, cl: Closures)
    requires j < |Table| && IsIt(Table[j].labelText, leaf, JoinedText).Some?
    requires forall i :: 0 <= i < j ==> Table[i].labelText != Table[j].labelText
    ensures Step(st, leaf, Table, cl) == Apply(st, Table[j].field, JoinedText(leaf.node), cl)
  {
    FirstLabelFires(Table, leaf, JoinedText, j);
  }

  /** An assigned date that does not parse as `%d.%m.%Y` is kept as the error's kind; the scan goes on. */
  lemma UnreadableAssignedFor(st: State, leaf: Leaf, env: Env)
    requires IsIt("дата подключения:", leaf, JoinedText).Some?
    requires env.parseDate(JoinedText(leaf.node)).Err?
    ensures Step(st, leaf, Table, Parsers(env)).view.assignedFor
         == Some(Err(ParseErrorKinds.FromKind(env.parseDate(JoinedText(leaf.node)).error.kind)))
  {
    assert Table[17].labelText == "дата подключения:";
    LabelledLeaf(st, leaf, 17, Parsers(env));
  }

  /** An empty package cell clears the service instead of storing an empty name. */
  lemma EmptyService(st: State, leaf: Leaf, cl: Closures)
    requires IsIt("пакет:", leaf, JoinedText) == Some("")
    ensures Step(st, leaf, Table, cl).view.service == None
  {
    assert Table[8].labelText == "пакет:";
    LabelledLeaf(st, leaf, 8, cl);
  }

  /** Phones are only appended to: the untrimmed texts of the phone cells, in document order. */
  lemma {:induction false} ScanPhones(st: State, leaves: seq<Leaf>, table: seq<Entry<Field>>, cl: Closures)
    ensures Scan(st, leaves, table, cl).view.phones == st.view.phones + LabelledTexts(leaves, table, PhonesField)
    decreases |leaves|
  {
    if leaves != [] {
      var init, last := leaves[..|leaves| - 1], leaves[|leaves| - 1];
      ScanPhones(st, init, table, cl);
      LabelledStep(leaves, table, PhonesField);
      var prev := Scan(st, init, table, cl);
      assert Scan(st, leaves, table, cl) == Step(prev, last, table, cl);
      var m := FirstMatch(table, last, JoinedText);
      if IsHeader(last) {
        HeaderNotLabelled(last, table);
        assert Step(prev, last, table, cl).view.phones == prev.view.phones;
      } else if m.Some? && m.value.field == PhonesField {
        assert Step(prev, last, table, cl).view.phones == prev.view.phones + [m.value.text];
      } else {
        assert Step(prev, last, table, cl).view.phones == prev.view.phones;
      }
    }
  }

  /** Installers are only appended to: the texts of the installer cells, in document order. */
  lemma {:induction false} ScanInstallers(st: State, leaves: seq<Leaf>, table: seq<Entry<Field>>, cl: Closures)
    ensures Scan(st, leaves, table, cl).view.installers == st.view.installers + LabelledTexts(leaves, table, InstallersField)
    decreases |leaves|
  {
    if leaves != [] {
      var init, last := leaves[..|leaves| - 1], leaves[|leaves| - 1];
      ScanInstallers(st, init, table, cl);
      LabelledStep(leaves, table, InstallersField);
      var prev := Scan(st, init, table, cl);
      assert Scan(st, leaves, table, cl) == Step(prev, last, table, cl);
      var m := FirstMatch(table, last, JoinedText);
      if IsHeader(last) {
        HeaderNotLabelled(last, table);
        assert Step(prev, last, table, cl).view.installers == prev.view.installers;
      } else if m.Some? && m.value.field == InstallersField {
        assert Step(prev, last, table, cl).view.installers == prev.view.installers + [m.value.text];
      } else {
        assert Step(prev, last, table, cl).view.installers == prev.view.installers;
      }
    }
  }

  /** Each address piece is the text of the last cell labelled with it. */
  lemma {:induction false} ScanPending(st: State, leaves: seq<Leaf>, table: seq<Entry<Field>>, cl: Closures)
    ensures Scan(st, leaves, table, cl).pending.city
         == if LastText(leaves, table, CityField).None? then st.pending.city else LastText(leaves, table, CityField)
    ensures Scan(st, leaves, table, cl).pending.addressLine
         == if LastText(leaves, table, AddressLineField).None? then st.pending.addressLine else LastText(leaves, table, AddressLineField)
    ensures Scan(st, leaves, table, cl).pending.apartment
         == if LastText(leaves, table, ApartmentField).None? then st.pending.apartment else LastText(leaves, table, ApartmentField)
    decreases |leaves|
  {
    if leaves != [] {
      var init, last := leaves[..|leaves| - 1], leaves[|leaves| - 1];
      ScanPending(st, init, table, cl);
      LastTextStep(leaves, table, CityField);
      LastTextStep(leaves, table, AddressLineField);
      LastTextStep(leaves, table, ApartmentField);
      var prev := Scan(st, init, table, cl);
      assert Scan(st, leaves, table, cl) == Step(prev, last, table, cl);
      var m := FirstMatch(table, last, JoinedText);
      if IsHeader(last) {
        HeaderNotLabelled(last, table);
        assert Step(prev, last, table, cl).pending == prev.pending;
      } else if m.Some? {
        assert Step(prev, last, table, cl).pending == Apply(prev, m.value.field, m.value.text, cl).pending;
      } else {
        assert Step(prev, last, table, cl).pending == prev.pending;
      }
    }
  }

  /**
   * After the scan, a panic while reading the history wins; otherwise the
   * address is set exactly when a city, an address line and an apartment
   * were all found, from the last of each, with the same comma rule as the
   * brief card.
   */
  lemma CollectAddress(v: View, leaves: seq<Leaf>, rows: seq<Node>, cl: Closures)
    ensures var city, line, apartment := LastText(leaves, Table, CityField), LastText(leaves, Table, AddressLineField),
                                         LastText(leaves, Table, ApartmentField);
      var scanned := Scan(State(v, NothingPending), leaves, Table, cl).view;
      Collect(v, leaves, rows, cl)
      == if Comments(rows, cl).Panic? then Panic(Comments(rows, cl).message)
         else if city.Some? && line.Some? && apartment.Some? then
           match AddressData.FromLine(city.value, line.value, apartment.value)
           case Panic(msg) => Panic(msg)
           case Done(a) => Done(scanned.(comments := Comments(rows, cl).value, address := Some(a)))
         else Done(scanned.(comments := Comments(rows, cl).value))
  {
    ScanPending(State(v, NothingPending), leaves, Table, cl);
  }

  /** A view request under construction; its fields are set in place by the scan. */
  class ViewRequest {
    var orderId: Option<Result<nat, IntErrorKinds.SerializableIntErrorKind>>
    var internalOrderId: Option<Result<nat, IntErrorKinds.SerializableIntErrorKind>>
    var orderType: Option<Result<OrderTypeData.OrderType, OrderTypeData.OrderTypeError>>
    var creationDate: Option<Result<Chrono.DateTime, ParseErrorKinds.SerializableParseErrorKind>>
    var internalStatus: Option<Result<InternalStatusData.InternalStatus, InternalStatusData.InternalStatusError>>
    var address: Option<AddressData.Address>
    var client: Option<string>
    var service: Option<string>
    var pa: Option<string>
    var seller: Option<string>
    var timeConstrains: Option<Result<TimeConstrainsData.TimeConstrains, TimeConstrainsData.TimeConstrainsError>>
    var installers: seq<string>
    var status: Option<Result<StatusData.Status, StatusData.StatusError>>
    var phones: seq<string>
    var assignedFor: Option<Result<Chrono.NaiveDate, ParseErrorKinds.SerializableParseErrorKind>>
    var comments: seq<Result<FullCommentData.FullComment, FullCommentData.FullCommentError>>

    function Value(): View
      reads this
    {
      View(orderId, internalOrderId, orderType, creationDate, internalStatus, address, client, service, pa, seller,
           timeConstrains, installers, status, phones, assignedFor, comments)
    }

    /** `ViewRequest::default()`. */
    constructor ()
      ensures Value() == Empty
    {
      orderId, internalOrderId, orderType, creationDate, internalStatus := None, None, None, None, None;
      address, client, service, pa, seller := None, None, None, None, None;
      timeConstrains, installers, status, phones, assignedFor, comments := None, [], None, [], None, [];
    }

    /** The first arm of `match_and_set!` for an identifying field, and the heading: the field is assigned the closure's value. */
    method AssignIdentity(field: Field, text: string, cl: Closures)
      requires field.InternalOrderIdField? || field.OrderIdField? || field.OrderTypeField? || field.CreationDateField?
      modifies this
      ensures State(Value(), NothingPending) == Apply(State(old(Value()), NothingPending), field, text, cl)
    {
      if field.InternalOrderIdField? {
        internalOrderId := Some(cl.number(text));
      } else if field.OrderIdField? {
        orderId := Some(cl.number(text));
      } else if field.OrderTypeField? {
        orderType := Some(cl.orderType(text));
      } else {
        creationDate := Some(cl.dateTime(text));
      }
    }

    /** The first arm of `match_and_set!` for a field of the request's progress: the field is assigned the closure's value. */
    method AssignProgress(field: Field, text: string, cl: Closures)
      requires field.InternalStatusField? || field.TimeConstrainsField? || field.StatusField? || field.AssignedForField?
      modifies this
      ensures State(Value(), NothingPending) == Apply(State(old(Value()), NothingPending), field, text, cl)
    {
      if field.InternalStatusField? {
        internalStatus := Some(cl.internalStatus(text));
      } else if field.TimeConstrainsField? {
        timeConstrains := Some(cl.timeConstrains(text));
      } else if field.StatusField? {
        status := Some(cl.status(text));
      } else {
        assignedFor := Some(cl.date(text));
      }
    }

    /** The first arm of `match_and_set!` for a text field: the field is assigned the text, trimmed or dropped when empty where the closure says so. */
    method AssignText(field: Field, text: string, cl: Closures)
      requires field.ClientField? || field.ServiceField? || field.PaField? || field.SellerField?
      modifies this
      ensures State(Value(), NothingPending) == Apply(State(old(Value()), NothingPending), field, text, cl)
    {
      if field.ClientField? {
        client := Some(Trim(text));
      } else if field.ServiceField? {
        service := if text == "" then None else Some(text);
      } else if field.PaField? {
        pa := Some(text);
      } else {
        seller := Some(text);
      }
    }

    /** The third arm of `match_and_set!`: the closure pushes the text onto a list of the request. */
    method Push(field: Field, text: string, cl: Closures)
      requires field.PhonesField? || field.InstallersField?
      modifies this
      ensures State(Value(), NothingPending) == Apply(State(old(Value()), NothingPending), field, text, cl)
    {
      if field.PhonesField? {
        phones := phones + [text];
      } else {
        installers := installers + [text];
      }
    }

    /** One pass of the loop body: the heading check, then the first label that names the leaf, if any. */
    method Absorb(leaf: Leaf, table: seq<Entry<Field>>, cl: Closures, pending: Pending) returns (next: Pending)
      modifies this
      ensures State(Value(), next) == Step(State(old(Value()), pending), leaf, table, cl)
    {
      next := pending;
      if leaf.node.Element? && leaf.node.tag == "h3" {
        var text := JoinedText(leaf.node);
        if Contains(text, IdMark) {
          AssignIdentity(InternalOrderIdField, IdText(text), cl);
          return;
        }
      }
      var found := FirstMatch(table, leaf, JoinedText);
      if found.Some? {
        var field, text := found.value.field, found.value.text;
        if field.CityField? {
          next := pending.(city := Some(text));
        } else if field.AddressLineField? {
          next := pending.(addressLine := Some(text));
        } else if field.ApartmentField? {
          next := pending.(apartment := Some(text));
        } else if field.PhonesField? || field.InstallersField? {
          Push(field, text, cl);
        } else if field.ClientField? || field.ServiceField? || field.PaField? || field.SellerField? {
          AssignText(field, text, cl);
        } else if field.InternalStatusField? || field.TimeConstrainsField? || field.StatusField? || field.AssignedForField? {
          AssignProgress(field, text, cl);
        } else {
          AssignIdentity(field, text, cl);
        }
      }
    }

    /** The loop of `collect_fragments`: every leaf offered to the heading check and the label table in turn. */
    method ScanLeaves(leaves: seq<Leaf>, table: seq<Entry<Field>>, cl: Closures) returns (pending: Pending)
      modifies this
      ensures State(Value(), pending) == Scan(State(old(Value()), NothingPending), leaves, table, cl)
    {
      pending := NothingPending;
      var i := 0;
      while i < |leaves|
        invariant i <= |leaves|
        invariant Scan(State(old(Value()), NothingPending), leaves[..i], table, cl) == State(Value(), pending)
      {
        assert leaves[..i + 1][..i] == leaves[..i];
        pending := Absorb(leaves[i], table, cl, pending);
        i := i + 1;
      }
      assert leaves[..i] == leaves;
    }

    /** `set_comments`: the history rows read into comments, unless reading one panics. */
    method SetComments(rows: seq<Node>, cl: Closures) returns (panic: Option<string>)
      modifies this
      ensures panic.Some? <==> Comments(rows, cl).Panic?
      ensures panic.Some? ==> panic.value == Comments(rows, cl).message
      ensures panic.None? ==> Value() == old(Value()).(comments := Comments(rows, cl).value)
    {
      panic := None;
      var read := Comments(rows, cl);
      if read.Panic? {
        panic := Some(read.message);
      } else {
        comments := read.value;
      }
    }

    /** The tail of `collect_fragments`: the address, when all three pieces were found. */
    method Assemble(pending: Pending) returns (panic: Option<string>)
      modifies this
      ensures Place(old(Value()), pending) == if panic.Some? then Panic(panic.value) else Done(Value())
    {
      panic := None;
      if pending.city.Some? && pending.addressLine.Some? && pending.apartment.Some? {
        var pieces := Split(pending.addressLine.value, ',');
        if |pieces| < 2 {
          panic := Some(Base.UnwrapNone);
        } else {
          address := Some(AddressData.FromParts(pending.city.value, pieces[0], pieces[1], pending.apartment.value));
        }
      }
    }

    /**
     * `collect_fragments`: the scan over `leaves`, the history rows `rows`
     * read into comments, then the address assembly. `panic` is the
     * message when reading a row or assembling the address panics, in
     * which case the fields say nothing.
     */
    method CollectFragments(leaves: seq<Leaf>, rows: seq<Node>, cl: Closures) returns (panic: Option<string>)
      modifies this
      ensures Collect(old(Value()), leaves, rows, cl) == if panic.Some? then Panic(panic.value) else Done(Value())
    {
      var pending := ScanLeaves(leaves, Table, cl);
      panic := SetComments(rows, cl);
      if panic.None? {
        panic := Assemble(pending);
      }
    }
  }

  /** `ViewRequest::from` on a document: a fresh default request, then the scan of its leaves and history. */
  method Parse(root: Node, env: Env) returns (request: ViewRequest, panic: Option<string>)
    ensures fresh(request)
    ensures From(root, env) == if panic.Some? then Panic(panic.value) else Done(request.Value())
  {
    request := new ViewRequest();
    panic := request.CollectFragments(DocumentLeaves(root), env.historyRows(root), Parsers(env));
  }
}
