/**
 * `BriefRequest`: the short card of a request, filled in by one pass over
 * the document's leaves. Each leaf is offered to the labels of the table
 * in order; the first label that names the leaf decides which field the
 * leaf's text goes to, and the rest of the table is skipped. Scalar
 * fields keep the last value written, the two lists grow in document
 * order, and the address is assembled after the pass from three pieces
 * kept aside while scanning.
 */
module BriefRequestParser {
  import opened Base
  import opened Strings
  import opened Dom
  import opened Leaves
  import opened Macros
  import opened IsItTrait
  import Chrono
  import IntErrorKinds
  import ParseErrorKinds
  import Numbers
  import AddressData
  import CommentData
  import InternalStatusData
  import OrderTypeData
  import StatusData
  import TimeConstrainsData

  /** What the parsers take from libraries: HTML entity decoding and the `%Y-%m-%d %H:%M:%S` date-time parse in Kyiv time. */
  datatype Env = Env(decode: string -> string, parseDateTime: string -> Result<Chrono.DateTime, Chrono.ParseError>)

  /**
   * The closures of the label table that turn a value's text into a
   * field: the number, order type, date-time, status, time window and
   * comment parsers.
   */
  datatype Closures = Closures(
    number: string -> Result<nat, IntErrorKinds.SerializableIntErrorKind>,
    orderType: string -> Result<OrderTypeData.OrderType, OrderTypeData.OrderTypeError>,
    dateTime: string -> Result<Chrono.DateTime, ParseErrorKinds.SerializableParseErrorKind>,
    internalStatus: string -> Result<InternalStatusData.InternalStatus, InternalStatusData.InternalStatusError>,
    timeConstrains: string -> Result<TimeConstrainsData.TimeConstrains, TimeConstrainsData.TimeConstrainsError>,
    status: string -> Result<StatusData.Status, StatusData.StatusError>,
    comment: string -> Result<CommentData.Comment, CommentData.CommentError>)

  /** The fields of a brief request, as a value. */
  datatype Brief = Brief(
    orderId: Option<Result<nat, IntErrorKinds.SerializableIntErrorKind>>,
    internalOrderId: Option<Result<nat, IntErrorKinds.SerializableIntErrorKind>>,
    orderType: Option<Result<OrderTypeData.OrderType, OrderTypeData.OrderTypeError>>,
    creationDate: Option<Result<Chrono.DateTime, ParseErrorKinds.SerializableParseErrorKind>>,
    internalStatus: Option<Result<InternalStatusData.InternalStatus, InternalStatusData.InternalStatusError>>,
    address: Option<AddressData.Address>,
    client: Option<string>,
    service: Option<string>,
    pa: Option<string>,
    timeConstrains: Option<Result<TimeConstrainsData.TimeConstrains, TimeConstrainsData.TimeConstrainsError>>,
    installers: seq<string>,
    lastComment: Option<Result<CommentData.Comment, CommentData.CommentError>>,
    firstComment: Option<Result<CommentData.Comment, CommentData.CommentError>>,
    status: Option<Result<StatusData.Status, StatusData.StatusError>>,
    phones: seq<string>)

  /** `BriefRequest::default()`. */
  const Empty: Brief := Brief(None, None, None, None, None, None, None, None, None, None, [], None, None, None, [])

  /** The three address pieces the scan keeps in locals until the end. */
  datatype Pending = Pending(city: Option<string>, addressLine: Option<string>, apartment: Option<string>)

  const NothingPending: Pending := Pending(None, None, None)

  /** The request and the pending address pieces between two leaves. */
  datatype State = State(brief: Brief, pending: Pending)

  /** What a label sets. */
  datatype Field =
    | InternalOrderIdField | OrderIdField | OrderTypeField | CreationDateField | InternalStatusField
    | CityField | AddressLineField | ApartmentField | ClientField | ServiceField | PhonesField
    | PaField | TimeConstrainsField | InstallersField | StatusField | FirstCommentField | LastCommentField

  /** The `match_and_set!` invocations of the scan, in the order they are written. */
  const Table: seq<Entry<Field>> := [
    Entry("заявка:", InternalOrderIdField),
    Entry("наряд:", OrderIdField),
    Entry("подтип:", OrderTypeField),
    Entry("дата создания:", CreationDateField),
    Entry("статус:", InternalStatusField),
    Entry("город:", CityField),
    Entry("адрес:", AddressLineField),
    Entry("квартира:", ApartmentField),
    Entry("клиент:", ClientField),
    Entry("пакет:", ServiceField),
    Entry("телефон:", PhonesField),
    Entry("телефон 2:", PhonesField),
    Entry("лицевой счет:", PaField),
    Entry("время подключения:", TimeConstrainsField),
    Entry("монтажник:", InstallersField),
    Entry("монтажник 2:", InstallersField),
    Entry("статус заказчика:", StatusField),
    Entry("начальный комментарий:", FirstCommentField),
    Entry("последний комментарий:", LastCommentField)
  ]

  /** `as_datetime`: the date-time parse, its error reduced to the serialisable kind. */
  function AsDateTime(text: string, env: Env): (r: Result<Chrono.DateTime, ParseErrorKinds.SerializableParseErrorKind>)
    ensures r.Ok? <==> env.parseDateTime(text).Ok?
    ensures r.Ok? ==> r.value == env.parseDateTime(text).value
    ensures r.Err? ==> r.error == ParseErrorKinds.FromKind(env.parseDateTime(text).error.kind)
  {
    CommentData.AsDateTime(text, env.parseDateTime)
  }

  /** The closures the scan is written with. */
  function Parsers(env: Env): (cl: Closures)
    ensures forall text :: cl.number(text) == IntErrorKinds.FromStrUnsigned(text, Numbers.U32Bound)
    ensures forall text :: cl.dateTime(text) == AsDateTime(text, env)
    ensures forall text :: cl.comment(text) == CommentData.From(text, env.decode, env.parseDateTime)
  {
    Closures(text => IntErrorKinds.FromStrUnsigned(text, Numbers.U32Bound), OrderTypeData.FromStr,
             text => AsDateTime(text, env), InternalStatusData.FromStr, TimeConstrainsData.From, StatusData.FromStr,
             text => CommentData.From(text, env.decode, env.parseDateTime))
  }

  /**
   * The closure of the invocation for `field`, run on the text `is_it`
   * returned: that field is assigned or appended to, the others are kept.
   */
  function Apply(st: State, field: Field, text: string, cl: Closures): State
  {
    var b := st.brief;
    var p := st.pending;
    State(
      Brief(
        if field.OrderIdField? then Some(cl.number(text)) else b.orderId,
        if field.InternalOrderIdField? then Some(cl.number(text)) else b.internalOrderId,
        if field.OrderTypeField? then Some(cl.orderType(text)) else b.orderType,
        if field.CreationDateField? then Some(cl.dateTime(text)) else b.creationDate,
        if field.InternalStatusField? then Some(cl.internalStatus(text)) else b.internalStatus,
        b.address,
        if field.ClientField? then Some(Trim(text)) else b.client,
        if field.ServiceField? then (if text == "" then None else Some(text)) else b.service,
        if field.PaField? then Some(text) else b.pa,
        if field.TimeConstrainsField? then Some(cl.timeConstrains(text)) else b.timeConstrains,
        if field.InstallersField? then b.installers + [text] else b.installers,
        if field.LastCommentField? then Some(cl.comment(text)) else b.lastComment,
        if field.FirstCommentField? then Some(cl.comment(text)) else b.firstComment,
        if field.StatusField? then Some(cl.status(text)) else b.status,
        if field.PhonesField? then b.phones + [Trim(text)] else b.phones),
      Pending(
        if field.CityField? then Some(text) else p.city,
        if field.AddressLineField? then Some(text) else p.addressLine,
        if field.ApartmentField? then Some(text) else p.apartment))
  }

  /** One pass of the loop body over `leaf`, with the label table `table`. */
  function Step(st: State, leaf: Leaf, table: seq<Entry<Field>>, cl: Closures): State
  {
    match FirstMatch(table, leaf, JoinedText)
    case None => st
    case Some(m) => Apply(st, m.field, m.text, cl)
  }

  /** The loop over `leaves`, from `st`. */
  function Scan(st: State, leaves: seq<Leaf>, table: seq<Entry<Field>>, cl: Closures): State
    decreases |leaves|
  {
    if leaves == [] then st else Step(Scan(st, leaves[..|leaves| - 1], table, cl), leaves[|leaves| - 1], table, cl)
  }

  /** After the loop: the address is set when all three pieces were found, otherwise the request is left as it is. */
  function Finish(st: State): (r: Outcome<Brief>)
    ensures !(st.pending.city.Some? && st.pending.addressLine.Some? && st.pending.apartment.Some?) ==> r == Done(st.brief)
    ensures st.pending.city.Some? && st.pending.addressLine.Some? && st.pending.apartment.Some? ==>
      match AddressData.FromLine(st.pending.city.value, st.pending.addressLine.value, st.pending.apartment.value)
      case Panic(msg) => r == Panic(msg)
      case Done(a) => r == Done(st.brief.(address := Some(a)))
  {
    match st.pending
    case Pending(Some(city), Some(line), Some(apartment)) =>
      (match AddressData.FromLine(city, line, apartment)
       case Panic(msg) => Panic(msg)
       case Done(a) => Done(st.brief.(address := Some(a))))
    case _ => Done(st.brief)
  }

  /** `collect_fragments` from the request `b` over `leaves`. */
  function Collect(b: Brief, leaves: seq<Leaf>, cl: Closures): Outcome<Brief>
  {
    Finish(Scan(State(b, NothingPending), leaves, Table, cl))
  }

  /** `BriefRequest::from`: a default request filled from the leaves of the document. */
  function From(root: Node, env: Env): Outcome<Brief>
  {
    Collect(Empty, DocumentLeaves(root), Parsers(env))
  }

  /** The field `field` reset to nothing: the request as it is apart from that one field. */
  function Without(st: State, field: Field): State
  {
    var b := st.brief;
    var p := st.pending;
    match field
    case InternalOrderIdField => State(b.(internalOrderId := None), p)
    case OrderIdField => State(b.(orderId := None), p)
    case OrderTypeField => State(b.(orderType := None), p)
    case CreationDateField => State(b.(creationDate := None), p)
    case InternalStatusField => State(b.(internalStatus := None), p)
    case CityField => State(b, p.(city := None))
    case AddressLineField => State(b, p.(addressLine := None))
    case ApartmentField => State(b, p.(apartment := None))
    case ClientField => State(b.(client := None), p)
    case ServiceField => State(b.(service := None), p)
    case PhonesField => State(b.(phones := []), p)
    case PaField => State(b.(pa := None), p)
    case TimeConstrainsField => State(b.(timeConstrains := None), p)
    case InstallersField => State(b.(installers := []), p)
    case StatusField => State(b.(status := None), p)
    case FirstCommentField => State(b.(firstComment := None), p)
    case LastCommentField => State(b.(lastComment := None), p)
  }

  /** A closure touches its own field and nothing else. */
  lemma ApplyTouchesOneField(st: State, field: Field, text: string, cl: Closures)
    ensures Without(Apply(st, field, text, cl), field) == Without(st, field)
  {
  }

  /**
   * One leaf sets at most one field: the one of the first label that
   * names it, or none when no label does.
   */
  lemma StepSetsAtMostOneField(st: State, leaf: Leaf, table: seq<Entry<Field>>, cl: Closures)
    ensures FirstMatch(table, leaf, JoinedText).None? ==> Step(st, leaf, table, cl) == st
    ensures FirstMatch(table, leaf, JoinedText).Some? ==>
      var m := FirstMatch(table, leaf, JoinedText).value;
      Without(Step(st, leaf, table, cl), m.field) == Without(st, m.field)
      && Step(st, leaf, table, cl) == Apply(st, m.field, IsIt(table[m.index].labelText, leaf, JoinedText).value, cl)
  {
    if FirstMatch(table, leaf, JoinedText).Some? {
      var m := FirstMatch(table, leaf, JoinedText).value;
      ApplyTouchesOneField(st, m.field, m.text, cl);
    }
  }

  /**
   * A leaf under one of the table's labels goes to that label's field,
   * with the leaf's joined text, when no earlier label is the same.
   */
  lemma LabelledLeaf(st: State, leaf: Leaf, j: nat, cl: Closures)
    requires j < |Table| && IsIt(Table[j].labelText, leaf, JoinedText).Some?
    requires forall i :: 0 <= i < j ==> Table[i].labelText != Table[j].labelText
    ensures Step(st, leaf, Table, cl) == Apply(st, Table[j].field, JoinedText(leaf.node), cl)
  {
    FirstLabelFires(Table, leaf, JoinedText, j);
  }

  /** A creation date that does not parse is kept as the error's kind; the scan goes on. */
  lemma UnreadableCreationDate(st: State, leaf: Leaf, env: Env)
    requires IsIt("дата создания:", leaf, JoinedText).Some?
    requires env.parseDateTime(JoinedText(leaf.node)).Err?
    ensures Step(st, leaf, Table, Parsers(env)).brief.creationDate
         == Some(Err(ParseErrorKinds.FromKind(env.parseDateTime(JoinedText(leaf.node)).error.kind)))
  {
    assert Table[3].labelText == "дата создания:";
    LabelledLeaf(st, leaf, 3, Parsers(env));
  }

  /** An empty package cell clears the service instead of storing an empty name. */
  lemma EmptyService(st: State, leaf: Leaf, cl: Closures)
    requires IsIt("пакет:", leaf, JoinedText) == Some("")
    ensures Step(st, leaf, Table, cl).brief.service == None
  {
    assert Table[9].labelText == "пакет:";
    LabelledLeaf(st, leaf, 9, cl);
  }

  /** Phones are only appended to: the trimmed texts of the phone cells, in document order. */
  lemma {:induction false} ScanPhones(st: State, leaves: seq<Leaf>, table: seq<Entry<Field>>, cl: Closures)
    ensures Scan(st, leaves, table, cl).brief.phones == st.brief.phones + TrimEach(LabelledTexts(leaves, table, PhonesField))
    decreases |leaves|
  {
    if leaves != [] {
      var init, last := leaves[..|leaves| - 1], leaves[|leaves| - 1];
      ScanPhones(st, init, table, cl);
      LabelledStep(leaves, table, PhonesField);
      var prev := Scan(st, init, table, cl);
      assert Scan(st, leaves, table, cl) == Step(prev, last, table, cl);
      var texts := LabelledTexts(init, table, PhonesField);
      var m := FirstMatch(table, last, JoinedText);
      if m.Some? && m.value.field == PhonesField {
        TrimEachAppend(texts, m.value.text);
        assert Step(prev, last, table, cl).brief.phones == prev.brief.phones + [Trim(m.value.text)];
      } else {
        assert Step(prev, last, table, cl).brief.phones == prev.brief.phones;
      }
    }
  }

  /** Installers are only appended to: the untrimmed texts of the installer cells, in document order. */
  lemma {:induction false} ScanInstallers(st: State, leaves: seq<Leaf>, table: seq<Entry<Field>>, cl: Closures)
    ensures Scan(st, leaves, table, cl).brief.installers == st.brief.installers + LabelledTexts(leaves, table, InstallersField)
    decreases |leaves|
  {
    if leaves != [] {
      var init, last := leaves[..|leaves| - 1], leaves[|leaves| - 1];
      ScanInstallers(st, init, table, cl);
      LabelledStep(leaves, table, InstallersField);
      var prev := Scan(st, init, table, cl);
      assert Scan(st, leaves, table, cl) == Step(prev, last, table, cl);
      var m := FirstMatch(table, last, JoinedText);
      if m.Some? && m.value.field == InstallersField {
        assert Step(prev, last, table, cl).brief.installers == prev.brief.installers + [m.value.text];
      } else {
        assert Step(prev, last, table, cl).brief.installers == prev.brief.installers;
      }
    }
  }

  /** The client is the trimmed text of the last client cell: later cells overwrite earlier ones. */
  lemma {:induction false} ScanClient(st: State, leaves: seq<Leaf>, table: seq<Entry<Field>>, cl: Closures)
    ensures Scan(st, leaves, table, cl).brief.client
         == if LastText(leaves, table, ClientField).None? then st.brief.client
            else Some(Trim(LastText(leaves, table, ClientField).value))
    decreases |leaves|
  {
    if leaves != [] {
      var init, last := leaves[..|leaves| - 1], leaves[|leaves| - 1];
      ScanClient(st, init, table, cl);
      LastTextStep(leaves, table, ClientField);
      var prev := Scan(st, init, table, cl);
      assert Scan(st, leaves, table, cl) == Step(prev, last, table, cl);
      var m := FirstMatch(table, last, JoinedText);
      if m.Some? && m.value.field == ClientField {
        assert Step(prev, last, table, cl).brief.client == Some(Trim(m.value.text));
      } else {
        assert Step(prev, last, table, cl).brief.client == prev.brief.client;
      }
    }
  }

  /** The service is the text of the last package cell, and none when that text is empty. */
  lemma {:induction false} ScanService(st: State, leaves: seq<Leaf>, table: seq<Entry<Field>>, cl: Closures)
    ensures Scan(st, leaves, table, cl).brief.service
         == if LastText(leaves, table, ServiceField).None? then st.brief.service
            else if LastText(leaves, table, ServiceField).value == "" then None
            else LastText(leaves, table, ServiceField)
    decreases |leaves|
  {
    if leaves != [] {
      var init, last := leaves[..|leaves| - 1], leaves[|leaves| - 1];
      ScanService(st, init, table, cl);
      LastTextStep(leaves, table, ServiceField);
      var prev := Scan(st, init, table, cl);
      assert Scan(st, leaves, table, cl) == Step(prev, last, table, cl);
      var m := FirstMatch(table, last, JoinedText);
      if m.Some? && m.value.field == ServiceField {
        assert Step(prev, last, table, cl).brief.service == if m.value.text == "" then None else Some(m.value.text);
      } else {
        assert Step(prev, last, table, cl).brief.service == prev.brief.service;
      }
    }
  }

  /** Each address piece is the text of the last cell labelled with it. */
  lemma {:induction false} ScanPending(st: State, leaves: seq<Leaf>, table: seq<Entry<Field>>, cl: Closures)
    ensures Scan(st, leaves, table, cl).pending.city
         == if LastText(leaves, table, CityField).None? then st.pending.city else LastText(leaves, table, CityField)
    ensures Scan(st, leaves, table, cl).pending.addressLine
         == if LastText(leaves, table, AddressLineField).None? then st.pending.addressLine else LastText(leaves, table, AddressLineField)
    ensures Scan(st, leaves, table, cl).pending.apartment
         == if LastText(leaves, table, ApartmentField).None? then st.pending.apartment else LastText(leaves, table, ApartmentField)
    decreases |leaves|
  {
    if leaves != [] {
      var init, last := leaves[..|leaves| - 1], leaves[|leaves| - 1];
      ScanPending(st, init, table, cl);
      LastTextStep(leaves, table, CityField);
      LastTextStep(leaves, table, AddressLineField);
      LastTextStep(leaves, table, ApartmentField);
      var prev := Scan(st, init, table, cl);
      assert Scan(st, leaves, table, cl) == Step(prev, last, table, cl);
      var m := FirstMatch(table, last, JoinedText);
      if m.Some? {
        assert Step(prev, last, table, cl).pending == Apply(prev, m.value.field, m.value.text, cl).pending;
      } else {
        assert Step(prev, last, table, cl).pending == prev.pending;
      }
    }
  }

  /**
   * The address is set exactly when a city, an address line and an
   * apartment were all found, from the last of each; with one missing the
   * request is returned as scanned.
   */
  lemma CollectAddress(b: Brief, leaves: seq<Leaf>, cl: Closures)
    ensures var city, line, apartment := LastText(leaves, Table, CityField), LastText(leaves, Table, AddressLineField),
                                         LastText(leaves, Table, ApartmentField);
      var scanned := Scan(State(b, NothingPending), leaves, Table, cl).brief;
      Collect(b, leaves, cl)
      == if city.Some? && line.Some? && apartment.Some? then
           match AddressData.FromLine(city.value, line.value, apartment.value)
           case Panic(msg) => Panic(msg)
           case Done(a) => Done(scanned.(address := Some(a)))
         else Done(scanned)
  {
    ScanPending(State(b, NothingPending), leaves, Table, cl);
  }

  /** A brief request under construction; its fields are set in place by the scan. */
  class BriefRequest {
    var orderId: Option<Result<nat, IntErrorKinds.SerializableIntErrorKind>>
    var internalOrderId: Option<Result<nat, IntErrorKinds.SerializableIntErrorKind>>
    var orderType: Option<Result<OrderTypeData.OrderType, OrderTypeData.OrderTypeError>>
    var creationDate: Option<Result<Chrono.DateTime, ParseErrorKinds.SerializableParseErrorKind>>
    var internalStatus: Option<Result<InternalStatusData.InternalStatus, InternalStatusData.InternalStatusError>>
    var address: Option<AddressData.Address>
    var client: Option<string>
    var service: Option<string>
    var pa: Option<string>
    var timeConstrains: Option<Result<TimeConstrainsData.TimeConstrains, TimeConstrainsData.TimeConstrainsError>>
    var installers: seq<string>
    var lastComment: Option<Result<CommentData.Comment, CommentData.CommentError>>
    var firstComment: Option<Result<CommentData.Comment, CommentData.CommentError>>
    var status: Option<Result<StatusData.Status, StatusData.StatusError>>
    var phones: seq<string>

    function Value(): Brief
      reads this
    {
      Brief(orderId, internalOrderId, orderType, creationDate, internalStatus, address, client, service, pa,
            timeConstrains, installers, lastComment, firstComment, status, phones)
    }

    /** `BriefRequest::default()`. */
    constructor ()
      ensures Value() == Empty
    {
      orderId, internalOrderId, orderType, creationDate, internalStatus := None, None, None, None, None;
      address, client, service, pa, timeConstrains := None, None, None, None, None;
      installers, lastComment, firstComment, status, phones := [], None, None, None, [];
    }

    /** The first arm of `match_and_set!` for an identifying field: the field is assigned the closure's value. */
    method AssignIdentity(field: Field, text: string, cl: Closures)
      requires field.InternalOrderIdField? || field.OrderIdField? || field.OrderTypeField? || field.CreationDateField?
      modifies this
      ensures State(Value(), NothingPending) == Apply(State(old(Value()), NothingPending), field, text, cl)
    {
      if field.InternalOrderIdField? {
        internalOrderId := Some(cl.number(text));
      } else if field.OrderIdField? {
        orderId := Some(cl.number(text));
      } else if field.OrderTypeField? {
        orderType := Some(cl.orderType(text));
      } else {
        creationDate := Some(cl.dateTime(text));
      }
    }

    /** The first arm of `match_and_set!` for a field of the request's progress: the field is assigned the closure's value. */
    method AssignProgress(field: Field, text: string, cl: Closures)
      requires field.InternalStatusField? || field.TimeConstrainsField? || field.StatusField?
            || field.FirstCommentField? || field.LastCommentField?
      modifies this
      ensures State(Value(), NothingPending) == Apply(State(old(Value()), NothingPending), field, text, cl)
    {
      if field.InternalStatusField? {
        internalStatus := Some(cl.internalStatus(text));
      } else if field.TimeConstrainsField? {
        timeConstrains := Some(cl.timeConstrains(text));
      } else if field.StatusField? {
        status := Some(cl.status(text));
      } else if field.FirstCommentField? {
        firstComment := Some(cl.comment(text));
      } else {
        lastComment := Some(cl.comment(text));
      }
    }

    /** The first arm of `match_and_set!` for a text field: the field is assigned the text, trimmed or dropped when empty where the closure says so. */
    method AssignText(field: Field, text: string, cl: Closures)
      requires field.ClientField? || field.ServiceField? || field.PaField?
      modifies this
      ensures State(Value(), NothingPending) == Apply(State(old(Value()), NothingPending), field, text, cl)
    {
      if field.ClientField? {
        client := Some(Trim(text));
      } else if field.ServiceField? {
        service := if text == "" then None else Some(text);
      } else {
        pa := Some(text);
      }
    }

    /** The third arm of `match_and_set!`: the closure pushes the text onto a list of the request. */
    method Push(field: Field, text: string, cl: Closures)
      requires field.PhonesField? || field.InstallersField?
      modifies this
      ensures State(Value(), NothingPending) == Apply(State(old(Value()), NothingPending), field, text, cl)
    {
      if field.PhonesField? {
        phones := phones + [Trim(text)];
      } else {
        installers := installers + [text];
      }
    }

    /** One pass of the loop body: the leaf goes to the first label that names it, if any. */
    method Absorb(leaf: Leaf, table: seq<Entry<Field>>, cl: Closures, pending: Pending) returns (next: Pending)
      modifies this
      ensures State(Value(), next) == Step(State(old(Value()), pending), leaf, table, cl)
    {
      next := pending;
      var found := FirstMatch(table, leaf, JoinedText);
      if found.Some? {
        var field, text := found.value.field, found.value.text;
        if field.CityField? {
          next := pending.(city := Some(text));
        } else if field.AddressLineField? {
          next := pending.(addressLine := Some(text));
        } else if field.ApartmentField? {
          next := pending.(apartment := Some(text));
        } else if field.PhonesField? || field.InstallersField? {
          Push(field, text, cl);
        } else if field.ClientField? || field.ServiceField? || field.PaField? {
          AssignText(field, text, cl);
        } else if field.InternalOrderIdField? || field.OrderIdField? || field.OrderTypeField? || field.CreationDateField? {
          AssignIdentity(field, text, cl);
        } else {
          AssignProgress(field, text, cl);
        }
      }
    }

    /** The loop of `collect_fragments`: every leaf offered to the label table in turn. */
    method ScanLeaves(leaves: seq<Leaf>, table: seq<Entry<Field>>, cl: Closures) returns (pending: Pending)
      modifies this
      ensures State(Value(), pending) == Scan(State(old(Value()), NothingPending), leaves, table, cl)
    {
      pending := NothingPending;
      var i := 0;
      while i < |leaves|
        invariant i <= |leaves|
        invariant Scan(State(old(Value()), NothingPending), leaves[..i], table, cl) == State(Value(), pending)
      {
        assert leaves[..i + 1][..i] == leaves[..i];
        pending := Absorb(leaves[i], table, cl, pending);
        i := i + 1;
      }
      assert leaves[..i] == leaves;
    }

    /** The tail of `collect_fragments`: the address, when all three pieces were found. */
    method Assemble(pending: Pending) returns (panic: Option<string>)
      modifies this
      ensures Finish(State(old(Value()), pending)) == if panic.Some? then Panic(panic.value) else Done(Value())
    {
      panic := None;
      if pending.city.Some? && pending.addressLine.Some? && pending.apartment.Some? {
        var pieces := Split(pending.addressLine.value, ',');
        if |pieces| < 2 {
          panic := Some(Base.UnwrapNone);
        } else {
          address := Some(AddressData.FromParts(pending.city.value, pieces[0], pieces[1], pending.apartment.value));
        }
      }
    }

    /**
     * `collect_fragments`: the label scan over `leaves`, then the address
     * assembly. `panic` is the message when the assembly panics, in which
     * case the fields say nothing.
     */
    method CollectFragments(leaves: seq<Leaf>, cl: Closures) returns (panic: Option<string>)
      modifies this
      ensures Collect(old(Value()), leaves, cl) == if panic.Some? then Panic(panic.value) else Done(Value())
    {
      var pending := ScanLeaves(leaves, Table, cl);
      panic := Assemble(pending);
    }
  }

  /** `BriefRequest::from` on a document: a fresh default request, then the scan of its leaves. */
  method Parse(root: Node, env: Env) returns (request: BriefRequest, panic: Option<string>)
    ensures fresh(request)
    ensures From(root, env) == if panic.Some? then Panic(panic.value) else Done(request.Value())
  {
    request := new BriefRequest();
    panic := request.CollectFragments(DocumentLeaves(root), Parsers(env));
  }
}
