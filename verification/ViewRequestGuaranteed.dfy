/**
 * `ViewRequest::into_guaranteed`: a view card with at least one phone,
 * every history row read without error and every required field found
 * and parsed becomes a record without the `Option`s and `Result`s; any
 * other card gives nothing. The comments are unwrapped by a loop that
 * gives up at the first row that failed.
 */
module ViewRequestGuaranteed {
  import opened Base
  import Chrono
  import AddressData
  import FullCommentData
  import InternalStatusData
  import OrderTypeData
  import StatusData
  import TimeConstrainsData
  import ViewRequestParser

  type Row = Result<FullCommentData.FullComment, FullCommentData.FullCommentError>

  /** `GuaranteedViewRequest`; `phones` holds at least one number. */
  datatype GuaranteedView = GuaranteedView(
    orderId: nat,
    internalOrderId: nat,
    orderType: OrderTypeData.OrderType,
    creationDate: Chrono.DateTime,
    internalStatus: InternalStatusData.InternalStatus,
    address: AddressData.Address,
    client: string,
    service: Option<string>,
    pa: string,
    seller: Option<string>,
    timeConstrains: TimeConstrainsData.TimeConstrains,
    installers: seq<string>,
    status: StatusData.Status,
    phones: seq<string>,
    assignedFor: Chrono.NaiveDate,
    comments: seq<FullCommentData.FullComment>)

  /** The rows' comments when every row was read without error, in the same order. */
  function OkComments(rows: seq<Row>): (r: Option<seq<FullCommentData.FullComment>>)
    ensures r.Some? <==> forall k :: 0 <= k < |rows| ==> rows[k].Ok?
    ensures r.Some? ==> |r.value| == |rows| && forall k :: 0 <= k < |rows| ==> rows[k] == Ok(r.value[k])
    decreases |rows|
  {
    if rows == [] then Some([])
    else
      match OkComments(rows[..|rows| - 1])
      case None => None
      case Some(init) =>
        match rows[|rows| - 1]
        case Err(_) => None
        case Ok(c) => Some(init + [c])
  }

  /** Each comment as a row read without error. */
  function RawComments(comments: seq<FullCommentData.FullComment>): (r: seq<Row>)
    ensures |r| == |comments| && forall k :: 0 <= k < |r| ==> r[k] == Ok(comments[k])
  {
    seq(|comments|, k requires 0 <= k < |comments| => Ok(comments[k]))
  }

  /** Reading back comments stored as rows gives the same comments. */
  lemma OkRawComments(comments: seq<FullCommentData.FullComment>)
    ensures OkComments(RawComments(comments)) == Some(comments)
  {
    var rows := RawComments(comments);
    assert forall k :: 0 <= k < |rows| ==> rows[k].Ok?;
    var r := OkComments(rows);
    assert forall k :: 0 <= k < |comments| ==> rows[k] == Ok(r.value[k]) && r.value[k] == comments[k];
    assert r.value == comments;
  }

  /** The view card a guaranteed record stands for: every required field present and parsed. */
  function Raw(g: GuaranteedView): ViewRequestParser.View
  {
    ViewRequestParser.View(
      Some(Ok(g.orderId)), Some(Ok(g.internalOrderId)), Some(Ok(g.orderType)), Some(Ok(g.creationDate)),
      Some(Ok(g.internalStatus)), Some(g.address), Some(g.client), g.service, Some(g.pa), g.seller,
      Some(Ok(g.timeConstrains)), g.installers, Some(Ok(g.status)), g.phones, Some(Ok(g.assignedFor)),
      RawComments(g.comments))
  }

  /** What `into_guaranteed` accepts: a card that is the image of a guaranteed record with a phone. */
  predicate Guarantees(g: GuaranteedView, v: ViewRequestParser.View)
  {
    Raw(g) == v && g.phones != []
  }

  /** The `?` chain over the required fields, with the comments already unwrapped. */
  function Fill(v: ViewRequestParser.View, comments: seq<FullCommentData.FullComment>): (r: Option<GuaranteedView>)
    ensures r.Some? ==> r.value.comments == comments && Raw(r.value) == v.(comments := RawComments(comments))
    ensures r.Some? <==>
      && Required(v.orderId).Some? && Required(v.internalOrderId).Some? && Required(v.orderType).Some?
      && Required(v.creationDate).Some? && Required(v.internalStatus).Some? && v.address.Some?
      && v.client.Some? && v.pa.Some? && Required(v.timeConstrains).Some? && Required(v.status).Some?
      && Required(v.assignedFor).Some?
  {
    match (Required(v.orderId), Required(v.internalOrderId), Required(v.orderType), Required(v.creationDate),
           Required(v.internalStatus), v.address, v.client, v.pa)
    case (Some(orderId), Some(internalOrderId), Some(orderType), Some(creationDate),
          Some(internalStatus), Some(address), Some(client), Some(pa)) =>
      (match (Required(v.timeConstrains), Required(v.status), Required(v.assignedFor))
       case (Some(timeConstrains), Some(status), Some(assignedFor)) =>
         Some(GuaranteedView(orderId, internalOrderId, orderType, creationDate, internalStatus, address, client,
                             v.service, pa, v.seller, timeConstrains, v.installers, status, v.phones, assignedFor,
                             comments))
       case _ => None)
    case _ => None
  }

  /**
   * `into_guaranteed`: no phones give nothing, a history row read with an
   * error gives nothing, and then every required field must be present and
   * parsed, while the service, the seller and the installers pass through.
   * The result is a record that stands for the card (`RoundTrip` shows it
   * is the only one, and that one is found whenever it exists).
   */
  function Guarantee(v: ViewRequestParser.View): (r: Option<GuaranteedView>)
    ensures r.Some? ==> Guarantees(r.value, v)
  {
    if v.phones == [] then None
    else
      match OkComments(v.comments)
      case None => None
      case Some(comments) =>
        assert forall k :: 0 <= k < |comments| ==> RawComments(comments)[k] == v.comments[k];
        assert RawComments(comments) == v.comments;
        Fill(v, comments)
  }

  /**
   * A guaranteed record with a phone comes back unchanged from the card it
   * stands for: a card some record stands for is accepted, and gives that
   * record.
   */
  lemma RoundTrip(g: GuaranteedView)
    requires g.phones != []
    ensures Guarantee(Raw(g)) == Some(g)
    ensures forall v :: Guarantees(g, v) ==> Guarantee(v) == Some(g)
  {
    OkRawComments(g.comments);
  }

  /** One history row read with an error rejects the card, however good the others are. */
  lemma FailedRowRejects(v: ViewRequestParser.View, k: nat)
    requires k < |v.comments| && v.comments[k].Err?
    ensures Guarantee(v) == None
  {
  }

  /** A card without history is not rejected for it: the record then has no comments. */
  lemma NoHistoryAllowed(v: ViewRequestParser.View)
    requires Guarantee(v).Some?
    ensures Guarantee(v.(comments := [])) == Some(Guarantee(v).value.(comments := []))
  {
    OkRawComments([]);
  }

  /** The service, the seller and the installers pass through: absent or empty, they do not reject the card. */
  lemma OptionalFields(v: ViewRequestParser.View)
    requires Guarantee(v).Some?
    ensures Guarantee(v.(service := None, seller := None, installers := []))
         == Some(Guarantee(v).value.(service := None, seller := None, installers := []))
  {
  }

  /**
   * The loop of `into_guaranteed` over the history: each comment is
   * unwrapped and pushed in turn, and the first row read with an error
   * ends the conversion.
   */
  method UnwrapComments(rows: seq<Row>) returns (r: Option<seq<FullCommentData.FullComment>>)
    ensures r == OkComments(rows)
  {
    var comments: seq<FullCommentData.FullComment> := [];
    var i := 0;
    while i < |rows|
      invariant i <= |rows|
      invariant OkComments(rows[..i]) == Some(comments)
    {
      assert rows[..i + 1][..i] == rows[..i];
      if rows[i].Err? {
        assert OkComments(rows[..i + 1]) == None;
        OkPrefix(rows, i + 1);
        return None;
      }
      comments := comments + [rows[i].value];
      i := i + 1;
    }
    assert rows[..i] == rows;
    r := Some(comments);
  }

  /** A row read with an error within a prefix rejects the whole history. */
  lemma OkPrefix(rows: seq<Row>, n: nat)
    requires n <= |rows| && OkComments(rows[..n]).None?
    ensures OkComments(rows).None?
  {
    var k :| 0 <= k < n && rows[..n][k].Err?;
    assert rows[k].Err?;
  }

  /** `into_guaranteed` on a card. */
  method IntoGuaranteed(v: ViewRequestParser.View) returns (r: Option<GuaranteedView>)
    ensures r == Guarantee(v)
  {
    if v.phones == [] {
      return None;
    }
    var comments := UnwrapComments(v.comments);
    if comments.None? {
      return None;
    }
    r := Fill(v, comments.value);
  }
}
