/**
 * `BriefRequest::into_guaranteed`: a brief card whose every required
 * field was found and parsed, with at least one phone, becomes a record
 * without the `Option`s and `Result`s; any other card gives nothing.
 */
module BriefRequestGuaranteed {
  import opened Base
  import Chrono
  import AddressData
  import CommentData
  import InternalStatusData
  import OrderTypeData
  import StatusData
  import TimeConstrainsData
  import BriefRequestParser

  /** `GuaranteedBriefRequest`; `phones` holds at least one number. */
  datatype GuaranteedBrief = GuaranteedBrief(
    orderId: nat,
    internalOrderId: nat,
    orderType: OrderTypeData.OrderType,
    creationDate: Chrono.DateTime,
    internalStatus: InternalStatusData.InternalStatus,
    address: AddressData.Address,
    client: string,
    service: Option<string>,
    pa: string,
    timeConstrains: TimeConstrainsData.TimeConstrains,
    installers: seq<string>,
    lastComment: Option<CommentData.Comment>,
    firstComment: Option<CommentData.Comment>,
    status: StatusData.Status,
    phones: seq<string>)

  /** `Some(Ok(x))` for a present comment, nothing for an absent one. */
  function RawComment(c: Option<CommentData.Comment>): (r: Option<Result<CommentData.Comment, CommentData.CommentError>>)
    ensures r.Some? <==> c.Some?
  {
    match c
    case Some(x) => Some(Ok(x))
    case None => None
  }

  /** The brief card a guaranteed record stands for: every required field present and parsed. */
  function Raw(g: GuaranteedBrief): BriefRequestParser.Brief
  {
    BriefRequestParser.Brief(
      Some(Ok(g.orderId)), Some(Ok(g.internalOrderId)), Some(Ok(g.orderType)), Some(Ok(g.creationDate)),
      Some(Ok(g.internalStatus)), Some(g.address), Some(g.client), g.service, Some(g.pa), Some(Ok(g.timeConstrains)),
      g.installers, RawComment(g.lastComment), RawComment(g.firstComment), Some(Ok(g.status)), g.phones)
  }

  /**
   * What `into_guaranteed` accepts: a card that is the image of a
   * guaranteed record with a phone and both comments.
   */
  predicate Guarantees(g: GuaranteedBrief, b: BriefRequestParser.Brief)
  {
    Raw(g) == b && g.phones != [] && g.lastComment.Some? && g.firstComment.Some?
  }

  /**
   * `into_guaranteed`: no phones give nothing; then every required field
   * must be present and parsed, both comments included, while the service
   * and the installers pass through as they are. The result is the one
   * record that stands for the card, and there is none exactly when no
   * record does.
   */
  function IntoGuaranteed(b: BriefRequestParser.Brief): (r: Option<GuaranteedBrief>)
    ensures r.Some? ==> Guarantees(r.value, b)
    ensures r.None? ==> forall g :: !Guarantees(g, b)
  {
    if b.phones == [] then None
    else
      match (Required(b.orderId), Required(b.internalOrderId), Required(b.orderType), Required(b.creationDate),
             Required(b.internalStatus), b.address, b.client, b.pa)
      case (Some(orderId), Some(internalOrderId), Some(orderType), Some(creationDate),
            Some(internalStatus), Some(address), Some(client), Some(pa)) =>
        (match (Required(b.timeConstrains), Required(b.lastComment), Required(b.firstComment), Required(b.status))
         case (Some(timeConstrains), Some(lastComment), Some(firstComment), Some(status)) =>
           Some(GuaranteedBrief(orderId, internalOrderId, orderType, creationDate, internalStatus, address, client,
                                b.service, pa, timeConstrains, b.installers, Some(lastComment), Some(firstComment),
                                status, b.phones))
         case _ => None)
      case _ => None
  }

  /** A guaranteed record with a phone and both comments comes back unchanged from the card it stands for. */
  lemma RoundTrip(g: GuaranteedBrief)
    requires g.phones != [] && g.lastComment.Some? && g.firstComment.Some?
    ensures IntoGuaranteed(Raw(g)) == Some(g)
  {
    assert Guarantees(g, Raw(g));
  }

  /** A card without phones is never guaranteed, whatever else it holds. */
  lemma NoPhones(b: BriefRequestParser.Brief)
    requires b.phones == []
    ensures IntoGuaranteed(b) == None
  {
  }

  /**
   * A comment that is missing or did not parse rejects the card, although
   * the record's comment fields are optional.
   */
  lemma CommentsRequired(b: BriefRequestParser.Brief)
    requires Required(b.lastComment).None? || Required(b.firstComment).None?
    ensures IntoGuaranteed(b) == None
  {
  }

  /** An empty service and an empty installer list do not reject the card. */
  lemma OptionalFields(b: BriefRequestParser.Brief)
    requires IntoGuaranteed(b).Some?
    ensures IntoGuaranteed(b.(service := None, installers := [])).Some?
    ensures IntoGuaranteed(b.(service := None, installers := [])).value
         == IntoGuaranteed(b).value.(service := None, installers := [])
  {
  }
}
