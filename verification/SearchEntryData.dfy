/**
 * `SearchEntry`: one row of a basic search, every field optional and
 * every parsed field kept with its error, and the conversion to a
 * `GuaranteedSearchEntry` that needs all of them but the installer.
 */
module SearchEntryData {
  import opened Base
  import Chrono
  import IntErrorKinds
  import ParseErrorKinds
  import AddressData
  import MduData
  import InternalStatusData

  datatype SearchEntry = SearchEntry(
    orderId: Option<Result<nat, IntErrorKinds.SerializableIntErrorKind>>,
    internalOrderId: Option<Result<nat, IntErrorKinds.SerializableIntErrorKind>>,
    phoneNumber: Option<string>,
    address: Option<AddressData.Address>,
    mdu: Option<Result<MduData.Mdu, MduData.MduError>>,
    client: Option<string>,
    installer: Option<string>,
    internalStatus: Option<Result<InternalStatusData.InternalStatus, InternalStatusData.InternalStatusError>>,
    lastUpdated: Option<Result<Chrono.NaiveDate, ParseErrorKinds.SerializableParseErrorKind>>)

  /** `SearchEntry::default()`: nothing found. */
  const Default := SearchEntry(None, None, None, None, None, None, None, None, None)

  datatype GuaranteedSearchEntry = GuaranteedSearchEntry(
    orderId: nat,
    internalOrderId: nat,
    phoneNumber: string,
    address: AddressData.Address,
    mdu: MduData.Mdu,
    client: string,
    installer: Option<string>,
    internalStatus: InternalStatusData.InternalStatus,
    lastUpdated: Chrono.NaiveDate)

  /** The search entry a guaranteed entry stands for: every field found and parsed. */
  function Raw(g: GuaranteedSearchEntry): SearchEntry
  {
    SearchEntry(Some(Ok(g.orderId)), Some(Ok(g.internalOrderId)), Some(g.phoneNumber), Some(g.address),
                Some(Ok(g.mdu)), Some(g.client), g.installer, Some(Ok(g.internalStatus)), Some(Ok(g.lastUpdated)))
  }

  /**
   * `SearchEntry::into_guaranteed`: the `?` chain over every field but the
   * installer, which passes through. An entry is accepted exactly when it
   * is the image of a guaranteed entry, and then gives that entry.
   */
  function IntoGuaranteed(e: SearchEntry): (r: Option<GuaranteedSearchEntry>)
    ensures r.Some? ==> Raw(r.value) == e
    ensures r.None? ==> forall g :: Raw(g) != e
  {
    match (Required(e.orderId), Required(e.internalOrderId), e.phoneNumber, e.address, Required(e.mdu), e.client,
           Required(e.internalStatus), Required(e.lastUpdated))
    case (Some(orderId), Some(internalOrderId), Some(phoneNumber), Some(address), Some(mdu), Some(client),
          Some(internalStatus), Some(lastUpdated)) =>
      Some(GuaranteedSearchEntry(orderId, internalOrderId, phoneNumber, address, mdu, client, e.installer,
                                 internalStatus, lastUpdated))
    case _ => None
  }

  /** A guaranteed entry comes back unchanged from the search entry it stands for. */
  lemma RoundTrip(g: GuaranteedSearchEntry)
    ensures IntoGuaranteed(Raw(g)) == Some(g)
  {
  }

  /**
   * Acceptance field by field: the ids, the MDU, the internal status and
   * the update date found and parsed, the phone, the address and the
   * client found; the installer plays no part.
   */
  lemma Accepted(e: SearchEntry)
    ensures IntoGuaranteed(e).Some? <==>
      e.orderId.Some? && e.orderId.value.Ok? && e.internalOrderId.Some? && e.internalOrderId.value.Ok?
      && e.phoneNumber.Some? && e.address.Some? && e.mdu.Some? && e.mdu.value.Ok? && e.client.Some?
      && e.internalStatus.Some? && e.internalStatus.value.Ok? && e.lastUpdated.Some? && e.lastUpdated.value.Ok?
    ensures IntoGuaranteed(e.(installer := None)).Some? == IntoGuaranteed(e).Some?
  {
  }

  /** An entry with nothing found is rejected. */
  lemma DefaultRejected()
    ensures IntoGuaranteed(Default) == None
  {
  }
}
