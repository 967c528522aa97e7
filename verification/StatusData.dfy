/** The provider's order status (`Status`), read from its label on the portal. */
module StatusData {
  import opened Base

  datatype Status = Assigned | InWork | Completed | Declined | Deleted | Rejected | Empty | AcceptedForWork

  datatype StatusError = InvalidStatus(text: string)

  /** The label the portal writes for each status. */
  function Label(st: Status): string
  {
    match st
    case Assigned => "Назначена в график"
    case InWork => "В работе"
    case Completed => "Выполнена"
    case Declined => "Отклонена"
    case Deleted => "Удалена"
    case Rejected => "Отказ"
    case Empty => ""
    case AcceptedForWork => "Принята в работу"
  }

  /** `Status::from_str`: exact comparison with the eight labels, with no trimming or case folding. */
  function FromStr(s: string): (r: Result<Status, StatusError>)
    ensures r.Ok? ==> Label(r.value) == s
    ensures r.Err? <==> forall st: Status :: Label(st) != s
    ensures r.Err? ==> r.error == InvalidStatus(s)
  {
    if s == "Назначена в график" then Ok(Assigned)
    else if s == "В работе" then Ok(InWork)
    else if s == "Выполнена" then Ok(Completed)
    else if s == "Отклонена" then Ok(Declined)
    else if s == "Удалена" then Ok(Deleted)
    else if s == "Отказ" then Ok(Rejected)
    else if s == "" then Ok(Empty)
    else if s == "Принята в работу" then Ok(AcceptedForWork)
    else Err(InvalidStatus(s))
  }

  /** Every label reads back as its status, so the eight labels name eight distinct statuses. */
  lemma LabelRoundTrip(st: Status, other: Status)
    ensures FromStr(Label(st)) == Ok(st)
    ensures Label(st) == Label(other) ==> st == other
  {
    assert FromStr(Label(other)).value == other;
  }

  /** The empty label is the `Empty` status; a label with extra spaces is not a status. */
  lemma ExactMatching()
    ensures FromStr("") == Ok(Empty)
    ensures FromStr(" Отказ") == Err(InvalidStatus(" Отказ"))
  {
  }
}
