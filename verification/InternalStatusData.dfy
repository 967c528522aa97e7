/** The portal's own order status (`InternalStatus`), read from its label. */
module InternalStatusData {
  import opened Base

  datatype InternalStatus = Assigned | Returned | Completed | Rejected | NotActivated | New | Agreed | NotCompleted | Delayed

  datatype InternalStatusError = InvalidStrStatus(text: string)

  /** The label the portal writes for each status. */
  function Label(st: InternalStatus): string
  {
    match st
    case Assigned => "Назначено"
    case Returned => "Возврат (от монтажника)"
    case Completed => "Выполнено"
    case Rejected => "Отказ"
    case NotActivated => "Не активировано"
    case New => "Новая"
    case Agreed => "Договорено"
    case NotCompleted => "Не выполнено"
    case Delayed => "Отложено"
  }

  /** `InternalStatus::from_str`: exact comparison with the nine labels; the empty text is not one of them. */
  function FromStr(s: string): (r: Result<InternalStatus, InternalStatusError>)
    ensures r.Ok? ==> Label(r.value) == s
    ensures r.Err? <==> forall st: InternalStatus :: Label(st) != s
    ensures r.Err? ==> r.error == InvalidStrStatus(s)
  {
    if s == "Назначено" then Ok(Assigned)
    else if s == "Возврат (от монтажника)" then Ok(Returned)
    else if s == "Выполнено" then Ok(Completed)
    else if s == "Отказ" then Ok(Rejected)
    else if s == "Не активировано" then Ok(NotActivated)
    else if s == "Новая" then Ok(New)
    else if s == "Договорено" then Ok(Agreed)
    else if s == "Не выполнено" then Ok(NotCompleted)
    else if s == "Отложено" then Ok(Delayed)
    else Err(InvalidStrStatus(s))
  }

  /** Every label reads back as its status, so the nine labels name nine distinct statuses. */
  lemma LabelRoundTrip(st: InternalStatus, other: InternalStatus)
    ensures FromStr(Label(st)) == Ok(st)
    ensures Label(st) == Label(other) ==> st == other
  {
    assert FromStr(Label(other)).value == other;
  }

  /** The empty text and a padded label are rejected, carrying the text as given. */
  lemma ExactMatching()
    ensures FromStr("") == Err(InvalidStrStatus(""))
    ensures FromStr("Отказ ") == Err(InvalidStrStatus("Отказ "))
  {
  }
}
