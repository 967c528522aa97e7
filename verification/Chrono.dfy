/**
 * The few `chrono` values the records carry. Parsing dates and times
 * against a format, and resolving a local time in the Europe/Kyiv zone,
 * belong to that library and reach the model as parameters; only the
 * error taxonomy and `NaiveTime::from_hms_opt` are spelled out here.
 */
module Chrono {
  import opened Base

  /** `chrono::format::ParseErrorKind`; `Unlisted` stands for the variants the library keeps private. */
  datatype ParseErrorKind = OutOfRange | Impossible | NotEnough | Invalid | TooShort | TooLong | BadFormat | Unlisted

  /** `chrono::ParseError`, which exposes only its kind. */
  datatype ParseError = ParseError(kind: ParseErrorKind)

  /** A time of day. */
  datatype NaiveTime = NaiveTime(hour: nat, minute: nat, second: nat)

  /** A calendar date, as the date parser hands it over. */
  datatype NaiveDate = NaiveDate(year: int, month: nat, day: nat)

  /** A date and time with a fixed UTC offset, as the date-time parser hands it over. */
  datatype DateTime = DateTime(date: NaiveDate, time: NaiveTime, offsetSeconds: int)

  /** `NaiveTime::from_hms_opt`: a time exists for hours below 24, minutes and seconds below 60. */
  function FromHmsOpt(hour: nat, minute: nat, second: nat): (r: Option<NaiveTime>)
    ensures r.Some? <==> hour < 24 && minute < 60 && second < 60
    ensures r.Some? ==> r.value.hour == hour && r.value.minute == minute && r.value.second == second
  {
    if hour < 24 && minute < 60 && second < 60 then Some(NaiveTime(hour, minute, second)) else None
  }
}
