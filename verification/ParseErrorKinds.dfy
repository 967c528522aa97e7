/**
 * `SerializableParseErrorKind`: a serialisable copy of `chrono`'s parse
 * error kinds, with an `Unknown` for anything the library may add.
 */
module ParseErrorKinds {
  import opened Base
  import Chrono

  datatype SerializableParseErrorKind = OutOfRange | Impossible | NotEnough | Invalid | TooShort | TooLong | BadFormat | Unknown

  /** The derived `Default`. */
  const Default: SerializableParseErrorKind := Unknown

  /** The seven named kinds of `chrono`, in declaration order. */
  const NamedKinds: seq<Chrono.ParseErrorKind> := [Chrono.OutOfRange, Chrono.Impossible, Chrono.NotEnough,
    Chrono.Invalid, Chrono.TooShort, Chrono.TooLong, Chrono.BadFormat]

  /** The library's kind a named serialisable kind stands for (`None` for `Unknown`). */
  function ToChrono(k: SerializableParseErrorKind): (r: Option<Chrono.ParseErrorKind>)
  {
    match k
    case OutOfRange => Some(Chrono.OutOfRange)
    case Impossible => Some(Chrono.Impossible)
    case NotEnough => Some(Chrono.NotEnough)
    case Invalid => Some(Chrono.Invalid)
    case TooShort => Some(Chrono.TooShort)
    case TooLong => Some(Chrono.TooLong)
    case BadFormat => Some(Chrono.BadFormat)
    case Unknown => None
  }

  /** `From<ParseErrorKind>`: each named kind to the variant of its name, anything else to `Unknown`. */
  function FromKind(k: Chrono.ParseErrorKind): (r: SerializableParseErrorKind)
    ensures r == Unknown <==> k !in NamedKinds
    ensures r != Unknown ==> ToChrono(r) == Some(k)
  {
    match k
    case OutOfRange => OutOfRange
    case Impossible => Impossible
    case NotEnough => NotEnough
    case Invalid => Invalid
    case TooShort => TooShort
    case TooLong => TooLong
    case BadFormat => BadFormat
    case _ => Unknown
  }

  /** `From<ParseError>`: the same table applied to the error's kind. */
  function FromError(e: Chrono.ParseError): (r: SerializableParseErrorKind)
    ensures r == Unknown <==> e.kind !in NamedKinds
  {
    match e.kind
    case OutOfRange => OutOfRange
    case Impossible => Impossible
    case NotEnough => NotEnough
    case Invalid => Invalid
    case TooShort => TooShort
    case TooLong => TooLong
    case BadFormat => BadFormat
    case _ => Unknown
  }

  /** Both conversions give the same kind for the same error. */
  lemma ConversionsAgree(e: Chrono.ParseError)
    ensures FromError(e) == FromKind(e.kind)
  {
  }

  /** Converting back and forth: every named kind survives, and `Unknown` is what the default and the unnamed kinds share. */
  lemma FromKindRoundTrip(s: SerializableParseErrorKind)
    ensures s != Unknown ==> ToChrono(s).Some? && FromKind(ToChrono(s).value) == s
    ensures FromKind(Chrono.Unlisted) == Default
  {
  }
}
