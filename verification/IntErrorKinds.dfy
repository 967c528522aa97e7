/**
 * `SerializableIntErrorKind`: a copy of the standard library's integer
 * parse error kinds that can be serialised, and the conversion into it.
 */
module IntErrorKinds {
  import Numbers
  import opened Base

  datatype SerializableIntErrorKind = Empty | InvalidDigit | PosOverflow | NegOverflow | Zero

  /**
   * `From<IntErrorKind>`: every kind to the variant of the same name. The
   * standard library's kind has no further variant, so the wildcard arm
   * of the conversion cannot be reached and has no counterpart here.
   */
  function FromIntErrorKind(k: Numbers.IntErrorKind): (r: SerializableIntErrorKind)
    ensures ToIntErrorKind(r) == k
  {
    match k
    case Empty => Empty
    case InvalidDigit => InvalidDigit
    case PosOverflow => PosOverflow
    case NegOverflow => NegOverflow
    case Zero => Zero
  }

  /** The standard library's kind a serialisable kind stands for. */
  function ToIntErrorKind(k: SerializableIntErrorKind): (r: Numbers.IntErrorKind)
  {
    match k
    case Empty => Numbers.Empty
    case InvalidDigit => Numbers.InvalidDigit
    case PosOverflow => Numbers.PosOverflow
    case NegOverflow => Numbers.NegOverflow
    case Zero => Numbers.Zero
  }

  /** No two kinds become the same serialisable kind, and every serialisable kind is reached. */
  lemma FromIntErrorKindBijective(a: Numbers.IntErrorKind, b: Numbers.IntErrorKind, c: SerializableIntErrorKind)
    ensures FromIntErrorKind(a) == FromIntErrorKind(b) ==> a == b
    ensures FromIntErrorKind(ToIntErrorKind(c)) == c
  {
    assert ToIntErrorKind(FromIntErrorKind(a)) == a && ToIntErrorKind(FromIntErrorKind(b)) == b;
  }

  /** A numeric text with a character that is not a digit is reported as `InvalidDigit`. */
  lemma NonDigitText(s: string, bound: nat)
    requires Numbers.Unsigned(s) != [] && !Numbers.IsAsciiDigit(Numbers.Unsigned(s)[0])
    ensures Numbers.ParseUnsigned(s, bound).Err?
    ensures FromIntErrorKind(Numbers.ParseUnsigned(s, bound).error) == InvalidDigit
  {
    Numbers.ParseUnsignedInvalidHead(s, bound);
  }

  /** A value of digits too large for the type is reported as `PosOverflow`. */
  lemma TooLargeText(s: string, bound: nat)
    requires bound > 0 && s != [] && Numbers.AllAsciiDigits(s) && Numbers.DecimalValue(0, s) >= bound
    ensures Numbers.ParseUnsigned(s, bound).Err?
    ensures FromIntErrorKind(Numbers.ParseUnsigned(s, bound).error) == PosOverflow
  {
    Numbers.ParseUnsignedOverflow(s, bound);
  }

  /**
   * `<uN>::from_str(text).map_err(|err| err.kind().clone().into())`, the
   * way every parser reads a number: the value, or the serialisable kind
   * of the parse error.
   */
  function FromStrUnsigned(text: string, bound: nat): (r: Result<nat, SerializableIntErrorKind>)
    ensures r.Ok? <==> Numbers.ParseUnsigned(text, bound).Ok?
    ensures r.Ok? ==> r.value == Numbers.ParseUnsigned(text, bound).value && r.value < bound
    ensures r.Err? ==> ToIntErrorKind(r.error) == Numbers.ParseUnsigned(text, bound).error
  {
    match Numbers.ParseUnsigned(text, bound)
    case Ok(n) => Ok(n)
    case Err(k) => Err(FromIntErrorKind(k))
  }
}
