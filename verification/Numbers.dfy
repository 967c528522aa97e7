/**
 * `u8::from_str` and `u32::from_str` from Rust's core library: the parse
 * every numeric field of a request goes through.
 */
module Numbers {
  import opened Base

  /** Rust's `core::num::IntErrorKind`. */
  datatype IntErrorKind = Empty | InvalidDigit | PosOverflow | NegOverflow | Zero

  /** One past the largest `u8`. */
  const U8Bound: nat := 0x100
  /** One past the largest `u32`. */
  const U32Bound: nat := 0x1_0000_0000

  predicate IsAsciiDigit(c: char) { '0' <= c <= '9' }

  predicate AllAsciiDigits(s: string)
  {
    forall i :: 0 <= i < |s| ==> IsAsciiDigit(s[i])
  }

  function DigitValue(c: char): (d: nat)
    requires IsAsciiDigit(c)
    ensures d < 10
  {
    (c as int) - ('0' as int)
  }

  function DigitChar(d: nat): (c: char)
    requires d < 10
    ensures IsAsciiDigit(c) && DigitValue(c) == d
  {
    (('0' as int) + d) as char
  }

  /** The value of the decimal digits `ds` read after the value `acc`. */
  function DecimalValue(acc: nat, ds: string): nat
    requires AllAsciiDigits(ds)
    decreases |ds|
  {
    if ds == [] then acc else DecimalValue(acc * 10 + DigitValue(ds[0]), ds[1..])
  }

  /** What follows an optional leading `+`. */
  function Unsigned(s: string): (ds: string)
    ensures ds == s || (s != [] && s[0] == '+' && ds == s[1..])
  {
    if s != [] && s[0] == '+' then s[1..] else s
  }

  /**
   * Reads the digits `ds` after the value `acc`, one character at a time:
   * a character that is not a digit is `InvalidDigit`; a value that
   * reaches `bound` is `PosOverflow`.
   */
  function Accumulate(ds: string, acc: nat, bound: nat): (r: Result<nat, IntErrorKind>)
    ensures r.Ok? ==> AllAsciiDigits(ds) && r.value == DecimalValue(acc, ds)
    ensures r.Ok? && ds != [] ==> r.value < bound
    ensures r.Err? ==> r.error == InvalidDigit || r.error == PosOverflow
  {
    if ds == [] then Ok(acc)
    else if !IsAsciiDigit(ds[0]) then Err(InvalidDigit)
    else
      var next := acc * 10 + DigitValue(ds[0]);
      if next >= bound then Err(PosOverflow)
      else Accumulate(ds[1..], next, bound)
  }

  /**
   * `from_str` of an unsigned integer type whose values lie below `bound`:
   * an optional `+`, then at least one ASCII digit; a lone sign and a `-`
   * are invalid digits.
   */
  function ParseUnsigned(s: string, bound: nat): (r: Result<nat, IntErrorKind>)
    ensures r.Ok? ==> r.value < bound
    ensures r == Err(Empty) <==> s == []
  {
    if s == [] then Err(Empty)
    else if s == "+" || s == "-" then Err(InvalidDigit)
    else Accumulate(Unsigned(s), 0, bound)
  }

  lemma {:induction false} DecimalValueAtLeast(acc: nat, ds: string)
    requires AllAsciiDigits(ds)
    ensures DecimalValue(acc, ds) >= acc
    decreases |ds|
  {
    if ds != [] {
      DecimalValueAtLeast(acc * 10 + DigitValue(ds[0]), ds[1..]);
    }
  }

  /** Reading digits succeeds exactly when they are all digits and their value stays below the bound. */
  lemma {:induction false} AccumulateExact(ds: string, acc: nat, bound: nat)
    requires acc < bound
    ensures Accumulate(ds, acc, bound).Ok? <==> AllAsciiDigits(ds) && DecimalValue(acc, ds) < bound
    ensures AllAsciiDigits(ds) && DecimalValue(acc, ds) >= bound ==> Accumulate(ds, acc, bound) == Err(PosOverflow)
  {
    if ds != [] && IsAsciiDigit(ds[0]) {
      var next := acc * 10 + DigitValue(ds[0]);
      if next < bound {
        AccumulateExact(ds[1..], next, bound);
      } else if AllAsciiDigits(ds) {
        DecimalValueAtLeast(next, ds[1..]);
      }
    }
  }

  /** A text parses exactly when it is an optional `+` and digits whose value is below the bound; the result is that value. */
  lemma ParseUnsignedOk(s: string, bound: nat)
    requires bound > 0
    ensures ParseUnsigned(s, bound).Ok? <==>
      Unsigned(s) != [] && AllAsciiDigits(Unsigned(s)) && DecimalValue(0, Unsigned(s)) < bound
    ensures ParseUnsigned(s, bound).Ok? ==> ParseUnsigned(s, bound).value == DecimalValue(0, Unsigned(s))
  {
    AccumulateExact(Unsigned(s), 0, bound);
    if s == "-" { assert !IsAsciiDigit(Unsigned(s)[0]); }
  }

  /** Digits whose value does not fit the type are `PosOverflow`, whatever their count. */
  lemma ParseUnsignedOverflow(s: string, bound: nat)
    requires bound > 0 && s != [] && AllAsciiDigits(s) && DecimalValue(0, s) >= bound
    ensures ParseUnsigned(s, bound) == Err(PosOverflow)
  {
    AccumulateExact(s, 0, bound);
    assert IsAsciiDigit(s[0]);
  }

  /** A text whose first character (after an optional `+`) is not a digit is `InvalidDigit`. */
  lemma ParseUnsignedInvalidHead(s: string, bound: nat)
    requires Unsigned(s) != [] && !IsAsciiDigit(Unsigned(s)[0])
    ensures ParseUnsigned(s, bound) == Err(InvalidDigit)
  {
  }

  lemma {:induction false} DecimalValueAppend(acc: nat, ds: string, c: char)
    requires AllAsciiDigits(ds) && IsAsciiDigit(c)
    ensures AllAsciiDigits(ds + [c])
    ensures DecimalValue(acc, ds + [c]) == DecimalValue(acc, ds) * 10 + DigitValue(c)
    decreases |ds|
  {
    if ds != [] {
      assert (ds + [c])[1..] == ds[1..] + [c];
      DecimalValueAppend(acc * 10 + DigitValue(ds[0]), ds[1..], c);
    }
  }

  /** The decimal text of `n`, as `u32::to_string` writes it. */
  function DecimalString(n: nat): (s: string)
    ensures s != [] && AllAsciiDigits(s)
    ensures DecimalValue(0, s) == n
  {
    if n < 10 then
      [DigitChar(n)]
    else
      var init := DecimalString(n / 10);
      DecimalValueAppend(0, init, DigitChar(n % 10));
      init + [DigitChar(n % 10)]
  }

  /** Printing a value of the type and parsing it back gives the value. */
  lemma ParseDecimalString(n: nat, bound: nat)
    requires n < bound
    ensures ParseUnsigned(DecimalString(n), bound) == Ok(n)
  {
    var s := DecimalString(n);
    assert Unsigned(s) == s by { assert IsAsciiDigit(s[0]); }
    ParseUnsignedOk(s, bound);
  }

  lemma {:induction false} AccumulateZeros(z: string, ds: string, bound: nat)
    requires bound > 0
    requires forall i :: 0 <= i < |z| ==> z[i] == '0'
    ensures Accumulate(z + ds, 0, bound) == Accumulate(ds, 0, bound)
  {
    if z == [] {
      assert z + ds == ds;
    } else {
      assert (z + ds)[0] == '0' && (z + ds)[1..] == z[1..] + ds;
      assert DigitValue('0') == 0;
      AccumulateZeros(z[1..], ds, bound);
    }
  }

  /** Leading zeros do not change the parsed value: "00029" and "29" are both 29. */
  lemma LeadingZeros(z: string, ds: string, bound: nat)
    requires bound > 0 && ds != [] && AllAsciiDigits(ds)
    requires forall i :: 0 <= i < |z| ==> z[i] == '0'
    ensures ParseUnsigned(z + ds, bound) == ParseUnsigned(ds, bound)
  {
    AccumulateZeros(z, ds, bound);
    assert IsAsciiDigit(ds[0]);
    if z != [] { assert (z + ds)[0] == '0'; }
    assert Unsigned(z + ds) == z + ds && Unsigned(ds) == ds;
    assert z + ds != "+" && z + ds != "-" && ds != "+" && ds != "-" by {
      assert (z + ds)[0] != '+' && (z + ds)[0] != '-';
      assert ds[0] != '+' && ds[0] != '-';
    }
  }

  /** Digits after any number of zeros read as the digits' value, or overflow when that value does not fit. */
  lemma ParsePadded(zeros: string, digits: string, bound: nat)
    requires bound > 0 && digits != [] && AllAsciiDigits(digits)
    requires forall i :: 0 <= i < |zeros| ==> zeros[i] == '0'
    ensures ParseUnsigned(zeros + digits, bound)
         == if DecimalValue(0, digits) < bound then Ok(DecimalValue(0, digits)) else Err(PosOverflow)
  {
    LeadingZeros(zeros, digits, bound);
    ParseUnsignedOk(digits, bound);
    assert Unsigned(digits) == digits by { assert IsAsciiDigit(digits[0]); }
    if DecimalValue(0, digits) >= bound {
      ParseUnsignedOverflow(digits, bound);
    }
  }
}
