/**
 * A service area (`MDU`, a set of neighbouring houses), cut out of a
 * work-schedule cell by the pattern `MDU_([a-zA-Z]+)(\d+)`.
 */
module MduData {
  import opened Base
  import opened Strings
  import opened Numbers
  import opened Matching

  datatype Mdu = Mdu(cityCode: string, number: nat)

  datatype MduError = NoMatch | FailedToParseNumber

  const MduMark: string := "MDU_"

  /** `MDU_` at `i`, the letters `s[i+4..le]`, the digits `s[le..de]`. */
  predicate MduShape(s: string, i: int, le: int, de: int)
  {
    LitAt(s, i, MduMark) && i + 4 < le && AllIn(s, i + 4, le, IsAsciiLetter) && le < de && AllIn(s, le, de, IsDecimalDigit)
  }

  /** No decimal digit is an ASCII letter, so the letter run must stop where the digits start. */
  lemma DigitIsNoLetter(c: char)
    requires IsDecimalDigit(c)
    ensures !IsAsciiLetter(c)
  {
  }

  /** Where a match starts, where its letters end and where its digits end. */
  datatype MduSpans = MduSpans(start: int, lettersEnd: int, digitsEnd: int)

  /** The pattern at `i`: the letters as long as they run, then the digits as long as they run. */
  function MatchAt(s: string, i: int): (r: Option<MduSpans>)
    requires 0 <= i <= |s|
    ensures r.Some? ==> r.value.start == i && i + 4 < r.value.lettersEnd < r.value.digitsEnd <= |s|
  {
    if LitAt(s, i, MduMark) && i + 4 < |s| && IsAsciiLetter(s[i + 4]) then
      var le := RunEnd(s, i + 4, IsAsciiLetter);
      if le < |s| && IsDecimalDigit(s[le]) then Some(MduSpans(i, le, RunEnd(s, le, IsDecimalDigit))) else None
    else None
  }

  /** `MatchAt` finds a match exactly when there is one; its letters are those of every match, its digits the longest. */
  lemma MatchAtSpec(s: string, i: int)
    requires 0 <= i <= |s|
    ensures MatchAt(s, i).Some? ==> var m := MatchAt(s, i).value; m.start == i && MduShape(s, i, m.lettersEnd, m.digitsEnd)
    ensures forall le, de :: MduShape(s, i, le, de) ==>
      MatchAt(s, i).Some? && MatchAt(s, i).value.lettersEnd == le && de <= MatchAt(s, i).value.digitsEnd
  {
    forall le, de | MduShape(s, i, le, de)
      ensures MatchAt(s, i).Some? && MatchAt(s, i).value.lettersEnd == le && de <= MatchAt(s, i).value.digitsEnd
    {
      assert IsAsciiLetter(s[i + 4]);
      var e := RunEnd(s, i + 4, IsAsciiLetter);
      RunEndBound(s, i + 4, le, IsAsciiLetter);
      DigitIsNoLetter(s[le]);
      assert e == le;
      RunEndBound(s, le, de, IsDecimalDigit);
    }
  }

  /** The leftmost match. */
  function Find(s: string): (r: Option<MduSpans>)
    ensures r.Some? ==> 0 <= r.value.start && r.value.start + 4 < r.value.lettersEnd < r.value.digitsEnd <= |s|
  {
    match FirstWhere(0, |s|, i => 0 <= i <= |s| && MatchAt(s, i).Some?)
    case None => None
    case Some(i) => MatchAt(s, i)
  }

  /** `MDU::from_work_schedule`: the letters of the leftmost match, and its digits read as a `u32`. */
  function FromWorkSchedule(s: string): (r: Result<Mdu, MduError>)
  {
    match Find(s)
    case None => Err(NoMatch)
    case Some(m) =>
      if 0 <= m.start && m.start + 4 <= m.lettersEnd <= m.digitsEnd <= |s| then
        match ParseUnsigned(s[m.lettersEnd..m.digitsEnd], U32Bound)
        case Ok(n) => Ok(Mdu(s[m.start + 4..m.lettersEnd], n))
        case Err(_) => Err(FailedToParseNumber)
      else Err(NoMatch)
  }

  /** The leftmost match is a match, and no match starts earlier. */
  lemma FindSpec(s: string)
    ensures Find(s).Some? ==> var m := Find(s).value;
      MduShape(s, m.start, m.lettersEnd, m.digitsEnd) && forall j, le, de :: 0 <= j < m.start ==> !MduShape(s, j, le, de)
    ensures Find(s).None? <==> forall j, le, de :: !MduShape(s, j, le, de)
  {
    var P := i => 0 <= i <= |s| && MatchAt(s, i).Some?;
    forall j, le, de | MduShape(s, j, le, de) ensures 0 <= j < |s| && P(j) {
      MatchAtSpec(s, j);
    }
    if Find(s).Some? {
      MatchAtSpec(s, Find(s).value.start);
    }
  }

  /**
   * Without `MDU_`, letters and digits in that order anywhere there is no
   * area; with them, the city code is the letter run and the number the
   * digit run's value, which must stay below 2^32.
   */
  lemma FromWorkScheduleSpec(s: string)
    ensures FromWorkSchedule(s) == Err(NoMatch) <==> forall j, le, de :: !MduShape(s, j, le, de)
    ensures FromWorkSchedule(s).Ok? ==>
      (exists i, le, de :: MduShape(s, i, le, de) && FromWorkSchedule(s).value.cityCode == s[i + 4..le]
                           && ParseUnsigned(s[le..de], U32Bound) == Ok(FromWorkSchedule(s).value.number))
    ensures FromWorkSchedule(s).Ok? ==>
      (FromWorkSchedule(s).value.number < U32Bound && FromWorkSchedule(s).value.cityCode != []
       && forall k :: 0 <= k < |FromWorkSchedule(s).value.cityCode| ==> IsAsciiLetter(FromWorkSchedule(s).value.cityCode[k]))
  {
    FindSpec(s);
  }

  /** In `MDU_<letters><digits>` the leftmost match starts at 0 and takes all the letters and all the digits. */
  lemma WholeText(letters: string, digits: string)
    requires letters != [] && forall k :: 0 <= k < |letters| ==> IsAsciiLetter(letters[k])
    requires digits != [] && AllAsciiDigits(digits)
    ensures Find(MduMark + letters + digits) == Some(MduSpans(0, 4 + |letters|, 4 + |letters| + |digits|))
  {
    var s := MduMark + letters + digits;
    var le := 4 + |letters|;
    assert LitAt(s, 0, MduMark);
    assert AllIn(s, 4, le, IsAsciiLetter) by {
      forall k | 4 <= k < le ensures IsAsciiLetter(s[k]) { assert s[k] == letters[k - 4]; }
    }
    assert AllIn(s, le, |s|, IsDecimalDigit) by {
      forall k | le <= k < |s| ensures IsDecimalDigit(s[k]) { assert s[k] == digits[k - le] && IsAsciiDigit(s[k]); }
    }
    MatchAtSpec(s, 0);
    assert MduShape(s, 0, le, |s|);
  }

  /** Once the leftmost match is known, the result depends only on its spans. */
  lemma FromSpans(s: string, m: MduSpans)
    requires Find(s) == Some(m) && 0 <= m.start && m.start + 4 <= m.lettersEnd <= m.digitsEnd <= |s|
    ensures FromWorkSchedule(s) == match ParseUnsigned(s[m.lettersEnd..m.digitsEnd], U32Bound)
      case Ok(n) => Ok(Mdu(s[m.start + 4..m.lettersEnd], n))
      case Err(_) => Err(FailedToParseNumber)
  {
  }

  /**
   * `MDU_<letters><digits>` gives the letters and the value of the digits;
   * a value of 2^32 or more fails.
   */
  lemma CodeAndNumber(letters: string, digits: string)
    requires letters != [] && forall k :: 0 <= k < |letters| ==> IsAsciiLetter(letters[k])
    requires digits != [] && AllAsciiDigits(digits)
    ensures FromWorkSchedule(MduMark + letters + digits)
         == if DecimalValue(0, digits) < U32Bound then Ok(Mdu(letters, DecimalValue(0, digits)))
            else Err(FailedToParseNumber)
  {
    var s := MduMark + letters + digits;
    WholeText(letters, digits);
    FromSpans(s, MduSpans(0, 4 + |letters|, |s|));
    assert s[4 + |letters|..|s|] == digits;
    assert s[4..4 + |letters|] == letters;
    ParsePadded([], digits, U32Bound);
    assert [] + digits == digits;
  }

  /** The documented areas `MDU_ZAP00029` and `MDU_ZAP29`: leading zeros are insignificant. */
  lemma Examples()
    ensures FromWorkSchedule(MduMark + "ZAP" + "00029") == Ok(Mdu("ZAP", 29))
    ensures FromWorkSchedule(MduMark + "ZAP" + "29") == Ok(Mdu("ZAP", 29))
  {
    assert DecimalValue(0, "00029") == 29;
    CodeAndNumber("ZAP", "00029");
    assert DecimalValue(0, "29") == 29;
    CodeAndNumber("ZAP", "29");
  }

  /** Digits straight after `MDU_` are no area. */
  lemma DigitsWithoutLetters()
    ensures FromWorkSchedule(MduMark + "00029") == Err(NoMatch)
  {
    var s := MduMark + "00029";
    forall j | 0 <= j <= |s| ensures MatchAt(s, j).None? {
      if j == 0 {
        assert s[4] == '0';
      } else if j + 4 <= |s| {
        assert s[j..j + 4][0] == s[j] && s[j] != 'M';
      }
    }
  }
}
