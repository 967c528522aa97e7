/**
 * The window of time an order is scheduled for, read either from the
 * phrase `с HH:MM до HH:MM` anywhere in a text, or from two `HH:MM` cells
 * of the work schedule.
 */
module TimeConstrainsData {
  import opened Base
  import opened Strings
  import opened Numbers
  import opened Matching
  import opened Chrono

  datatype TimeConstrains = TimeConstrains(from: NaiveTime, to: NaiveTime)

  datatype TimeConstrainsError = NoMatch | FailedToParse | InvalidNaiveTime | NoHourElement | NoMinuteElement

  /** Every component reads as a `u32`. */
  predicate AllParse(fromHour: string, fromMinute: string, toHour: string, toMinute: string)
  {
    ParseUnsigned(fromHour, U32Bound).Ok? && ParseUnsigned(fromMinute, U32Bound).Ok?
    && ParseUnsigned(toHour, U32Bound).Ok? && ParseUnsigned(toMinute, U32Bound).Ok?
  }

  /** The value of a component that reads as a `u32`. */
  function U32(s: string): nat
    requires ParseUnsigned(s, U32Bound).Ok?
  {
    ParseUnsigned(s, U32Bound).value
  }

  /**
   * What both constructors do once they hold the four components: read
   * each as a `u32` in order, then build the two times with zero seconds.
   * Any component that does not read is `FailedToParse`, before any time
   * is checked; a time out of range is `InvalidNaiveTime`.
   */
  function FromComponents(fromHour: string, fromMinute: string, toHour: string, toMinute: string)
    : (r: Result<TimeConstrains, TimeConstrainsError>)
    ensures r.Err? ==> r.error == FailedToParse || r.error == InvalidNaiveTime
    ensures r == Err(FailedToParse) <==> !AllParse(fromHour, fromMinute, toHour, toMinute)
    ensures r.Ok? <==> (AllParse(fromHour, fromMinute, toHour, toMinute)
                        && U32(fromHour) < 24 && U32(fromMinute) < 60 && U32(toHour) < 24 && U32(toMinute) < 60)
    ensures r.Ok? ==> (AllParse(fromHour, fromMinute, toHour, toMinute)
                       && r.value.from == NaiveTime(U32(fromHour), U32(fromMinute), 0)
                       && r.value.to == NaiveTime(U32(toHour), U32(toMinute), 0))
  {
    match ParseUnsigned(fromHour, U32Bound)
    case Err(_) => Err(FailedToParse)
    case Ok(fh) =>
      match ParseUnsigned(fromMinute, U32Bound)
      case Err(_) => Err(FailedToParse)
      case Ok(fm) =>
        match ParseUnsigned(toHour, U32Bound)
        case Err(_) => Err(FailedToParse)
        case Ok(th) =>
          match ParseUnsigned(toMinute, U32Bound)
          case Err(_) => Err(FailedToParse)
          case Ok(tm) =>
            match FromHmsOpt(fh, fm, 0)
            case None => Err(InvalidNaiveTime)
            case Some(from) =>
              match FromHmsOpt(th, tm, 0)
              case None => Err(InvalidNaiveTime)
              case Some(to) => Ok(TimeConstrains(from, to))
  }

  /** The sixteen characters `с DD:DD до DD:DD` start at `i`, each `D` a Unicode decimal digit. */
  predicate WindowAt(s: string, i: int)
  {
    0 <= i && i + 16 <= |s|
    && s[i] == 'с' && s[i + 1] == ' '
    && IsDecimalDigit(s[i + 2]) && IsDecimalDigit(s[i + 3]) && s[i + 4] == ':'
    && IsDecimalDigit(s[i + 5]) && IsDecimalDigit(s[i + 6])
    && s[i + 7] == ' ' && s[i + 8] == 'д' && s[i + 9] == 'о' && s[i + 10] == ' '
    && IsDecimalDigit(s[i + 11]) && IsDecimalDigit(s[i + 12]) && s[i + 13] == ':'
    && IsDecimalDigit(s[i + 14]) && IsDecimalDigit(s[i + 15])
  }

  /** Where the leftmost window starts. */
  function Window(text: string): (r: Option<int>)
    ensures r.Some? ==> 0 <= r.value < |text| && WindowAt(text, r.value)
  {
    FirstWhere(0, |text|, i => WindowAt(text, i))
  }

  /** The leftmost window is a window, none starts before it, and there is none only when no window exists. */
  lemma WindowLeftmost(text: string)
    ensures Window(text).Some? ==> WindowAt(text, Window(text).value) && forall j :: 0 <= j < Window(text).value ==> !WindowAt(text, j)
    ensures Window(text).None? <==> forall i :: !WindowAt(text, i)
  {
    var P := i => WindowAt(text, i);
    forall i | WindowAt(text, i) ensures 0 <= i < |text| && P(i) { }
  }

  /** A window with none before it is the leftmost one. */
  lemma WindowAtStart(text: string, i: int)
    requires WindowAt(text, i) && forall j :: 0 <= j < i ==> !WindowAt(text, j)
    ensures Window(text) == Some(i)
  {
    WindowLeftmost(text);
  }

  /** `TimeConstrains::from`: the four digit pairs of the leftmost window read as components. */
  function From(text: string): (r: Result<TimeConstrains, TimeConstrainsError>)
  {
    match Window(text)
    case None => Err(NoMatch)
    case Some(i) =>
      if 0 <= i && i + 16 <= |text| then
        FromComponents(text[i + 2..i + 4], text[i + 5..i + 7], text[i + 11..i + 13], text[i + 14..i + 16])
      else Err(NoMatch)
  }

  /**
   * Without a window there is no match; with one, the result is that of
   * the components of the leftmost window.
   */
  lemma FromSpec(text: string, i: int)
    requires WindowAt(text, i) && forall j :: 0 <= j < i ==> !WindowAt(text, j)
    ensures From(text) == FromComponents(text[i + 2..i + 4], text[i + 5..i + 7], text[i + 11..i + 13], text[i + 14..i + 16])
  {
    WindowAtStart(text, i);
  }

  /** A text without the phrase is `NoMatch`, and a text with it never is. */
  lemma NoMatchExactly(text: string)
    ensures From(text) == Err(NoMatch) <==> forall i :: !WindowAt(text, i)
  {
    WindowLeftmost(text);
  }

  /** `TimeConstrains::from_work_schedule`: each value split on `:`, its first two pieces the hour and the minute. */
  function FromWorkSchedule(rawFrom: string, rawTo: string): (r: Result<TimeConstrains, TimeConstrainsError>)
    ensures r != Err(NoHourElement) && r != Err(NoMatch)
    ensures r == Err(NoMinuteElement) <==> ':' !in rawFrom || ':' !in rawTo
  {
    var from := Split(rawFrom, ':');
    var to := Split(rawTo, ':');
    if |from| < 1 then Err(NoHourElement)
    else if |from| < 2 then Err(NoMinuteElement)
    else if |to| < 1 then Err(NoHourElement)
    else if |to| < 2 then Err(NoMinuteElement)
    else FromComponents(from[0], from[1], to[0], to[1])
  }

  /** The first two pieces of `h:m` followed by nothing or by more `:`-pieces are `h` and `m`. */
  lemma {:induction false} SplitHourMinute(h: string, m: string, tail: string)
    requires ':' !in h && ':' !in m && (tail == [] || tail[0] == ':')
    ensures |Split(h + ":" + m + tail, ':')| >= 2
    ensures Split(h + ":" + m + tail, ':')[0] == h && Split(h + ":" + m + tail, ':')[1] == m
  {
    var s := h + ":" + m + tail;
    assert s == h + [':'] + (m + tail);
    FindCharAfter(h, ':', m + tail);
    assert s[..|h|] == h && s[|h| + 1..] == m + tail;
    if tail == [] {
      assert m + tail == m;
    } else {
      assert m + tail == m + [':'] + tail[1..];
      FindCharAfter(m, ':', tail[1..]);
      assert (m + tail)[..|m|] == m;
    }
  }

  /**
   * Values of the form `hour:minute`, possibly with further `:`-pieces,
   * give the components `hour` and `minute`; anything after the second
   * piece is ignored.
   */
  lemma Components(fromHour: string, fromMinute: string, fromTail: string, toHour: string, toMinute: string, toTail: string)
    requires ':' !in fromHour && ':' !in fromMinute && (fromTail == [] || fromTail[0] == ':')
    requires ':' !in toHour && ':' !in toMinute && (toTail == [] || toTail[0] == ':')
    ensures FromWorkSchedule(fromHour + ":" + fromMinute + fromTail, toHour + ":" + toMinute + toTail)
         == FromComponents(fromHour, fromMinute, toHour, toMinute)
  {
    SplitHourMinute(fromHour, fromMinute, fromTail);
    SplitHourMinute(toHour, toMinute, toTail);
  }

  /** `:00` has an empty hour, which fails to read as a number: `NoHourElement` never comes of it. */
  lemma EmptyHour(fromMinute: string, rawTo: string)
    requires ':' !in fromMinute && ':' in rawTo
    ensures FromWorkSchedule(":" + fromMinute, rawTo) == Err(FailedToParse)
  {
    SplitHourMinute([], fromMinute, []);
    assert [] + ":" + fromMinute + [] == ":" + fromMinute;
  }

  /** Two-digit pairs written into the phrase form a window at its start, whose pairs are those written. */
  lemma {:induction false} PhraseWindow(fromHour: string, fromMinute: string, toHour: string, toMinute: string)
    requires |fromHour| == 2 && IsDecimalDigit(fromHour[0]) && IsDecimalDigit(fromHour[1])
    requires |fromMinute| == 2 && IsDecimalDigit(fromMinute[0]) && IsDecimalDigit(fromMinute[1])
    requires |toHour| == 2 && IsDecimalDigit(toHour[0]) && IsDecimalDigit(toHour[1])
    requires |toMinute| == 2 && IsDecimalDigit(toMinute[0]) && IsDecimalDigit(toMinute[1])
    ensures var text := "с " + fromHour + ":" + fromMinute + " до " + toHour + ":" + toMinute;
      WindowAt(text, 0) && text[2..4] == fromHour && text[5..7] == fromMinute && text[11..13] == toHour && text[14..16] == toMinute
  {
  }

  /** Values that are exactly `hour:minute` give those components. */
  lemma ComponentsExact(fromHour: string, fromMinute: string, toHour: string, toMinute: string)
    requires ':' !in fromHour && ':' !in fromMinute && ':' !in toHour && ':' !in toMinute
    ensures FromWorkSchedule(fromHour + ":" + fromMinute, toHour + ":" + toMinute)
         == FromComponents(fromHour, fromMinute, toHour, toMinute)
  {
    Components(fromHour, fromMinute, [], toHour, toMinute, []);
    assert fromHour + ":" + fromMinute + [] == fromHour + ":" + fromMinute;
    assert toHour + ":" + toMinute + [] == toHour + ":" + toMinute;
  }

  /** A pair of decimal digits holds no `:`. */
  lemma DigitPairNoColon(d: string)
    requires |d| == 2 && IsDecimalDigit(d[0]) && IsDecimalDigit(d[1])
    ensures ':' !in d
  {
    assert d == [d[0], d[1]];
  }

  /** Two two-digit pairs in the phrase and in the cells give the same window. */
  lemma ConstructorsAgree(fromHour: string, fromMinute: string, toHour: string, toMinute: string)
    requires |fromHour| == 2 && IsDecimalDigit(fromHour[0]) && IsDecimalDigit(fromHour[1])
    requires |fromMinute| == 2 && IsDecimalDigit(fromMinute[0]) && IsDecimalDigit(fromMinute[1])
    requires |toHour| == 2 && IsDecimalDigit(toHour[0]) && IsDecimalDigit(toHour[1])
    requires |toMinute| == 2 && IsDecimalDigit(toMinute[0]) && IsDecimalDigit(toMinute[1])
    ensures From("с " + fromHour + ":" + fromMinute + " до " + toHour + ":" + toMinute)
         == FromWorkSchedule(fromHour + ":" + fromMinute, toHour + ":" + toMinute)
  {
    PhraseWindow(fromHour, fromMinute, toHour, toMinute);
    FromSpec("с " + fromHour + ":" + fromMinute + " до " + toHour + ":" + toMinute, 0);
    DigitPairNoColon(fromHour);
    DigitPairNoColon(fromMinute);
    DigitPairNoColon(toHour);
    DigitPairNoColon(toMinute);
    ComponentsExact(fromHour, fromMinute, toHour, toMinute);
  }

  /** Two ASCII digits always read, as their two-digit value. */
  lemma AsciiPair(d: string)
    requires |d| == 2 && IsAsciiDigit(d[0]) && IsAsciiDigit(d[1])
    ensures ParseUnsigned(d, U32Bound) == Ok(10 * DigitValue(d[0]) + DigitValue(d[1]))
  {
    var first := DigitValue(d[0]);
    assert Unsigned(d) == d;
    assert Accumulate(d, 0, U32Bound) == Accumulate(d[1..], first, U32Bound);
    assert Accumulate(d[1..], first, U32Bound) == Accumulate(d[1..][1..], first * 10 + DigitValue(d[1]), U32Bound);
    assert d[1..][1..] == [];
  }

  /** With ASCII digits only, a window always reads: `FailedToParse` needs a digit of another script. */
  lemma AsciiWindowReads(text: string)
    requires forall k :: 0 <= k < |text| && IsDecimalDigit(text[k]) ==> IsAsciiDigit(text[k])
    ensures From(text) != Err(FailedToParse)
  {
    WindowLeftmost(text);
    if Window(text).Some? {
      var i := Window(text).value;
      var d := text[i + 2..i + 4];
      assert IsAsciiDigit(text[i + 2]) && IsAsciiDigit(text[i + 3]);
      AsciiPair(text[i + 2..i + 4]);
      AsciiPair(text[i + 5..i + 7]);
      AsciiPair(text[i + 11..i + 13]);
      AsciiPair(text[i + 14..i + 16]);
    }
  }

  /** Arabic-Indic digits match `\d` but do not read as a `u32`, so a well-shaped phrase can fail to parse. */
  lemma OtherScriptDigits()
    ensures From("с " + "\U{660}\U{669}" + ":" + "00" + " до " + "17" + ":" + "29") == Err(FailedToParse)
  {
    ArabicIndicDigits();
    PhraseWindow("\U{660}\U{669}", "00", "17", "29");
    FromSpec("с " + "\U{660}\U{669}" + ":" + "00" + " до " + "17" + ":" + "29", 0);
    assert !AllParse("\U{660}\U{669}", "00", "17", "29") by {
      ParseUnsignedInvalidHead("\U{660}\U{669}", U32Bound);
    }
  }

  /** The documented window `с 10:00 до 10:29`, and the same from the cells `10:00` and `10:29`. */
  lemma DocumentedExample()
    ensures From("с " + "10" + ":" + "00" + " до " + "10" + ":" + "29")
         == Ok(TimeConstrains(NaiveTime(10, 0, 0), NaiveTime(10, 29, 0)))
    ensures FromWorkSchedule("10" + ":" + "00", "10" + ":" + "29")
         == Ok(TimeConstrains(NaiveTime(10, 0, 0), NaiveTime(10, 29, 0)))
  {
    AsciiPair("10");
    AsciiPair("00");
    AsciiPair("29");
    ConstructorsAgree("10", "00", "10", "29");
    ComponentsExact("10", "00", "10", "29");
  }

  /** Without the space before `до` there is no window. */
  lemma MissingSpace()
    ensures From("с 17:00до 17:29") == Err(NoMatch)
  {
    NoMatchExactly("с 17:00до 17:29");
  }

  /** `99:99` reads but is no time of day. */
  lemma OutOfRangeTime()
    ensures FromWorkSchedule("99" + ":" + "99", "17" + ":" + "29") == Err(InvalidNaiveTime)
    ensures FromWorkSchedule("17" + ":" + "00", "99" + ":" + "99") == Err(InvalidNaiveTime)
  {
    AsciiPair("99");
    AsciiPair("17");
    AsciiPair("29");
    AsciiPair("00");
    ComponentsExact("99", "99", "17", "29");
    ComponentsExact("17", "00", "99", "99");
  }

  /** An hour given as digits whose value does not fit a `u32` fails to parse, whatever the other value holds. */
  lemma OverflowingHour(fromHour: string, fromMinute: string, rawTo: string)
    requires fromHour != [] && AllAsciiDigits(fromHour) && DecimalValue(0, fromHour) >= U32Bound
    requires ':' !in fromMinute && ':' in rawTo
    ensures FromWorkSchedule(fromHour + ":" + fromMinute, rawTo) == Err(FailedToParse)
  {
    assert ':' !in fromHour by {
      forall k | 0 <= k < |fromHour| ensures fromHour[k] != ':' { assert IsAsciiDigit(fromHour[k]); }
    }
    SplitHourMinute(fromHour, fromMinute, []);
    assert fromHour + ":" + fromMinute + [] == fromHour + ":" + fromMinute;
    ParseUnsignedOverflow(fromHour, U32Bound);
  }
}
