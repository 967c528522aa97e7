/**
 * The client's address (`Address`): built from four parts, or cut out of
 * a work-schedule line by the pattern
 *
 *   (?P<city>.+),\s+(?P<street>.+) д\.(?P<building>\S+), кв\.(\{'uk': '(?P<failover_apartment>\S+)'|(?P<apartment>\S+))
 *
 * The matcher below follows that pattern level by level. Each level
 * `MatchX(s, p)` answers whether the rest of the pattern from that level
 * on can match at `p`, and with which spans; the declarative `XShape`
 * predicates say what a match of that rest is.
 */
module AddressData {
  import opened Base
  import opened Strings
  import opened Matching

  datatype Address = Address(city: string, street: string, building: string, apartment: string)

  datatype AddressError = NoMatch

  /** The characters `from_parts` deletes from an apartment, the debris of a `{'uk': '1'` wrapper. */
  const ApartmentDebris: set<char> := {'u', 'k', '{', ':', '\'', ' '}

  /** The word "street" the corrections drop, with its trailing space. */
  const StreetWord: string := "вулиця "
  /** A street name carrying its old district, and the name it is corrected to. */
  const OldZernova: string := "Зернова (Ленінський)"
  const NewZernova: string := "Зернова"

  /** The street-name corrections, applied in this order: double spaces, the word "street", the old district. */
  function TransformStreet(street: string): (r: string)
    ensures !Contains(street, "  ") && !Contains(street, StreetWord) && !Contains(street, OldZernova) ==> r == street
  {
    ReplaceAll(ReplaceAll(ReplaceAll(street, "  ", ""), StreetWord, ""), OldZernova, NewZernova)
  }

  /** `Address::from_parts`: city and building as given, the street corrected, the apartment stripped of debris. */
  function FromParts(city: string, street: string, building: string, apartment: string): (r: Address)
    ensures r.city == city && r.building == building
    ensures forall i :: 0 <= i < |r.apartment| ==> r.apartment[i] !in ApartmentDebris
    ensures forall i :: 0 <= i < |r.apartment| ==> r.apartment[i] in apartment
    ensures (forall i :: 0 <= i < |apartment| ==> apartment[i] !in ApartmentDebris) ==> r.apartment == apartment
    ensures r.street == TransformStreet(street)
  {
    if forall i :: 0 <= i < |apartment| ==> apartment[i] !in ApartmentDebris then
      RemoveCharsKeepsOthers(apartment, ApartmentDebris);
      Address(city, TransformStreet(street), building, RemoveChars(apartment, ApartmentDebris))
    else
      Address(city, TransformStreet(street), building, RemoveChars(apartment, ApartmentDebris))
  }

  /**
   * How both request builders assemble an address from a city, an address
   * line and an apartment: street and building are the first two
   * comma-separated pieces of the line; a line without a comma has no
   * second piece, and unwrapping it panics.
   */
  function FromLine(city: string, line: string, apartment: string): (r: Outcome<Address>)
    ensures r.Panic? <==> ',' !in line
    ensures r.Panic? ==> r.message == UnwrapNone
    ensures r.Done? ==>
      exists k :: 0 <= k < |line| && line[k] == ',' && ',' !in line[..k]
        && r.value == FromParts(city, line[..k], Split(line[k + 1..], ',')[0], apartment)
  {
    var pieces := Split(line, ',');
    if |pieces| < 2 then Panic(UnwrapNone)
    else
      var k := FindChar(line, ',').value;
      assert pieces == [line[..k]] + Split(line[k + 1..], ',');
      Done(FromParts(city, pieces[0], pieces[1], apartment))
  }


  /** The first correction leaves no double space behind. */
  lemma FirstStepRemovesDoubleSpaces(street: string)
    ensures !Contains(ReplaceAll(street, "  ", ""), "  ")
  {
    RemoveDoubleSpaces(street);
  }

  /** The `{'uk': '…'` wrapper around an apartment number is stripped away, leaving the number. */
  lemma FromPartsUnwraps(city: string, street: string, building: string, number: string)
    requires forall i :: 0 <= i < |number| ==> number[i] !in ApartmentDebris
    ensures FromParts(city, street, building, WrapperOpen + number + "'").apartment == number
  {
    RemoveCharsAppend(WrapperOpen + number, "'", ApartmentDebris);
    RemoveCharsAppend(WrapperOpen, number, ApartmentDebris);
    RemoveCharsKeepsOthers(number, ApartmentDebris);
    WrapperIsDebris();
    assert [] + number + [] == number;
  }

  /** The wrapper and its closing quote are made of debris only. */
  lemma WrapperIsDebris()
    ensures RemoveChars(WrapperOpen, ApartmentDebris) == [] && RemoveChars("'", ApartmentDebris) == []
  {
    var t := WrapperOpen;
    assert t == ['{'] + t[1..] && t[1..] == ['\''] + t[2..] && t[2..] == ['u'] + t[3..] && t[3..] == ['k'] + t[4..];
    assert t[4..] == ['\''] + t[5..] && t[5..] == [':'] + t[6..] && t[6..] == [' '] + t[7..] && t[7..] == ['\''] + t[8..];
    assert "'"[1..] == [];
  }

  lemma OldNameLacksU()
    ensures forall i :: 0 <= i < |OldZernova| ==> OldZernova[i] != 'у'
  {
  }

  /** The street of the documented example has no double space. */
  lemma DocumentedStreetSpaces()
    ensures !Contains(StreetWord + OldZernova, "  ")
  {
    var street := StreetWord + OldZernova;
    assert NoDoubleSpace(street) by {
      forall i | 0 <= i < |street| - 1 ensures !(street[i] == ' ' && street[i + 1] == ' ') {
        if i < 6 {
          assert street[i] == StreetWord[i];
        } else if i == 6 {
          assert street[i + 1] == OldZernova[0];
        } else {
          assert street[i] == OldZernova[i - 7] && street[i + 1] == OldZernova[i - 6];
        }
      }
    }
    NoDoubleSpaceNotContains(street);
  }

  /** The street of the documented example loses the word "street" and the old district. */
  lemma TransformStreetDocumented()
    ensures TransformStreet(StreetWord + OldZernova) == NewZernova
  {
    var street := StreetWord + OldZernova;
    DocumentedStreetSpaces();
    var once := ReplaceAll(street, "  ", "");
    assert once == street;
    ReplaceAllAtHead(StreetWord, OldZernova, "");
    assert StreetWord[1] == 'у';
    OldNameLacksU();
    MissingCharNotContained(OldZernova, StreetWord, 1);
    var twice := ReplaceAll(once, StreetWord, "");
    assert twice == OldZernova;
    ReplaceAllAtHead(OldZernova, "", NewZernova);
    assert OldZernova + "" == OldZernova;
    assert ReplaceAll("", OldZernova, NewZernova) == "";
  }

  /** The documented `from_parts` example: the street corrected, the apartment unwrapped. */
  lemma FromPartsExample()
    ensures FromParts("Запоріжжя", StreetWord + OldZernova, "19А", WrapperOpen + "0" + "'")
      == Address("Запоріжжя", NewZernova, "19А", "0")
  {
    TransformStreetDocumented();
    FromPartsUnwraps("Запоріжжя", StreetWord + OldZernova, "19А", "0");
  }

  // ---- the work-schedule pattern ----

  const WrapperOpen: string := "{'uk': '"
  const BuildingMark: string := " д."
  const ApartmentMark: string := ", кв."

  /** Where the apartment alternation ended up: inside the `{'uk': '…'` wrapper, or bare. Both end exclusive. */
  datatype ApartmentSpan = Wrapped(end: int) | Bare(end: int)

  /** The spans of a whole match starting at `start`. */
  datatype AddressSpans = AddressSpans(cityEnd: int, streetStart: int, streetEnd: int, buildingEnd: int, apartment: ApartmentSpan)

  /** `\{'uk': '(\S+)'` at `p`, the inner run ending at `e` (the closing quote). */
  predicate WrappedAt(s: string, p: int, e: int)
  {
    LitAt(s, p, WrapperOpen) && p + 9 <= e < |s| && AllIn(s, p + 8, e, IsNonSpace) && s[e] == '\''
  }

  /** `(\{'uk': '\S+'|\S+)` matches at `p` with spans `a`. */
  predicate ApartmentShape(s: string, p: int, a: ApartmentSpan)
  {
    match a
    case Wrapped(e) => WrappedAt(s, p, e)
    case Bare(e) => p < e && AllIn(s, p, e, IsNonSpace)
  }

  /** The apartment alternation at `p`: the wrapper when it can match (with the longest inner run), else the longest bare run. */
  function MatchApartment(s: string, p: int): (r: Option<ApartmentSpan>)
    requires 0 <= p <= |s|
  {
    match LastWhere(p + 9, |s|, e => WrappedAt(s, p, e))
    case Some(e) => Some(Wrapped(e))
    case None => if p < |s| && IsNonSpace(s[p]) then Some(Bare(RunEnd(s, p, IsNonSpace))) else None
  }

  lemma ApartmentSound(s: string, p: int)
    requires 0 <= p <= |s|
    ensures MatchApartment(s, p).Some? ==> ApartmentShape(s, p, MatchApartment(s, p).value)
  {
  }

  /** Any way the alternation can match means it does match; the wrapper wins when it can; each run is the longest. */
  lemma ApartmentComplete(s: string, p: int, a: ApartmentSpan)
    requires 0 <= p <= |s| && ApartmentShape(s, p, a)
    ensures MatchApartment(s, p).Some?
    ensures a.Wrapped? ==> MatchApartment(s, p).value.Wrapped?
    ensures a.Wrapped? == MatchApartment(s, p).value.Wrapped? ==> a.end <= MatchApartment(s, p).value.end
  {
    var P := e => WrappedAt(s, p, e);
    match a
    case Wrapped(e) =>
      assert P(e);
    case Bare(e) =>
      if LastWhere(p + 9, |s|, P).None? {
        RunEndBound(s, p, e, IsNonSpace);
      }
  }

  /** `(\S+), кв\.(…)` at `p`. */
  predicate BuildingShape(s: string, p: int, be: int, a: ApartmentSpan)
  {
    p < be && AllIn(s, p, be, IsNonSpace) && LitAt(s, be, ApartmentMark) && ApartmentShape(s, be + 5, a)
  }

  predicate BuildingEndFits(s: string, p: int, be: int)
  {
    0 <= p < be && AllIn(s, p, be, IsNonSpace) && LitAt(s, be, ApartmentMark) && MatchApartment(s, be + 5).Some?
  }

  function MatchBuilding(s: string, p: int): (r: Option<(int, ApartmentSpan)>)
    requires 0 <= p <= |s|
  {
    match LastWhere(p + 1, |s| + 1, be => BuildingEndFits(s, p, be))
    case None => None
    case Some(be) =>
      match MatchApartment(s, be + 5)
      case None => None
      case Some(a) => Some((be, a))
  }

  lemma BuildingSound(s: string, p: int)
    requires 0 <= p <= |s|
    ensures MatchBuilding(s, p).Some? ==> var r := MatchBuilding(s, p).value;
      BuildingShape(s, p, r.0, r.1) && MatchApartment(s, r.0 + 5) == Some(r.1)
  {
    if MatchBuilding(s, p).Some? {
      ApartmentSound(s, MatchBuilding(s, p).value.0 + 5);
    }
  }

  lemma BuildingComplete(s: string, p: int, be: int, a: ApartmentSpan)
    requires 0 <= p <= |s| && BuildingShape(s, p, be, a)
    ensures MatchBuilding(s, p).Some? && be <= MatchBuilding(s, p).value.0
  {
    ApartmentComplete(s, be + 5, a);
    var P := be => BuildingEndFits(s, p, be);
    assert P(be);
  }

  /** `(.+) д\.(…)` at `p`. */
  predicate StreetShape(s: string, p: int, se: int, be: int, a: ApartmentSpan)
  {
    p < se && AllIn(s, p, se, IsAnyButNewline) && LitAt(s, se, BuildingMark) && BuildingShape(s, se + 3, be, a)
  }

  predicate StreetEndFits(s: string, p: int, se: int)
  {
    0 <= p < se && AllIn(s, p, se, IsAnyButNewline) && LitAt(s, se, BuildingMark) && MatchBuilding(s, se + 3).Some?
  }

  function MatchStreet(s: string, p: int): (r: Option<(int, int, ApartmentSpan)>)
    requires 0 <= p <= |s|
  {
    match LastWhere(p + 1, |s| + 1, se => StreetEndFits(s, p, se))
    case None => None
    case Some(se) =>
      match MatchBuilding(s, se + 3)
      case None => None
      case Some(b) => Some((se, b.0, b.1))
  }

  lemma StreetSound(s: string, p: int)
    requires 0 <= p <= |s|
    ensures MatchStreet(s, p).Some? ==> var r := MatchStreet(s, p).value;
      StreetShape(s, p, r.0, r.1, r.2) && MatchBuilding(s, r.0 + 3) == Some((r.1, r.2))
  {
    if MatchStreet(s, p).Some? {
      BuildingSound(s, MatchStreet(s, p).value.0 + 3);
    }
  }

  lemma StreetComplete(s: string, p: int, se: int, be: int, a: ApartmentSpan)
    requires 0 <= p <= |s| && StreetShape(s, p, se, be, a)
    ensures MatchStreet(s, p).Some? && se <= MatchStreet(s, p).value.0
  {
    BuildingComplete(s, se + 3, be, a);
    var P := se => StreetEndFits(s, p, se);
    assert P(se);
  }

  /** `\s+(…)` at `p`. */
  predicate GapShape(s: string, p: int, ss: int, se: int, be: int, a: ApartmentSpan)
  {
    p < ss && AllIn(s, p, ss, IsWhitespace) && StreetShape(s, ss, se, be, a)
  }

  predicate GapEndFits(s: string, p: int, ss: int)
  {
    0 <= p < ss && AllIn(s, p, ss, IsWhitespace) && MatchStreet(s, ss).Some?
  }

  function MatchGap(s: string, p: int): (r: Option<(int, int, int, ApartmentSpan)>)
    requires 0 <= p <= |s|
  {
    match LastWhere(p + 1, |s| + 1, ss => GapEndFits(s, p, ss))
    case None => None
    case Some(ss) =>
      match MatchStreet(s, ss)
      case None => None
      case Some(t) => Some((ss, t.0, t.1, t.2))
  }

  lemma GapSound(s: string, p: int)
    requires 0 <= p <= |s|
    ensures MatchGap(s, p).Some? ==> var r := MatchGap(s, p).value;
      GapShape(s, p, r.0, r.1, r.2, r.3) && MatchStreet(s, r.0) == Some((r.1, r.2, r.3))
  {
    if MatchGap(s, p).Some? {
      StreetSound(s, MatchGap(s, p).value.0);
    }
  }

  lemma GapComplete(s: string, p: int, ss: int, se: int, be: int, a: ApartmentSpan)
    requires 0 <= p <= |s| && GapShape(s, p, ss, se, be, a)
    ensures MatchGap(s, p).Some? && ss <= MatchGap(s, p).value.0
  {
    StreetComplete(s, ss, se, be, a);
    var P := ss => GapEndFits(s, p, ss);
    assert P(ss);
  }

  /** The whole pattern at `i`. */
  predicate AddressShape(s: string, i: int, m: AddressSpans)
  {
    i < m.cityEnd && AllIn(s, i, m.cityEnd, IsAnyButNewline) && LitAt(s, m.cityEnd, ",")
    && GapShape(s, m.cityEnd + 1, m.streetStart, m.streetEnd, m.buildingEnd, m.apartment)
  }

  predicate CityEndFits(s: string, i: int, ce: int)
  {
    0 <= i < ce && AllIn(s, i, ce, IsAnyButNewline) && LitAt(s, ce, ",") && MatchGap(s, ce + 1).Some?
  }

  /** The pattern at `i`, each repetition as long as the rest allows (`None`: no match starts at `i`). */
  function MatchAt(s: string, i: int): (r: Option<AddressSpans>)
    requires 0 <= i <= |s|
  {
    match LastWhere(i + 1, |s| + 1, ce => CityEndFits(s, i, ce))
    case None => None
    case Some(ce) =>
      match MatchGap(s, ce + 1)
      case None => None
      case Some(g) => Some(AddressSpans(ce, g.0, g.1, g.2, g.3))
  }

  /** What `MatchAt` finds is a match of the pattern. */
  lemma MatchAtSound(s: string, i: int)
    requires 0 <= i <= |s|
    ensures MatchAt(s, i).Some? ==> AddressShape(s, i, MatchAt(s, i).value)
    ensures MatchAt(s, i).Some? ==> var m := MatchAt(s, i).value;
      MatchGap(s, m.cityEnd + 1) == Some((m.streetStart, m.streetEnd, m.buildingEnd, m.apartment))
  {
    if MatchAt(s, i).Some? {
      GapSound(s, MatchAt(s, i).value.cityEnd + 1);
    }
  }

  /** The city of any match can end where it does: the rest of the pattern matches after it. */
  lemma CityEndFitsAt(s: string, i: int, m: AddressSpans)
    requires 0 <= i <= |s| && AddressShape(s, i, m)
    ensures CityEndFits(s, i, m.cityEnd)
  {
    GapComplete(s, m.cityEnd + 1, m.streetStart, m.streetEnd, m.buildingEnd, m.apartment);
  }

  /** Wherever the pattern can match, `MatchAt` finds a match, with the longest city the rest allows. */
  lemma MatchAtComplete(s: string, i: int, m: AddressSpans)
    requires 0 <= i <= |s| && AddressShape(s, i, m)
    ensures MatchAt(s, i).Some? && m.cityEnd <= MatchAt(s, i).value.cityEnd
  {
    CityEndFitsAt(s, i, m);
    var P := ce => CityEndFits(s, i, ce);
    assert P(m.cityEnd);
  }

  /** `Regex::captures`: the leftmost start with a match, and the spans found there. */
  function FindAddress(s: string): (r: Option<(int, AddressSpans)>)
    ensures r.Some? ==> 0 <= r.value.0 < |s|
  {
    match FirstWhere(0, |s|, i => 0 <= i <= |s| && MatchAt(s, i).Some?)
    case None => None
    case Some(i) => Some((i, MatchAt(s, i).value))
  }

  /** The match `FindAddress` reports starts where no earlier start can match, and is a match of the pattern. */
  lemma FindAddressLeftmost(s: string)
    ensures FindAddress(s).Some? ==> var (i, m) := FindAddress(s).value;
      0 <= i < |s| && AddressShape(s, i, m) && forall j, m' :: 0 <= j < i ==> !AddressShape(s, j, m')
    ensures FindAddress(s).None? <==> forall j, m' :: 0 <= j <= |s| ==> !AddressShape(s, j, m')
  {
    var P := i => 0 <= i <= |s| && MatchAt(s, i).Some?;
    forall j, m' | 0 <= j <= |s| && AddressShape(s, j, m') ensures j < |s| && P(j) {
      MatchAtComplete(s, j, m');
    }
    if FindAddress(s).Some? {
      MatchAtSound(s, FindAddress(s).value.0);
    } else {
      assert !P(|s|);
    }
  }

  /** The apartment text of a match: the bare capture, otherwise the one inside the wrapper. */
  function ApartmentText(s: string, m: AddressSpans): string
    requires 0 <= m.buildingEnd && m.buildingEnd + 5 <= |s| && ApartmentShape(s, m.buildingEnd + 5, m.apartment)
  {
    match m.apartment
    case Bare(e) => s[m.buildingEnd + 5..e]
    case Wrapped(e) => s[m.buildingEnd + 13..e]
  }

  /** The address the captures of a match give: the street corrected; the apartment is not stripped. */
  function ReadMatch(s: string, found: Option<(int, AddressSpans)>): (r: Result<Address, AddressError>)
    ensures found.None? ==> r == Err(NoMatch)
    ensures r.Ok? ==> (found.Some? && AddressShape(s, found.value.0, found.value.1)
                       && r.value.city == s[found.value.0..found.value.1.cityEnd])
  {
    match found
    case None => Err(NoMatch)
    case Some((i, m)) =>
      if 0 <= i && AddressShape(s, i, m) then
        Ok(Address(s[i..m.cityEnd], TransformStreet(s[m.streetStart..m.streetEnd]), s[m.streetEnd + 3..m.buildingEnd],
                   ApartmentText(s, m)))
      else Err(NoMatch)
  }

  /** `Address::from_work_schedule`: the address the leftmost match gives. */
  function FromWorkSchedule(s: string): (r: Result<Address, AddressError>)
  {
    ReadMatch(s, FindAddress(s))
  }

  /** The line is rejected exactly when the pattern matches nowhere in it. */
  lemma NoMatchExactly(s: string)
    ensures FromWorkSchedule(s) == Err(NoMatch) <==> forall i, m :: 0 <= i <= |s| ==> !AddressShape(s, i, m)
  {
    FindAddressLeftmost(s);
  }

  // ---- lines assembled from parts ----

  /** A work-schedule line for an address whose apartment stands in the `{'uk': '…'` wrapper. */
  function WrappedLine(city: string, gap: string, street: string, building: string, number: string): string
  {
    city + "," + gap + street + BuildingMark + building + ApartmentMark + WrapperOpen + number + "'"
  }

  /**
   * Parts the pattern reads back as they are: a city without commas or line
   * feeds, a white-space gap, a street without commas or line feeds that does
   * not start with white space, a building and an apartment number without
   * white space or commas, the number without quotes.
   */
  predicate LineParts(city: string, gap: string, street: string, building: string, number: string)
  {
    city != [] && gap != [] && street != [] && building != [] && number != []
    && (forall k :: 0 <= k < |city| ==> city[k] != ',' && city[k] != '\n')
    && (forall k :: 0 <= k < |gap| ==> IsWhitespace(gap[k]))
    && !IsWhitespace(street[0])
    && (forall k :: 0 <= k < |street| ==> street[k] != ',' && street[k] != '\n')
    && (forall k :: 0 <= k < |building| ==> !IsWhitespace(building[k]) && building[k] != ',')
    && (forall k :: 0 <= k < |number| ==> !IsWhitespace(number[k]) && number[k] != ',' && number[k] != '\'')
  }

  /** The spans of the parts of an assembled line. */
  function LineSpans(city: string, gap: string, street: string, building: string, number: string): (m: AddressSpans)
    ensures m.cityEnd == |city| && m.streetStart == m.cityEnd + 1 + |gap| && m.streetEnd == m.streetStart + |street|
    ensures m.buildingEnd == m.streetEnd + 3 + |building| && m.apartment == Wrapped(m.buildingEnd + 13 + |number|)
  {
    var ss := |city| + 1 + |gap|; var se := ss + |street|; var be := se + 3 + |building|;
    AddressSpans(|city|, ss, se, be, Wrapped(be + 13 + |number|))
  }

  /** Where each part of an assembled line lies. */
  predicate LaidOut(s: string, city: string, gap: string, street: string, building: string, number: string)
  {
    var m := LineSpans(city, gap, street, building, number);
    var c := m.cityEnd; var ss := m.streetStart; var se := m.streetEnd; var be := m.buildingEnd; var e := m.apartment.end;
    |s| == e + 1 && s[..c] == city && s[c] == ',' && s[c + 1..ss] == gap && s[ss..se] == street
    && s[se..se + 3] == BuildingMark && s[se + 3..be] == building && s[be..be + 5] == ApartmentMark
    && s[be + 5..be + 13] == WrapperOpen && s[be + 13..e] == number && s[e] == '\''
  }

  /** Where the city, the comma, the gap and the street of an assembled line lie. */
  lemma LayoutHead(city: string, gap: string, street: string, building: string, number: string)
    ensures var s := WrappedLine(city, gap, street, building, number); var m := LineSpans(city, gap, street, building, number);
      |s| == m.apartment.end + 1 && s[..m.cityEnd] == city && s[m.cityEnd] == ',' && s[m.cityEnd + 1..m.streetStart] == gap
      && s[m.streetStart..m.streetEnd] == street
  {
    var s := WrappedLine(city, gap, street, building, number);
    var m := LineSpans(city, gap, street, building, number);
    var s1 := city + ","; var s2 := s1 + gap; var s3 := s2 + street;
    assert s[..m.cityEnd] == city by { assert s[..m.cityEnd] == s1[..m.cityEnd]; }
    assert s[m.cityEnd + 1..m.streetStart] == gap by { assert s[m.cityEnd + 1..m.streetStart] == s2[m.cityEnd + 1..m.streetStart]; }
    assert s[m.streetStart..m.streetEnd] == street by { assert s[m.streetStart..m.streetEnd] == s3[m.streetStart..m.streetEnd]; }
  }

  /** Where the building mark, the building and the apartment mark of an assembled line lie. */
  lemma LayoutMiddle(city: string, gap: string, street: string, building: string, number: string)
    ensures var s := WrappedLine(city, gap, street, building, number); var m := LineSpans(city, gap, street, building, number);
      var se := m.streetEnd; var be := m.buildingEnd;
      |s| == m.apartment.end + 1 && s[se..se + 3] == BuildingMark && s[se + 3..be] == building && s[be..be + 5] == ApartmentMark
  {
    var s := WrappedLine(city, gap, street, building, number);
    var m := LineSpans(city, gap, street, building, number);
    var se := m.streetEnd; var be := m.buildingEnd;
    var s4 := city + "," + gap + street + BuildingMark; var s5 := s4 + building; var s6 := s5 + ApartmentMark;
    assert s[se..se + 3] == BuildingMark by { assert s[se..se + 3] == s4[se..se + 3]; }
    assert s[se + 3..be] == building by { assert s[se + 3..be] == s5[se + 3..be]; }
    assert s[be..be + 5] == ApartmentMark by { assert s[be..be + 5] == s6[be..be + 5]; }
  }

  /** Where the wrapper, the number and the closing quote of an assembled line lie. */
  lemma LayoutTail(city: string, gap: string, street: string, building: string, number: string)
    ensures var s := WrappedLine(city, gap, street, building, number); var m := LineSpans(city, gap, street, building, number);
      var be := m.buildingEnd; var e := m.apartment.end;
      |s| == e + 1 && s[be + 5..be + 13] == WrapperOpen && s[be + 13..e] == number && s[e] == '\''
  {
    var s := WrappedLine(city, gap, street, building, number);
    var m := LineSpans(city, gap, street, building, number);
    var be := m.buildingEnd; var e := m.apartment.end;
    var s7 := city + "," + gap + street + BuildingMark + building + ApartmentMark + WrapperOpen; var s8 := s7 + number;
    assert s == s8 + "'";
    assert s[be + 5..be + 13] == WrapperOpen by { assert s[be + 5..be + 13] == s7[be + 5..be + 13]; }
    assert s[be + 13..e] == number by { assert s[be + 13..e] == s8[be + 13..e]; }
  }

  lemma WrappedLineLayout(city: string, gap: string, street: string, building: string, number: string)
    ensures LaidOut(WrappedLine(city, gap, street, building, number), city, gap, street, building, number)
  {
    LayoutHead(city, gap, street, building, number);
    LayoutMiddle(city, gap, street, building, number);
    LayoutTail(city, gap, street, building, number);
  }

  /** The building mark holds no comma. */
  lemma BuildingMarkNoComma()
    ensures forall i :: 0 <= i < |BuildingMark| ==> BuildingMark[i] != ','
  {
  }

  /** Up to the comma before the apartment, an assembled line has a comma only after the city. */
  lemma LineCommasHead(s: string, city: string, gap: string, street: string, building: string, number: string)
    requires LineParts(city, gap, street, building, number) && LaidOut(s, city, gap, street, building, number)
    ensures var m := LineSpans(city, gap, street, building, number);
      forall k :: 0 <= k < m.buildingEnd && k != m.cityEnd ==> s[k] != ','
  {
    var m := LineSpans(city, gap, street, building, number);
    var c := m.cityEnd; var ss := m.streetStart; var se := m.streetEnd; var be := m.buildingEnd;
    forall k | 0 <= k < c ensures s[k] != ',' { assert s[k] == s[..c][k]; }
    forall k | c < k < ss ensures s[k] != ',' { assert s[k] == s[c + 1..ss][k - c - 1]; }
    forall k | ss <= k < se ensures s[k] != ',' { assert s[k] == s[ss..se][k - ss]; }
    BuildingMarkNoComma();
    forall k | se <= k < se + 3 ensures s[k] != ',' { assert s[k] == s[se..se + 3][k - se]; }
    forall k | se + 3 <= k < be ensures s[k] != ',' { assert s[k] == s[se + 3..be][k - se - 3]; }
  }

  /** After the comma before the apartment, an assembled line has no comma. */
  lemma LineCommasTail(s: string, city: string, gap: string, street: string, building: string, number: string)
    requires LineParts(city, gap, street, building, number) && LaidOut(s, city, gap, street, building, number)
    ensures var m := LineSpans(city, gap, street, building, number);
      forall k :: m.buildingEnd < k < |s| ==> s[k] != ','
  {
    var m := LineSpans(city, gap, street, building, number);
    var be := m.buildingEnd; var e := m.apartment.end;
    forall k | be < k < be + 5 ensures s[k] != ',' { assert s[k] == s[be..be + 5][k - be]; }
    forall k | be + 5 <= k < be + 13 ensures s[k] != ',' { assert s[k] == s[be + 5..be + 13][k - be - 5]; }
    forall k | be + 13 <= k < e ensures s[k] != ',' { assert s[k] == s[be + 13..e][k - be - 13]; }
  }

  /** The only commas of an assembled line are the one after the city and the one before the apartment. */
  lemma LineCommas(s: string, city: string, gap: string, street: string, building: string, number: string)
    requires LineParts(city, gap, street, building, number) && LaidOut(s, city, gap, street, building, number)
    ensures var m := LineSpans(city, gap, street, building, number);
      forall k :: CommaAt(s, k) ==> k == m.cityEnd || k == m.buildingEnd
  {
    LineCommasHead(s, city, gap, street, building, number);
    LineCommasTail(s, city, gap, street, building, number);
  }

  /** An assembled line matches the pattern with exactly its parts. */
  lemma LineShape(s: string, city: string, gap: string, street: string, building: string, number: string)
    requires LineParts(city, gap, street, building, number) && LaidOut(s, city, gap, street, building, number)
    ensures var m := LineSpans(city, gap, street, building, number);
      AddressShape(s, 0, m) && 0 <= m.buildingEnd + 5 <= |s| && ApartmentShape(s, m.buildingEnd + 5, m.apartment)
      && 0 <= m.cityEnd + 1 <= |s| && GapShape(s, m.cityEnd + 1, m.streetStart, m.streetEnd, m.buildingEnd, m.apartment)
  {
    var m := LineSpans(city, gap, street, building, number);
    var c := m.cityEnd; var ss := m.streetStart; var se := m.streetEnd; var be := m.buildingEnd; var e := m.apartment.end;
    forall k | 0 <= k < c ensures IsAnyButNewline(s[k]) { assert s[k] == s[..c][k]; }
    assert s[c..c + 1] == [s[c]];
    forall k | c + 1 <= k < ss ensures IsWhitespace(s[k]) { assert s[k] == s[c + 1..ss][k - c - 1]; }
    forall k | ss <= k < se ensures IsAnyButNewline(s[k]) { assert s[k] == s[ss..se][k - ss]; }
    forall k | se + 3 <= k < be ensures IsNonSpace(s[k]) { assert s[k] == s[se + 3..be][k - se - 3]; }
    forall k | be + 13 <= k < e ensures IsNonSpace(s[k]) { assert s[k] == s[be + 13..e][k - be - 13]; }
    assert WrappedAt(s, be + 5, e);
  }

  /** In an assembled line, the street can only end at the building mark that follows it. */
  lemma LineStreetEnd(s: string, city: string, gap: string, street: string, building: string, number: string)
    requires LineParts(city, gap, street, building, number) && LaidOut(s, city, gap, street, building, number)
    ensures var m := LineSpans(city, gap, street, building, number);
      forall se' :: BuildingRun(s, se', m.buildingEnd) ==> se' == m.streetEnd
  {
    var m := LineSpans(city, gap, street, building, number);
    var se := m.streetEnd; var be := m.buildingEnd;
    assert s[se] == ' ' by { assert s[se] == s[se..se + 3][0]; }
    forall k | se < k < se + 3 ensures s[k] != ' ' { assert s[k] == s[se..se + 3][k - se]; }
    forall k | se + 3 <= k < be ensures s[k] != ' ' { assert s[k] == s[se + 3..be][k - se - 3]; }
    forall se' | BuildingRun(s, se', be) ensures se' == se {
      assert s[se'] == ' ' && s[se' + 1] == 'д' && s[se' + 2] == '.' by {
        assert s[se'] == s[se'..se' + 3][0] && s[se' + 1] == s[se'..se' + 3][1] && s[se' + 2] == s[se'..se' + 3][2];
      }
    }
  }

  /** In an assembled line the gap level ends the gap where the street starts. */
  lemma LineGapStart(s: string, city: string, gap: string, street: string, building: string, number: string)
    requires LineParts(city, gap, street, building, number) && LaidOut(s, city, gap, street, building, number)
    ensures var m := LineSpans(city, gap, street, building, number);
      0 <= m.cityEnd + 1 <= |s| && MatchGap(s, m.cityEnd + 1).Some? && MatchGap(s, m.cityEnd + 1).value.0 == m.streetStart
  {
    var m := LineSpans(city, gap, street, building, number);
    LineShape(s, city, gap, street, building, number);
    GapComplete(s, m.cityEnd + 1, m.streetStart, m.streetEnd, m.buildingEnd, m.apartment);
    GapSound(s, m.cityEnd + 1);
    var ss' := MatchGap(s, m.cityEnd + 1).value.0;
    assert !IsWhitespace(s[m.streetStart]) by { assert s[m.streetStart] == s[m.streetStart..m.streetEnd][0]; }
  }

  /** A wrapper that closes at the last character of a line is what the apartment level takes. */
  lemma WrapperAtEnd(s: string, p: int, e: int)
    requires 0 <= p <= |s| && WrappedAt(s, p, e) && e == |s| - 1
    ensures MatchApartment(s, p) == Some(Wrapped(e))
  {
    ApartmentComplete(s, p, Wrapped(e));
    ApartmentSound(s, p);
  }

  /** In an assembled line the apartment level takes the wrapper, up to the closing quote. */
  lemma LineApartment(s: string, city: string, gap: string, street: string, building: string, number: string)
    requires LineParts(city, gap, street, building, number) && LaidOut(s, city, gap, street, building, number)
    ensures var m := LineSpans(city, gap, street, building, number);
      0 <= m.buildingEnd + 5 <= |s| && MatchApartment(s, m.buildingEnd + 5) == Some(m.apartment)
  {
    var m := LineSpans(city, gap, street, building, number);
    LineShape(s, city, gap, street, building, number);
    WrapperAtEnd(s, m.buildingEnd + 5, m.apartment.end);
  }

  /** Each level hands on the spans the level below it found. */
  lemma GapPassesStreet(s: string, p: int, ss: int, se: int, be: int, a: ApartmentSpan)
    requires 0 <= p <= |s| && MatchGap(s, p) == Some((ss, se, be, a))
    ensures 0 <= ss <= |s| && MatchStreet(s, ss) == Some((se, be, a))
  {
  }

  lemma StreetPassesBuilding(s: string, p: int, se: int, be: int, a: ApartmentSpan)
    requires 0 <= p <= |s| && MatchStreet(s, p) == Some((se, be, a))
    ensures 0 <= se + 3 <= |s| && MatchBuilding(s, se + 3) == Some((be, a))
  {
  }

  lemma BuildingPassesApartment(s: string, p: int, be: int, a: ApartmentSpan)
    requires 0 <= p <= |s| && MatchBuilding(s, p) == Some((be, a))
    ensures 0 <= be + 5 <= |s| && MatchApartment(s, be + 5) == Some(a)
  {
  }

  lemma StreetApartment(s: string, p: int, se: int, be: int, a: ApartmentSpan)
    requires 0 <= p <= |s| && MatchStreet(s, p) == Some((se, be, a))
    ensures 0 <= be + 5 <= |s| && MatchApartment(s, be + 5) == Some(a)
  {
    StreetPassesBuilding(s, p, se, be, a);
    BuildingPassesApartment(s, se + 3, be, a);
  }

  /** The apartment the gap level finds is what the apartment level takes after the building it found. */
  lemma GapApartmentOf(s: string, p: int, g: (int, int, int, ApartmentSpan), be: int, a: ApartmentSpan)
    requires 0 <= p <= |s| && MatchGap(s, p) == Some(g) && g.2 == be
    requires 0 <= be + 5 <= |s| && MatchApartment(s, be + 5) == Some(a)
    ensures g.3 == a
  {
    GapApartment(s, p, g.0, g.1, g.2, g.3);
  }

  /** The apartment of a match the gap level found is what the apartment level finds after the building. */
  lemma GapApartment(s: string, p: int, ss: int, se: int, be: int, a: ApartmentSpan)
    requires 0 <= p <= |s| && MatchGap(s, p) == Some((ss, se, be, a))
    ensures 0 <= be + 5 <= |s| && MatchApartment(s, be + 5) == Some(a)
  {
    GapPassesStreet(s, p, ss, se, be, a);
    StreetApartment(s, ss, se, be, a);
  }

  /** The facts of a match at `i` that pin it down in a line whose commas and marks are known. */
  lemma ShapeMarks(s: string, i: int, m: AddressSpans)
    requires AddressShape(s, i, m)
    ensures m.cityEnd < m.buildingEnd && CommaAt(s, m.cityEnd) && CommaAt(s, m.buildingEnd) && BuildingRun(s, m.streetEnd, m.buildingEnd)
  {
    assert s[m.cityEnd] == s[m.cityEnd..m.cityEnd + 1][0];
    assert s[m.buildingEnd] == s[m.buildingEnd..m.buildingEnd + 5][0];
  }

  /** A comma at `k`. */
  predicate CommaAt(s: string, k: int)
  {
    0 <= k < |s| && s[k] == ','
  }

  /** The building mark at `se`, followed by a building that runs to `be`. */
  predicate BuildingRun(s: string, se: int, be: int)
  {
    LitAt(s, se, BuildingMark) && se + 3 < be && AllIn(s, se + 3, be, IsNonSpace)
  }

  /** The building of a match of the gap and what follows ends at a comma, after the building mark. */
  lemma GapMarks(s: string, p: int, ss: int, se: int, be: int, a: ApartmentSpan)
    requires GapShape(s, p, ss, se, be, a)
    ensures p < be && CommaAt(s, be) && BuildingRun(s, se, be)
  {
    assert s[be] == s[be..be + 5][0];
  }

  /** The building the gap level finds ends at the comma that ends the building. */
  lemma GapBuildingPinned(s: string, p: int, m0: AddressSpans)
    requires p == m0.cityEnd + 1 && m0.cityEnd < m0.buildingEnd && forall k :: CommaAt(s, k) ==> k == m0.cityEnd || k == m0.buildingEnd
    requires 0 <= p <= |s| && MatchGap(s, p).Some?
    ensures MatchGap(s, p).value.2 == m0.buildingEnd
  {
    GapSound(s, p);
    var g := MatchGap(s, p).value;
    GapMarks(s, p, g.0, g.1, g.2, g.3);
  }

  /** The street the gap level finds ends at the only building mark before that comma. */
  lemma GapStreetPinned(s: string, p: int, m0: AddressSpans)
    requires forall se' :: BuildingRun(s, se', m0.buildingEnd) ==> se' == m0.streetEnd
    requires 0 <= p <= |s| && MatchGap(s, p).Some? && MatchGap(s, p).value.2 == m0.buildingEnd
    ensures MatchGap(s, p).value.1 == m0.streetEnd
  {
    GapSound(s, p);
    var g := MatchGap(s, p).value;
    GapMarks(s, p, g.0, g.1, g.2, g.3);
  }

  /**
   * The gap level, at the comma after the city, finds the parts a line
   * allows: its street ending at the only building mark before the comma
   * that ends the building, its apartment what the apartment level takes.
   */
  lemma GapPinned(s: string, m0: AddressSpans)
    requires m0.cityEnd < m0.buildingEnd && forall k :: CommaAt(s, k) ==> k == m0.cityEnd || k == m0.buildingEnd
    requires forall se' :: BuildingRun(s, se', m0.buildingEnd) ==> se' == m0.streetEnd
    requires 0 <= m0.cityEnd + 1 <= |s| && MatchGap(s, m0.cityEnd + 1).Some? && MatchGap(s, m0.cityEnd + 1).value.0 == m0.streetStart
    requires 0 <= m0.buildingEnd + 5 <= |s| && MatchApartment(s, m0.buildingEnd + 5) == Some(m0.apartment)
    ensures MatchGap(s, m0.cityEnd + 1) == Some((m0.streetStart, m0.streetEnd, m0.buildingEnd, m0.apartment))
  {
    var p := m0.cityEnd + 1;
    GapBuildingPinned(s, p, m0);
    GapStreetPinned(s, p, m0);
    GapApartmentOf(s, p, MatchGap(s, p).value, m0.buildingEnd, m0.apartment);
  }

  /** What a line allows of a match at its start, for spans `m0`: commas only after the city and before the apartment, and the gap level finding the rest. */
  ghost predicate Pinned(s: string, m0: AddressSpans)
  {
    m0.cityEnd < m0.buildingEnd && (forall k :: CommaAt(s, k) ==> k == m0.cityEnd || k == m0.buildingEnd)
    && 0 <= m0.cityEnd + 1 <= |s| && MatchGap(s, m0.cityEnd + 1) == Some((m0.streetStart, m0.streetEnd, m0.buildingEnd, m0.apartment))
  }

  /** The gap level finds one thing at one place. */
  lemma SameGap(s: string, p: int, q: int, g: (int, int, int, ApartmentSpan), h: (int, int, int, ApartmentSpan))
    requires p == q && 0 <= p <= |s| && MatchGap(s, p) == Some(g) && MatchGap(s, q) == Some(h)
    ensures g == h
  {
  }

  /** Two commas in order, in a line with only two commas, are those two. */
  lemma CommasPinned(s: string, c: int, b: int, c0: int, b0: int)
    requires c < b && CommaAt(s, c) && CommaAt(s, b)
    requires c0 < b0 && forall k :: CommaAt(s, k) ==> k == c0 || k == b0
    ensures c == c0 && b == b0
  {
  }

  /** The match at the start of a line has a comma after its city and one after its building, and its levels agree. */
  lemma MatchAtMarks(s: string)
    requires MatchAt(s, 0).Some?
    ensures var m := MatchAt(s, 0).value;
      m.cityEnd < m.buildingEnd && CommaAt(s, m.cityEnd) && CommaAt(s, m.buildingEnd)
      && MatchGap(s, m.cityEnd + 1) == Some((m.streetStart, m.streetEnd, m.buildingEnd, m.apartment))
  {
    MatchAtSound(s, 0);
    var m := MatchAt(s, 0).value;
    assert s[m.cityEnd] == s[m.cityEnd..m.cityEnd + 1][0];
    assert s[m.buildingEnd] == s[m.buildingEnd..m.buildingEnd + 5][0];
  }

  /** A match at the start of a line whose spans are pinned down has those spans. */
  lemma MatchAtPinned(s: string, m0: AddressSpans)
    requires MatchAt(s, 0).Some?
    requires Pinned(s, m0)
    ensures MatchAt(s, 0) == Some(m0)
  {
    MatchAtMarks(s);
    var m := MatchAt(s, 0).value;
    CommasPinned(s, m.cityEnd, m.buildingEnd, m0.cityEnd, m0.buildingEnd);
    SameGap(s, m.cityEnd + 1, m0.cityEnd + 1, (m.streetStart, m.streetEnd, m.buildingEnd, m.apartment),
            (m0.streetStart, m0.streetEnd, m0.buildingEnd, m0.apartment));
  }

  /** When a match starts at the beginning of a line, it is the leftmost one. */
  lemma FindAddressAtStart(s: string)
    requires 0 < |s| && MatchAt(s, 0).Some?
    ensures FindAddress(s) == Some((0, MatchAt(s, 0).value))
  {
  }

  /** With its match pinned down, the leftmost match of a line starts at its beginning with those spans. */
  lemma FoundAt(s: string, m0: AddressSpans)
    requires AddressShape(s, 0, m0)
    requires Pinned(s, m0)
    ensures FindAddress(s) == Some((0, m0))
  {
    MatchAtComplete(s, 0, m0);
    MatchAtPinned(s, m0);
    ShapeMarks(s, 0, m0);
    FindAddressAtStart(s);
  }

  /** A match of the pattern ends in a match of the apartment alternation. */
  lemma ShapeApartment(s: string, i: int, m: AddressSpans)
    requires AddressShape(s, i, m)
    ensures 0 <= m.buildingEnd + 5 <= |s| && ApartmentShape(s, m.buildingEnd + 5, m.apartment)
  {
  }

  /** The address the captures of a match at the start of a line give. */
  lemma ReadMatchAt(s: string, m0: AddressSpans)
    requires AddressShape(s, 0, m0)
    ensures 0 <= m0.buildingEnd + 5 <= |s| && ApartmentShape(s, m0.buildingEnd + 5, m0.apartment)
    ensures ReadMatch(s, Some((0, m0))) == Ok(Address(s[0..m0.cityEnd], TransformStreet(s[m0.streetStart..m0.streetEnd]),
                                                      s[m0.streetEnd + 3..m0.buildingEnd], ApartmentText(s, m0)))
  {
    ShapeApartment(s, 0, m0);
  }

  /** An assembled line allows only the parts' spans for a match at its start. */
  lemma LinePinned(s: string, city: string, gap: string, street: string, building: string, number: string)
    requires LineParts(city, gap, street, building, number) && LaidOut(s, city, gap, street, building, number)
    ensures Pinned(s, LineSpans(city, gap, street, building, number))
  {
    LineMarks(s, city, gap, street, building, number);
    LineEnds(s, city, gap, street, building, number);
    GapPinned(s, LineSpans(city, gap, street, building, number));
  }

  /** In an assembled line, the commas and the street end are where the parts put them. */
  lemma LineMarks(s: string, city: string, gap: string, street: string, building: string, number: string)
    requires LineParts(city, gap, street, building, number) && LaidOut(s, city, gap, street, building, number)
    ensures var m := LineSpans(city, gap, street, building, number);
      forall k :: CommaAt(s, k) ==> k == m.cityEnd || k == m.buildingEnd
    ensures var m := LineSpans(city, gap, street, building, number);
      forall se' :: BuildingRun(s, se', m.buildingEnd) ==> se' == m.streetEnd
  {
    LineCommas(s, city, gap, street, building, number);
    LineStreetEnd(s, city, gap, street, building, number);
  }

  /** In an assembled line, the gap ends at the street and the apartment runs to the end. */
  lemma LineEnds(s: string, city: string, gap: string, street: string, building: string, number: string)
    requires LineParts(city, gap, street, building, number) && LaidOut(s, city, gap, street, building, number)
    ensures var m := LineSpans(city, gap, street, building, number);
      0 <= m.cityEnd + 1 <= |s| && MatchGap(s, m.cityEnd + 1).Some? && MatchGap(s, m.cityEnd + 1).value.0 == m.streetStart
    ensures var m := LineSpans(city, gap, street, building, number);
      0 <= m.buildingEnd + 5 <= |s| && MatchApartment(s, m.buildingEnd + 5) == Some(m.apartment)
  {
    LineGapStart(s, city, gap, street, building, number);
    LineApartment(s, city, gap, street, building, number);
  }

  /** The leftmost match in an assembled line starts at its beginning and has the parts' spans. */
  lemma LineMatch(s: string, city: string, gap: string, street: string, building: string, number: string)
    requires LineParts(city, gap, street, building, number) && LaidOut(s, city, gap, street, building, number)
    ensures FindAddress(s) == Some((0, LineSpans(city, gap, street, building, number)))
  {
    LineShape(s, city, gap, street, building, number);
    LinePinned(s, city, gap, street, building, number);
    FoundAt(s, LineSpans(city, gap, street, building, number));
  }

  /** The captures of an assembled line, matched at its start with the parts' spans, are its parts. */
  lemma LineTexts(s: string, city: string, gap: string, street: string, building: string, number: string)
    requires LineParts(city, gap, street, building, number) && LaidOut(s, city, gap, street, building, number)
    ensures ReadMatch(s, Some((0, LineSpans(city, gap, street, building, number))))
      == Ok(Address(city, TransformStreet(street), building, number))
  {
    LineShape(s, city, gap, street, building, number);
    var m := LineSpans(city, gap, street, building, number);
    ReadMatchAt(s, m);
    assert s[0..m.cityEnd] == s[..m.cityEnd];
  }

  /** An assembled line, wherever its parts lie, is read back as its parts. */
  lemma LineRead(s: string, city: string, gap: string, street: string, building: string, number: string)
    requires LineParts(city, gap, street, building, number) && LaidOut(s, city, gap, street, building, number)
    ensures FromWorkSchedule(s) == Ok(Address(city, TransformStreet(street), building, number))
  {
    LineMatch(s, city, gap, street, building, number);
    LineTexts(s, city, gap, street, building, number);
  }

  /**
   * A line assembled from parts the pattern can read back is read back as
   * those parts: the round trip of `from_work_schedule` for the wrapped
   * apartment, the street corrected.
   */
  lemma WrappedLineRoundTrip(city: string, gap: string, street: string, building: string, number: string)
    requires LineParts(city, gap, street, building, number)
    ensures FromWorkSchedule(WrappedLine(city, gap, street, building, number))
      == Ok(Address(city, TransformStreet(street), building, number))
  {
    WrappedLineLayout(city, gap, street, building, number);
    LineRead(WrappedLine(city, gap, street, building, number), city, gap, street, building, number);
  }

  // ---- the documented and tested lines ----

  /** The parts of the line documented on `from_work_schedule`. */
  lemma DocumentedParts()
    ensures LineParts("Запоріжжя", " ", StreetWord + OldZernova, "19А", "0")
  {
  }

  /** The documented line up to the building mark. */
  lemma DocumentedLineHead()
    ensures "Запоріжжя" + "," + " " + "вулиця Зернова (Ленінський)" == "Запоріжжя, вулиця Зернова (Ленінський)"
  {
    assert "Запоріжжя" + "," + " " == "Запоріжжя, ";
  }

  /** The documented street spelled out. */
  lemma DocumentedStreet()
    ensures StreetWord + OldZernova == "вулиця Зернова (Ленінський)"
  {
  }

  /** The documented line is the assembly of those parts. */
  lemma DocumentedLine()
    ensures WrappedLine("Запоріжжя", " ", StreetWord + OldZernova, "19А", "0")
      == "Запоріжжя, вулиця Зернова (Ленінський) д.19А, кв.{'uk': '0'"
  {
    DocumentedStreet();
    DocumentedLineHead();
    assert "Запоріжжя, вулиця Зернова (Ленінський)" + BuildingMark + "19А" == "Запоріжжя, вулиця Зернова (Ленінський) д.19А";
    assert "Запоріжжя, вулиця Зернова (Ленінський) д.19А" + ApartmentMark + WrapperOpen
      == "Запоріжжя, вулиця Зернова (Ленінський) д.19А, кв.{'uk': '";
  }

  /** The documented example of `from_work_schedule`: the street loses its word "street" and its old district. */
  lemma DocumentedExample()
    ensures FromWorkSchedule("Запоріжжя, вулиця Зернова (Ленінський) д.19А, кв.{'uk': '0'")
      == Ok(Address("Запоріжжя", "Зернова", "19А", "0"))
  {
    DocumentedParts();
    WrappedLineRoundTrip("Запоріжжя", " ", StreetWord + OldZernova, "19А", "0");
    TransformStreetDocumented();
    DocumentedLine();
  }

  /** A street name with nothing to strip is kept as it is. */
  lemma PlainStreetKept()
    ensures TransformStreet("Ладозька") == "Ладозька"
  {
    MissingCharNotContained("Ладозька", "  ", 0);
    MissingCharNotContained("Ладозька", StreetWord, 0);
    MissingCharNotContained("Ладозька", OldZernova, 0);
  }

  /** The parts of the tested line with a doubled gap. */
  lemma TestedParts()
    ensures LineParts("Запоріжжя", "  ", "Ладозька", "██", "█")
  {
  }

  /** The tested line is the assembly of those parts. */
  lemma TestedLine()
    ensures WrappedLine("Запоріжжя", "  ", "Ладозька", "██", "█") == "Запоріжжя,  Ладозька д.██, кв.{'uk': '█'"
  {
    assert "Запоріжжя" + "," + "  " + "Ладозька" == "Запоріжжя,  Ладозька";
    assert "Запоріжжя,  Ладозька" + BuildingMark + "██" + ApartmentMark == "Запоріжжя,  Ладозька д.██, кв.";
  }

  /** The tested line with a doubled gap after the comma and a wrapped apartment. */
  lemma TestedExample()
    ensures FromWorkSchedule("Запоріжжя,  Ладозька д.██, кв.{'uk': '█'")
      == Ok(Address("Запоріжжя", "Ладозька", "██", "█"))
  {
    TestedParts();
    WrappedLineRoundTrip("Запоріжжя", "  ", "Ладозька", "██", "█");
    PlainStreetKept();
    TestedLine();
  }
}
