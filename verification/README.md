# nsg extraction engine, modelled in Dafny

nsg scrapes the order pages of an internet provider's contractor portal.
It turns already-parsed HTML into typed order records. This project models
that extraction engine in four layers.

1. **Label locator.**
   - `get_prev_element_ref` finds the nearest element sibling before a node.
   - `is_it` matches a `th` label against the `td`/`a` value that follows it.
   - `match_and_set!` dispatches over an ordered label table; the first match wins.
   - `selector!` chains the CSS selection with the text read.
2. **Micro-parsers.**
   - The address (`from_parts`, `transform_street`, `from_work_schedule`) and the MDU service area.
   - The time window, by both constructors.
   - The comment with its trailing `(user,datetime)` metadata, and one row of a request's history.
   - Three closed-set lookups: order type, status and internal status.
   - Two mappings of library errors to serialisable kinds.
3. **Record builders.**
   - The brief and view request scans: a label table over the document's leaves.
   - The basic-search table: columns by position.
   - The work-schedule order row: selectors and positional filters.
4. **Guaranteed conversions.** Each one turns a raw record, whose fields may be missing or
   unparsed, into a record without `Option`s, or into nothing.

How the source's form is kept:
- The request builders and the basic search mutate `self` in a loop. They are classes whose
  methods carry `modifies` clauses. Each loop is proved against a left fold (`Scan`, `MapRows`)
  whose properties are stated as lemmas.
- The view request's comment unwrapping is a loop with an early return. It is a method proved
  equal to the function `OkComments`.
- Everything else is pure and is modelled as functions and lemmas.

Regular expressions are hand-written matchers. Each matcher is proved sound and complete against
a predicate that spells out the pattern: leftmost start, greedy repetitions, and alternatives in
source order. `\d` is the Unicode decimal-digit class and `\s` is Unicode white space, as in the
Rust `regex` crate.

The HTML tree is an abstract `Node`: an element with a tag, attributes and children, a text node,
or another node. Library code outside the repository becomes parameters:
- CSS selection (`None` when a selector does not parse);
- HTML entity decoding;
- chrono's date-time and date parsing, including the Kyiv time-zone resolution.

A panic of the source (an `unwrap` on `None`, an index out of bounds) is an explicit `Panic`
outcome carrying the message.

## Model

| member | source | states |
|---|---|---|
| Base.Required | src/brief_request/guaranteed.rs:45-49 | `field?.ok()?`: present exactly when the field is `Some(Ok(v))`, and then `v` |
| Strings.TrimStart | src/basic_search/mod.rs:63 | only leading white space is cut, and the result starts with none |
| Strings.TrimEnd | src/basic_search/mod.rs:63 | only trailing white space is cut, and the result ends with none |
| Strings.TrimSpec | src/basic_search/mod.rs:63 | `trim` gives a slice of the input with no white space at either end, and cuts only white space |
| Strings.TrimIdempotent | src/work_schedule/order.rs:157 | trimming twice is trimming once |
| Strings.TrimEach | src/brief_request/mod.rs:206 | one text per text given, and text k is the k-th text trimmed |
| Strings.ReplaceAll | src/data/address.rs:62-65 | `str::replace`: a pattern that does not occur leaves the text unchanged |
| Strings.ReplaceAllKeepsHead | src/work_schedule/order.rs:113 | a text that does not start with the pattern's first character keeps its first character |
| Strings.ReplaceAllSkipsHead | src/view_request/mod.rs:133 | a head without the pattern's first character is passed over unchanged |
| Strings.ReplaceAllAtHead | src/view_request/mod.rs:133 | a text starting with the pattern has it replaced, and replacement goes on after it |
| Strings.RemoveDoubleSpaces | src/data/address.rs:63 | after removing every double space, no double space is left |
| Strings.RemoveChars | src/data/address.rs:57 | no removed character is left, every kept character comes from the text, and the text does not grow |
| Strings.RemoveCharsKeepsOthers | src/data/address.rs:57 | a text without the removed characters is unchanged |
| Strings.RemoveCharsAppend | src/work_schedule/order.rs:108 | removal distributes over concatenation |
| Strings.Split | src/work_schedule/order.rs:136 | `split(',')`: always at least one piece, no piece holds the separator, and joining the pieces with it gives the text back |
| Strings.SplitJoin | src/data/time_constrains.rs:85 | splitting a join of separator-free pieces gives the pieces back |
| Strings.ToLower | src/traits/is_it.rs:24 | `to_lowercase` keeps the length and lower-cases each character on its own |
| Strings.ToLowerIdempotent | src/traits/is_it.rs:24 | lower-casing a lower-cased text changes nothing |
| Numbers.Accumulate | src/data/mdu.rs:69 | reading digits left to right: a value means every character is a digit and the value is below the bound; an error is `InvalidDigit` or `PosOverflow` |
| Numbers.ParseUnsigned | src/basic_search/mod.rs:54 | unsigned `from_str`: a result is below the type's bound, and `Empty` comes exactly from the empty text |
| Numbers.AccumulateExact | src/data/mdu.rs:69 | reading succeeds exactly when every character is a digit and the value stays below the bound |
| Numbers.ParseUnsignedOk | src/basic_search/mod.rs:54 | a text parses exactly when it is an optional `+` and digits whose value fits; the result is that value |
| Numbers.ParseUnsignedOverflow | src/data/mdu.rs:69 | digits whose value does not fit are `PosOverflow`, however many there are |
| Numbers.ParseUnsignedInvalidHead | src/basic_search/mod.rs:53-55 | a first character that is not a digit is `InvalidDigit` |
| Numbers.DecimalString | src/data/mdu.rs:50 | the decimal text of a number is a non-empty digit run of that value |
| Numbers.ParseDecimalString | src/data/mdu.rs:69 | printing a value of the type and parsing it back gives the value |
| Numbers.LeadingZeros | src/data/mdu.rs:58-60 | leading zeros do not change the parsed value |
| Numbers.ParsePadded | src/data/mdu.rs:8-21 | digits after any number of zeros read as their value, or overflow when it does not fit |
| Matching.ArabicIndicDigits | src/data/time_constrains.rs:59 | `\d` includes digits of scripts other than ASCII |
| Matching.LastWhere | src/data/address.rs:85 | the largest position in a range that satisfies a predicate: where a greedy repetition stops |
| Matching.FirstWhere | src/data/address.rs:86 | the smallest position in a range that satisfies a predicate: the start of the leftmost match |
| Matching.RunEnd | src/data/mdu.rs:62 | a greedy run of a character class stops at the first character outside it |
| Matching.RunEndBound | src/data/mdu.rs:62 | any run of the class from the same start ends no later than the greedy run |
| Dom.FirstText | src/data/full_comment.rs:80 | `text().nth(0)`: the first text node below a node, or none when there is none |
| Dom.TextNodes | src/view_request/mod.rs:112 | helper: `text()`, the text nodes below a node in document order; an element's are its children's, concatenated (`TextNodesInAppend`) |
| Dom.TextNodesInAppend | src/view_request/mod.rs:112 | helper: the text nodes of consecutive siblings are each sibling's, in order |
| Dom.JoinedText | src/brief_request/mod.rs:77 | the text getter `text().collect_vec().join(" ")`: empty without text nodes, and the one text node's content when there is exactly one |
| Dom.ElementsOf | src/data/full_comment.rs:80 | `child_elements()`: only elements from the children, and none exactly when no child is an element |
| Dom.AttrValue | src/work_schedule/order.rs:102 | `attr(name)`: present exactly when the element has an attribute of that name |
| Chrono.FromHmsOpt | src/data/time_constrains.rs:77-78 | a time exists exactly for hours below 24 and minutes and seconds below 60, and keeps them |
| PrevElementRefTrait.PrevElement | src/traits/prev_element_ref.rs:4-14 | the nearest earlier sibling that is an element: every sibling between it and the node is not one, and there is none exactly when no earlier sibling is an element |
| PrevElementRefTrait.PrevElementRef | src/traits/prev_element_ref.rs:4-14 | the node found is an element sibling before the node |
| PrevElementRefTrait.PrevElementIgnoresFollowing | src/traits/prev_element_ref.rs:5 | the node itself and the siblings after it never change the answer |
| IsItTrait.IsIt | src/traits/is_it.rs:16-34 | a value exactly when there is an earlier element, it is a `th`, its joined lower-cased text equals the label, and the node is a `td` or an `a`; the value is the text getter's result |
| IsItTrait.UpperCaseLabelNeverMatches | src/traits/is_it.rs:24 | a label holding an upper-case letter never matches |
| IsItTrait.EmptyValueStillMatches | src/traits/is_it.rs:30 | an empty value text is `Some("")`, not `None` |
| Leaves.LeavesIn | src/brief_request/mod.rs:61-75 | every leaf found is an element with no child element or with exactly one `a` child, paired with its earlier element sibling |
| Leaves.DocumentLeaves | src/view_request/mod.rs:96-109 | the document's leaves, starting with the root when the root is one |
| Leaves.ElementsIn | src/brief_request/mod.rs:61-63 | `descendent_elements` below a list of siblings, in pre-order: elements only, and a first sibling that is an element comes first, paired with its nearest earlier element sibling |
| Leaves.DocumentElements | src/view_request/mod.rs:96-98 | the document's elements in pre-order: none exactly when the root is no element, and then the root first with no element before it |
| Leaves.KeepLeaves | src/brief_request/mod.rs:64-74 | the `filter_map`: every kept element is a leaf from the visits, and every visited leaf is kept |
| Leaves.KeepLeavesAppend | src/brief_request/mod.rs:64-74 | the filter distributes over concatenation, so it keeps the visiting order |
| Leaves.LeavesInFiltersElements | src/brief_request/mod.rs:61-74 | the leaves below a list of siblings are exactly its elements in pre-order, filtered |
| Leaves.DocumentLeavesFilterElements | src/view_request/mod.rs:96-109 | the document's leaves are exactly its elements in pre-order (`DocumentElements`, root first) filtered by `KeepLeaves`, in the same order |
| Macros.FirstMatch | src/macros.rs:13-27 | the table entry that fires is the first whose label matches; every earlier entry does not match |
| Macros.MatchingLabelFires | src/macros.rs:26 | with distinct labels, the entry whose label matches is the one that fires |
| Macros.FirstLabelFires | src/macros.rs:13-27 | an entry fires when its label matches and no earlier entry carries the same label |
| Macros.LabelledTexts | src/macros.rs:64-78 | the texts the table sends to a field: at most one per leaf |
| Macros.LabelledStep | src/macros.rs:75-77 | helper: one more leaf adds its text exactly when the table sends it to the field |
| Macros.LastText | src/macros.rs:41-51 | the last text sent to a field, present exactly when some leaf was sent there |
| Macros.LastTextStep | src/macros.rs:49-50 | one more leaf sent to the field replaces the last text; otherwise the text is kept |
| Macros.SelectArm | src/macros.rs:83-90 | `select`: none when the selector does not parse, otherwise the body on the selection |
| Macros.Picked | src/macros.rs:94 | an element is picked exactly when the selector parses and selects something |
| Macros.GetAndText | src/macros.rs:92-98 | `get_and_text`: none without a parsed selector, a picked element or its text; otherwise the body on the text |
| Macros.GetAs | src/macros.rs:100-106 | `get_as`: present exactly when an element is picked and has text; a failed parse is still present |
| IntErrorKinds.FromIntErrorKind | src/serializable_int_error_kind.rs:18-28 | every integer-parse kind maps to the variant of the same name, which maps back to it |
| IntErrorKinds.FromIntErrorKindBijective | src/serializable_int_error_kind.rs:19-28 | no two kinds map to the same variant, and every variant is reached |
| IntErrorKinds.ToIntErrorKind | src/serializable_int_error_kind.rs:19-28 | the kind a serialisable kind stands for, the inverse of `FromIntErrorKind` (`FromIntErrorKindBijective`) |
| IntErrorKinds.NonDigitText | src/basic_search/mod.rs:53-58 | numeric text with a non-digit is `InvalidDigit` |
| IntErrorKinds.TooLargeText | src/work_schedule/order.rs:105-109 | digits too large for the type are `PosOverflow` |
| IntErrorKinds.FromStrUnsigned | src/basic_search/mod.rs:54 | `from_str(..).map_err(kind.into())`: the value exactly when the text parses, otherwise the serialisable kind of the error |
| ParseErrorKinds.FromKind | src/serializable_parse_error_kind.rs:18-31 | each of the seven named kinds maps to its own variant; anything else maps to `Unknown` |
| ParseErrorKinds.FromError | src/serializable_parse_error_kind.rs:33-46 | the same mapping, applied to an error's kind |
| ParseErrorKinds.ConversionsAgree | src/serializable_parse_error_kind.rs:18-46 | both conversions give the same variant for the same kind |
| ParseErrorKinds.FromKindRoundTrip | src/serializable_parse_error_kind.rs:14-15 | every named kind survives a round trip, and `Unknown` (the default) is what every unnamed kind becomes |
| InternalStatusData.FromStr | src/data/internal_status.rs:31-44 | a status exactly for the nine labels, otherwise `InvalidStrStatus` carrying the text verbatim |
| InternalStatusData.LabelRoundTrip | src/data/internal_status.rs:33-41 | every label reads back as its own status, so the nine statuses are distinct |
| InternalStatusData.ExactMatching | src/data/internal_status.rs:42 | the empty text and a padded label are rejected verbatim |
| StatusData.FromStr | src/data/status.rs:30-42 | a status exactly for the eight labels, otherwise `InvalidStatus` carrying the text verbatim |
| StatusData.LabelRoundTrip | src/data/status.rs:32-39 | every label reads back as its own status, so the eight statuses are distinct |
| StatusData.ExactMatching | src/data/status.rs:38 | the empty text is `Empty`; a label with extra spaces is rejected |
| OrderTypeData.FromStr | src/data/order_type.rs:51-81 | an error carries the text verbatim; `FromStrIsTable` states which texts succeed |
| OrderTypeData.LiteralLacksMasterMark | src/data/order_type.rs:63 | no literal mentions the master service, so the catch-all arm never shadows a literal |
| OrderTypeData.FromStrIsTable | src/data/order_type.rs:52-80 | a text is known exactly when it is a literal (then the type beside it) or mentions the master service (then `OthersMaster`) |
| OrderTypeData.TunerDialectsAgree | src/data/order_type.rs:54-56 | both spellings of a tuner service give the same type |
| OrderTypeData.NetDialectsAgree | src/data/order_type.rs:57-75 | both spellings of Gigabit, a broken-network complaint, the master service and an inclusion complaint give the same type |
| OrderTypeData.ActivityOnlyWhenPrefixed | src/data/order_type.rs:58-76 | the `Актив-`/`Пассив-` forms give the active and passive variants; the bare forms give the unknown ones |
| OrderTypeData.MasterWithSuffix | src/data/order_type.rs:63 | a text beginning with the master service is `OthersMaster`, whatever follows |
| OrderTypeData.UnknownText | src/data/order_type.rs:79 | text that is no literal and does not mention the master service is rejected verbatim |
| AddressData.FromParts | src/data/address.rs:52-59 | city and building kept, street corrected by `TransformStreet`, apartment with every debris character removed: no debris left, only characters of the given apartment, and an apartment without debris unchanged |
| AddressData.TransformStreet | src/data/address.rs:61-66 | `transform_street`: a street with no double space, no `вулиця ` and no old district name is unchanged (`TransformStreetDocumented` and `FirstStepRemovesDoubleSpaces` state what the corrections do) |
| AddressData.FromPartsUnwraps | src/data/address.rs:52-59 | an apartment number wrapped as `{'uk': '<number>'` comes out as the bare number |
| AddressData.TransformStreetDocumented | src/data/address.rs:13-17 | `вулиця Зернова (Ленінський)` becomes `Зернова` |
| AddressData.FromPartsExample | src/data/address.rs:37-50 | the documented `from_parts` example: street `Зернова`, apartment `0` from `{'uk': '0'` |
| AddressData.PlainStreetKept | src/tests/data/address.rs:15-23 | a street name with nothing to correct, such as `Ладозька`, is kept as it is |
| AddressData.FromLine | src/brief_request/mod.rs:294-303 | panics exactly when the address line has no comma; otherwise street is the text before the first comma and building the next comma piece |
| AddressData.FirstStepRemovesDoubleSpaces | src/data/address.rs:63 | the first correction leaves no double space |
| AddressData.ApartmentSound | src/data/address.rs:85 | the apartment alternation found is a match of it |
| AddressData.ApartmentComplete | src/data/address.rs:85 | whenever the apartment alternation can match, it does; the wrapper wins when it can; each run is the longest |
| AddressData.BuildingSound | src/data/address.rs:85 | the building part found is a match of it |
| AddressData.BuildingComplete | src/data/address.rs:85 | whenever the building part can match, it does, with the longest run |
| AddressData.StreetSound | src/data/address.rs:85 | the street part found is a match of it |
| AddressData.StreetComplete | src/data/address.rs:85 | whenever the street part can match, it does, with the longest street |
| AddressData.GapSound | src/data/address.rs:85 | the white-space gap found is a match of it |
| AddressData.GapComplete | src/data/address.rs:85 | whenever the gap can match, it does, with the longest white-space run |
| AddressData.MatchAtSound | src/data/address.rs:85 | what the matcher finds at a position is a match of the whole pattern |
| AddressData.MatchAt | src/data/address.rs:85 | helper: the pattern at one start, each repetition as long as the rest allows; `MatchAtSound` and `MatchAtComplete` state what it finds |
| AddressData.MatchAtComplete | src/data/address.rs:85 | wherever the pattern can match, the matcher finds a match with the longest city |
| AddressData.FindAddressLeftmost | src/data/address.rs:86 | the match reported is a match with no match starting earlier; there is none exactly when the pattern matches nowhere |
| AddressData.FindAddress | src/data/address.rs:86 | helper: `captures`, a start inside the text; `FindAddressLeftmost` states that it is the leftmost match |
| AddressData.ReadMatch | src/data/address.rs:86-96 | `NoMatch` without a match; a result comes from a real match, and its city is the text from the start to the city's end |
| AddressData.NoMatchExactly | src/data/address.rs:84-86 | `from_work_schedule` is `NoMatch` exactly when the pattern matches nowhere in the text |
| AddressData.FromWorkSchedule | src/data/address.rs:84-97 | the captures of the leftmost match: city, corrected street, building, and the wrapped or bare apartment; `NoMatch` without a match (`NoMatchExactly`, `WrappedLineRoundTrip`, `DocumentedExample`) |
| AddressData.LineShape | src/data/address.rs:85 | helper: an assembled line matches the pattern at its start with the parts' spans |
| AddressData.LineMatch | src/data/address.rs:86 | helper: the leftmost match of an assembled line starts at 0 and has exactly the parts' spans |
| AddressData.LineTexts | src/data/address.rs:88-96 | helper: the captures of that match are the parts, the street corrected |
| AddressData.WrappedLineRoundTrip | src/data/address.rs:84-97 | `city, <white space>street д.building, кв.{'uk': 'number'` made of parts of the shapes the pattern allows reads back as those parts, the street corrected: the longest city cannot run past the first comma, and the wrapper wins over a bare apartment |
| AddressData.DocumentedExample | src/data/address.rs:74-82 | the documented line reads as city `Запоріжжя`, street `Зернова`, building `19А`, apartment `0` |
| AddressData.TestedExample | src/tests/data/address.rs:15-23 | a doubled gap after the comma and a wrapped apartment read as `Запоріжжя`, `Ладозька`, `██`, `█` |
| MduData.DigitIsNoLetter | src/data/mdu.rs:62 | no decimal digit is an ASCII letter, so the letter run ends where the digits start |
| MduData.MatchAtSpec | src/data/mdu.rs:62 | the matcher finds a match exactly when one starts there; its letters are those of every match and its digits the longest run |
| MduData.MatchAt | src/data/mdu.rs:62-64 | a match found at `i` starts there, with at least one letter after `MDU_` and at least one digit after them |
| MduData.FindSpec | src/data/mdu.rs:64 | the leftmost match is a match, and none starts earlier |
| MduData.Find | src/data/mdu.rs:64 | the leftmost match, with letters and digits inside the text (`FindSpec`: none starts earlier) |
| MduData.FromWorkScheduleSpec | src/data/mdu.rs:61-71 | `NoMatch` exactly when no `MDU_`, letters and digits occur in that order; otherwise the city code is the letter run and the number the digit run's value, or `FailedToParseNumber` when that value does not fit a `u32` |
| MduData.FromWorkSchedule | src/data/mdu.rs:61-71 | `MDU::from_work_schedule`: the leftmost match's letters and its digits as a `u32` (`FromWorkScheduleSpec`, `CodeAndNumber`, `Examples`) |
| MduData.WholeText | src/data/mdu.rs:54-60 | in `MDU_<letters><digits>` the leftmost match starts at 0 and takes every letter and every digit |
| MduData.FromSpans | src/data/mdu.rs:66-70 | helper: once the leftmost match is known, the result depends only on its captures |
| MduData.CodeAndNumber | src/data/mdu.rs:66-70 | `MDU_<letters><digits>` gives the letters and the digits' value; a value of 2^32 or more fails to parse |
| MduData.Examples | src/data/mdu.rs:8-21 | `MDU_ZAP00029` and `MDU_ZAP29` both give ZAP and 29 |
| MduData.DigitsWithoutLetters | src/data/mdu.rs:62 | digits straight after `MDU_` are no match |
| TimeConstrainsData.FromComponents | src/data/time_constrains.rs:93-107 | each component read as a `u32` in order (first failure is `FailedToParse`), then both times built with zero seconds (`InvalidNaiveTime` when either does not exist) |
| TimeConstrainsData.WindowLeftmost | src/data/time_constrains.rs:61 | the leftmost window is a window with none starting earlier; there is none exactly when no window exists |
| TimeConstrainsData.Window | src/data/time_constrains.rs:59-61 | the start found is a window inside the text (`WindowLeftmost`: none starts earlier) |
| TimeConstrainsData.WindowAtStart | src/data/time_constrains.rs:61 | a window with none before it is the leftmost one |
| TimeConstrainsData.FromSpec | src/data/time_constrains.rs:58-81 | no window gives `NoMatch`; otherwise the result is that of the leftmost window's components |
| TimeConstrainsData.From | src/data/time_constrains.rs:58-81 | `TimeConstrains::from`: the four digit pairs of the leftmost window read as components (`FromSpec`, `NoMatchExactly`, `DocumentedExample`) |
| TimeConstrainsData.NoMatchExactly | src/data/time_constrains.rs:59-61 | a text is `NoMatch` exactly when it holds no window |
| TimeConstrainsData.FromWorkSchedule | src/data/time_constrains.rs:84-108 | never `NoHourElement` (nor `NoMatch`); `NoMinuteElement` exactly when a value has no `:` |
| TimeConstrainsData.Components | src/data/time_constrains.rs:85-91 | for `hour:minute`, possibly followed by more pieces, the components are `hour` and `minute` |
| TimeConstrainsData.EmptyHour | src/data/time_constrains.rs:88 | an empty hour fails to parse; `NoHourElement` never arises |
| TimeConstrainsData.PhraseWindow | src/data/time_constrains.rs:57-59 | two-digit pairs written into the phrase form a window at its start with those pairs |
| TimeConstrainsData.ComponentsExact | src/data/time_constrains.rs:85-91 | values that are exactly `hour:minute` give those components |
| TimeConstrainsData.ConstructorsAgree | src/data/time_constrains.rs:9-22 | two two-digit pairs in the phrase and in the two cells give the same result |
| TimeConstrainsData.AsciiPair | src/data/time_constrains.rs:63-66 | two ASCII digits always read, as their two-digit value |
| TimeConstrainsData.AsciiWindowReads | src/data/time_constrains.rs:65 | with ASCII digits, a window never gives `FailedToParse` |
| TimeConstrainsData.OtherScriptDigits | src/data/time_constrains.rs:59-66 | Arabic-Indic digits match `\d` but fail to parse, so a well-shaped phrase can give `FailedToParse` |
| TimeConstrainsData.DocumentedExample | src/data/time_constrains.rs:9-22 | `с 10:00 до 10:29` and the cells `10:00`, `10:29` give 10:00 to 10:29 |
| TimeConstrainsData.MissingSpace | src/data/time_constrains.rs:59 | without the space before `до` there is no window |
| TimeConstrainsData.OutOfRangeTime | src/data/time_constrains.rs:77-78 | `99:99` reads but is `InvalidNaiveTime` |
| TimeConstrainsData.OverflowingHour | src/data/time_constrains.rs:93-95 | an hour beyond the `u32` range is `FailedToParse`, whatever the other value holds |
| CommentData.DigitsNonSpace | src/data/comment.rs:49 | decimal digits are not white space |
| CommentData.LastTokenCommaSound | src/data/comment.rs:49 | the comma found for the third token fits that token |
| CommentData.DateTimeRun | src/data/comment.rs:49 | a date-time tail holds no white space before its inner space |
| CommentData.RunEndAt | src/data/comment.rs:49 | a non-space run ended by a space is the greedy run |
| CommentData.TokensCommaParts | src/data/comment.rs:49 | the first two tokens are non-empty runs, each ended by a space |
| CommentData.TokensCommaSound | src/data/comment.rs:49 | what the three-token alternative finds fits it |
| CommentData.LastTokenCommaComplete | src/data/comment.rs:49 | a third token before a date-time tail ends at that tail's comma |
| CommentData.LastTokenRun | src/data/comment.rs:49 | the third token's greedy run goes on into the date up to its inner space |
| CommentData.LastTokenNonSpace | src/data/comment.rs:49 | from the third token to the date-time's inner space there is no white space |
| CommentData.TokensCommaComplete | src/data/comment.rs:49 | wherever the three-token alternative fits, its comma is the one found |
| CommentData.MatchAtSound | src/data/comment.rs:49 | what the matcher finds is metadata, and `Система` wins whenever it fits |
| CommentData.MatchAt | src/data/comment.rs:49 | a match found at `i` opens with `(` there, and its comma lies after it |
| CommentData.MatchAtComplete | src/data/comment.rs:49 | wherever the token alternative fits and `Система` does not, the matcher finds it with the same comma |
| CommentData.FindSpec | src/data/comment.rs:52 | the leftmost metadata is metadata with none starting earlier; there is none exactly when no metadata exists |
| CommentData.Find | src/data/comment.rs:52 | the leftmost metadata opens with `(` inside the text, with its comma after it (`FindSpec`: none starts earlier) |
| CommentData.FindAt | src/data/comment.rs:52 | metadata at a position with none before it is what the search gives |
| CommentData.AsDateTime | src/data/comment.rs:67-76 | the date-time parse, its error reduced to the serialisable kind |
| CommentData.From | src/data/comment.rs:44-65 | never an error: decode and replace `<br/>`, find the leftmost metadata, then assemble |
| CommentData.Clean | src/data/comment.rs:45-46 | entities decoded, then every `<br/>` turned into a line feed; applied to the raw text and again to the text left after the metadata (`WithoutMetadata`, `WithMetadata`) |
| CommentData.FromText | src/data/comment.rs:52-64 | with metadata: removed, text cleaned again, user and parsed date-time kept; without: text cleaned again, no user or date-time |
| CommentData.WithoutMetadata | src/data/comment.rs:60-64 | without metadata the text is cleaned twice and there is neither user nor date-time |
| CommentData.FromMeta | src/data/comment.rs:52-57 | helper: once the leftmost metadata is known, the comment is built from its pieces |
| CommentData.FromTextMeta | src/data/comment.rs:53-57 | helper: with metadata that fits: the text around it cleaned, the user and date-time from inside it |
| CommentData.WithMetadata | src/data/comment.rs:52-57 | with metadata, the user is what stands between `(` and the comma, the date-time is parsed from the 19 characters after it, and the text is what surrounds the metadata, cleaned again |
| CommentData.DigitsSlice | src/data/comment.rs:49 | digits of a slice are digits of the text it is a slice of |
| CommentData.DateTimeSlice | src/data/comment.rs:49 | a date-time text between a comma and `)` is a date-time tail there |
| CommentData.SystemUserNoSpace | src/data/comment.rs:49 | `Система` holds no space and no comma |
| CommentData.NotSystem | src/data/comment.rs:49 | a first token without a comma that runs to a space rules out `Система` |
| CommentData.NoMetaBefore | src/data/comment.rs:49 | no metadata starts where there is no `(` |
| CommentData.RenderedLaid | src/data/comment.rs:49 | helper: a written-out comment and one laid out piece by piece are the same |
| CommentData.LaidRendering | src/data/comment.rs:49 | helper: the written-out comment is laid out piece by piece |
| CommentData.LaidUnique | src/data/comment.rs:49 | helper: two texts laid out from the same pieces are equal |
| CommentData.LaidUser | src/data/comment.rs:54 | the user of a laid-out comment is the three tokens with their two spaces |
| CommentData.LaidTokens | src/data/comment.rs:49 | the three tokens and the date-time of a laid-out comment make the token alternative |
| CommentData.LaidLacks | src/data/comment.rs:49 | a laid-out comment whose text has no `(` and whose first token has no comma |
| CommentData.LaidFind | src/data/comment.rs:52 | in a laid-out comment the leftmost metadata opens after the text, its comma after the third token |
| CommentData.TokensText | src/data/comment.rs:53-57 | a laid-out comment read with the metadata after its text |
| CommentData.TokensComment | src/data/comment.rs:44-58 | text `(a b c,YYYY-MM-DD HH:MM:SS)`: user `a b c`, the date-time parsed from its text (an out-of-range time is kept as an error), and the text without the metadata |
| CommentData.SystemFind | src/data/comment.rs:52 | in a laid-out system comment the metadata opens after the text, its comma right after `Система` |
| CommentData.SystemText | src/data/comment.rs:53-57 | a laid-out system comment read with the metadata after its text |
| CommentData.SystemComment | src/data/comment.rs:44-58 | `(Система,` date-time `)` after a text without `(`: the user is `Система`, the rest as for a person |
| CommentData.NoDateTimeNoMetadata | src/data/comment.rs:60-64 | a date without its full shape is no metadata: the text keeps its `(…)` and there is no user or date-time |
| FullCommentData.Cells | src/data/full_comment.rs:80 | one entry per child element, each that element's first text node |
| FullCommentData.FromCells | src/data/full_comment.rs:82-97 | presence checks of cells 0, 2 and 4 in that order (a shorter row panics at the index reached), then cell 5 read, then the date-time parse, then the status parse |
| FullCommentData.From | src/data/full_comment.rs:78-98 | `FullComment::from`: the row's child elements' first text nodes read by `FromCells` (`Success`, `DateTimeFailsFirst`, `StatusFails`, `FiveCells`, `RowCells`) |
| FullCommentData.DateTimeFailsFirst | src/data/full_comment.rs:87-88 | with every needed cell present, an unreadable date-time is `DateTimeFailed` with the raw text, whatever the status holds |
| FullCommentData.StatusFails | src/data/full_comment.rs:89-90 | with a readable date-time, an unknown status is `InvalidInternalStatus` with its text |
| FullCommentData.Success | src/data/full_comment.rs:82-97 | a row reads exactly when every needed cell is present, the date-time parses and the status is a label; the comment carries that status, user and text |
| FullCommentData.IgnoredCells | src/data/full_comment.rs:82-85 | cells 1 and 3 are never read |
| FullCommentData.FiveCells | src/data/full_comment.rs:85 | a five-cell row with the other cells present panics reading cell 5 |
| FullCommentData.RowCells | src/data/full_comment.rs:80 | a row of six cells or more never panics; `DateTimeShouldBePresent` exactly when the first cell has no text node |
| BriefRequestParser.AsDateTime | src/brief_request/mod.rs:306-316 | the `%Y-%m-%d %H:%M:%S` parse, its error reduced to the serialisable kind |
| BriefRequestParser.Parsers | src/brief_request/mod.rs:84-292 | the closures of the label table: ids as `u32`, the date-time, the comment and the data-type parsers |
| BriefRequestParser.Finish | src/brief_request/mod.rs:294-303 | with all three address pieces, the address from the line (or a panic); otherwise the request unchanged |
| BriefRequestParser.ApplyTouchesOneField | src/macros.rs:24 | a closure changes its own field and nothing else |
| BriefRequestParser.StepSetsAtMostOneField | src/brief_request/mod.rs:84-292 | one leaf changes at most one field: that of the first label naming it, or none |
| BriefRequestParser.LabelledLeaf | src/brief_request/mod.rs:84-292 | a leaf under a table label goes to that label's field with its joined text, when no earlier label is the same |
| BriefRequestParser.UnreadableCreationDate | src/brief_request/mod.rs:118-128 | a creation date that does not parse is kept as the error's kind |
| BriefRequestParser.EmptyService | src/brief_request/mod.rs:183-203 | an empty package cell makes the service `None` |
| BriefRequestParser.ScanPhones | src/brief_request/mod.rs:204-221 | phones are only appended to: the trimmed texts of both phone labels' cells, in document order |
| BriefRequestParser.ScanInstallers | src/brief_request/mod.rs:242-259 | installers are only appended to: the untrimmed texts of both installer labels' cells, in document order |
| BriefRequestParser.ScanClient | src/brief_request/mod.rs:173-182 | the client is the trimmed text of the last client cell |
| BriefRequestParser.ScanService | src/brief_request/mod.rs:183-203 | the service is the text of the last package cell, none when that text is empty |
| BriefRequestParser.ScanPending | src/brief_request/mod.rs:140-172 | each address piece is the text of the last cell with its label |
| BriefRequestParser.CollectAddress | src/brief_request/mod.rs:294-303 | the address is set exactly when city, line and apartment were all found, from the last of each |
| BriefRequestParser.BriefRequest.constructor | src/brief_request/mod.rs:25-42 | `BriefRequest::default()`: every field empty |
| BriefRequestParser.BriefRequest.AssignIdentity | src/brief_request/mod.rs:85-128 | the identifying field the leaf names is assigned its closure's value, as `Apply` says |
| BriefRequestParser.BriefRequest.AssignProgress | src/brief_request/mod.rs:129-139 | the status, time window or comment field the leaf names is assigned its closure's value, as `Apply` says |
| BriefRequestParser.BriefRequest.AssignText | src/brief_request/mod.rs:173-203 | the client (trimmed), the service (none when empty) or the account is assigned, as `Apply` says |
| BriefRequestParser.BriefRequest.Push | src/brief_request/mod.rs:204-259 | the phone (trimmed) or the installer is pushed, as `Apply` says |
| BriefRequestParser.BriefRequest.Absorb | src/brief_request/mod.rs:85-292 | one loop pass: the new state is `Step` of the old one |
| BriefRequestParser.BriefRequest.ScanLeaves | src/brief_request/mod.rs:84-292 | the loop: the new state is the fold `Scan` over the leaves |
| BriefRequestParser.BriefRequest.Assemble | src/brief_request/mod.rs:294-303 | the address assembly, as `Finish` says, with the panic message when the line has no comma |
| BriefRequestParser.BriefRequest.CollectFragments | src/brief_request/mod.rs:58-304 | the scan then the assembly, as `Collect` says |
| BriefRequestParser.Parse | src/brief_request/mod.rs:48-56 | a fresh default request filled from the document, as `From` says |
| BriefRequestParser.Apply | src/brief_request/mod.rs:85-292 | the closures of the label table: the named field assigned or appended to, every other field kept (`ApplyTouchesOneField`) |
| BriefRequestParser.Step | src/brief_request/mod.rs:84-292 | one pass of the loop body: the first label matching the leaf runs its closure, or nothing changes (`StepSetsAtMostOneField`, `LabelledLeaf`) |
| BriefRequestParser.Scan | src/brief_request/mod.rs:61-292 | the loop over the leaves as a left fold of `Step` (`ScanPhones`, `ScanInstallers`, `ScanClient`, `ScanService`, `ScanPending`; `ScanLeaves` computes it) |
| BriefRequestParser.Collect | src/brief_request/mod.rs:58-304 | `collect_fragments`: the scan with the label table, then the address assembly (`CollectAddress`; `CollectFragments` computes it) |
| BriefRequestParser.From | src/brief_request/mod.rs:48-56 | `BriefRequest::from`: the default request filled from the document's leaves (`Parse` computes it) |
| BriefRequestGuaranteed.RawComment | src/brief_request/guaranteed.rs:56-57 | present exactly when the comment is, as `Some(Ok(c))` |
| BriefRequestGuaranteed.IntoGuaranteed | src/brief_request/guaranteed.rs:39-61 | a result stands for the card and has a phone and both comments; no result means no such record stands for the card |
| BriefRequestGuaranteed.RoundTrip | src/brief_request/guaranteed.rs:39-61 | a guaranteed record with a phone and both comments comes back unchanged from the card it stands for |
| BriefRequestGuaranteed.NoPhones | src/brief_request/guaranteed.rs:40-42 | a card without phones is never accepted |
| BriefRequestGuaranteed.CommentsRequired | src/brief_request/guaranteed.rs:56-57 | a missing or unparsed first or last comment rejects the card |
| BriefRequestGuaranteed.OptionalFields | src/brief_request/guaranteed.rs:52-55 | no service and no installers do not reject the card |
| ViewRequestParser.IdText | src/view_request/mod.rs:133 | the heading text with every `Заявка №` removed |
| ViewRequestParser.IdTextOfHeading | src/view_request/mod.rs:132-133 | a heading of words without `З`, then `Заявка №` and digits, keeps the words and the digits once the mark is removed |
| ViewRequestParser.IdTextOfBareHeading | src/view_request/mod.rs:132-133 | `Заявка №` and digits leaves the digits |
| ViewRequestParser.AsDateTime | src/view_request/mod.rs:337-346 | the `%Y-%m-%d %H:%M:%S` parse, its error reduced to the serialisable kind |
| ViewRequestParser.AsDate | src/view_request/mod.rs:307 | the `%d.%m.%Y` parse of the assigned date, its error reduced to the serialisable kind |
| ViewRequestParser.Parsers | src/view_request/mod.rs:119-321 | the closures of the label table, as the source writes them |
| ViewRequestParser.Comments | src/view_request/comments.rs:8-19 | every history row read in order; the first row whose reading panics ends the reading with that panic |
| ViewRequestParser.Place | src/view_request/mod.rs:325-334 | with all three address pieces, the address from the line (or a panic); otherwise the request unchanged |
| ViewRequestParser.ApplyTouchesOneField | src/macros.rs:24 | what a leaf sets changes its own field and nothing else |
| ViewRequestParser.HeaderNotLabelled | src/view_request/mod.rs:122-135 | an `h3` is neither `td` nor `a`, so no label names it |
| ViewRequestParser.IsHeader | src/view_request/mod.rs:122-125 | a leaf is the request heading only when it is an `h3` whose joined text contains `Заявка №`, hence is at least as long as the mark |
| ViewRequestParser.StepSetsAtMostOneField | src/view_request/mod.rs:119-321 | one leaf changes at most one field: the internal id for a marked heading, else that of the first label naming it, or none |
| ViewRequestParser.PlainHeading | src/view_request/mod.rs:125 | an `h3` without the mark goes through the label table like any leaf |
| ViewRequestParser.LabelledLeaf | src/view_request/mod.rs:138-313 | a leaf under a table label goes to that label's field with its joined text, when no earlier label is the same |
| ViewRequestParser.UnreadableAssignedFor | src/view_request/mod.rs:304-313 | an assigned date that does not parse is kept as the error's kind |
| ViewRequestParser.EmptyService | src/view_request/mod.rs:218-227 | an empty package cell makes the service `None` |
| ViewRequestParser.ScanPhones | src/view_request/mod.rs:228-245 | phones are only appended to: the untrimmed texts of both phone labels' cells, in document order |
| ViewRequestParser.ScanInstallers | src/view_request/mod.rs:276-293 | installers are only appended to: the texts of both installer labels' cells, in document order |
| ViewRequestParser.ScanPending | src/view_request/mod.rs:178-207 | each address piece is the text of the last cell with its label |
| ViewRequestParser.CollectAddress | src/view_request/mod.rs:323-334 | a panic reading the history wins; otherwise the address is set exactly when city, line and apartment were all found, from the last of each |
| ViewRequestParser.ViewRequest.constructor | src/view_request/mod.rs:83-85 | `ViewRequest::default()`: every field empty |
| ViewRequestParser.ViewRequest.AssignIdentity | src/view_request/mod.rs:122-167 | the heading's internal id, or the identifying field the leaf names, is assigned its closure's value |
| ViewRequestParser.ViewRequest.AssignProgress | src/view_request/mod.rs:168-177 | the status, time window or assigned-date field the leaf names is assigned its closure's value |
| ViewRequestParser.ViewRequest.AssignText | src/view_request/mod.rs:208-266 | the client, the service (none when empty), the account or the seller is assigned |
| ViewRequestParser.ViewRequest.Push | src/view_request/mod.rs:228-293 | the phone or the installer is pushed, untrimmed |
| ViewRequestParser.ViewRequest.Absorb | src/view_request/mod.rs:119-321 | one loop pass: the new state is `Step` of the old one |
| ViewRequestParser.ViewRequest.ScanLeaves | src/view_request/mod.rs:119-321 | the loop: the new state is the fold `Scan` over the leaves |
| ViewRequestParser.ViewRequest.SetComments | src/view_request/comments.rs:8-19 | the comments are the rows read in order, unless reading one panics |
| ViewRequestParser.ViewRequest.Assemble | src/view_request/mod.rs:325-334 | the address assembly, as `Place` says |
| ViewRequestParser.ViewRequest.CollectFragments | src/view_request/mod.rs:93-335 | the scan, the history and the assembly, as `Collect` says |
| ViewRequestParser.Parse | src/view_request/mod.rs:83-91 | a fresh default request filled from the document, as `From` says |
| ViewRequestParser.Apply | src/view_request/mod.rs:119-321 | the closures of the label table and of the marked heading: the named field assigned or appended to, every other field kept (`ApplyTouchesOneField`) |
| ViewRequestParser.Step | src/view_request/mod.rs:119-321 | one pass of the loop body: a marked heading sets the internal id, otherwise the first label matching the leaf runs its closure, or nothing changes (`StepSetsAtMostOneField`, `PlainHeading`, `LabelledLeaf`) |
| ViewRequestParser.Scan | src/view_request/mod.rs:96-321 | the loop over the leaves as a left fold of `Step` (`ScanPhones`, `ScanInstallers`, `ScanPending`; `ScanLeaves` computes it) |
| ViewRequestParser.Finish | src/view_request/mod.rs:323-334 | after the loop: the history rows read, then the address assembled (`CollectAddress`) |
| ViewRequestParser.Collect | src/view_request/mod.rs:93-335 | `collect_fragments`: the scan with the label table, then `Finish` (`CollectFragments` computes it) |
| ViewRequestParser.From | src/view_request/mod.rs:83-91 | `ViewRequest::from`: the default request filled from the document (`Parse` computes it) |
| ViewRequestGuaranteed.OkComments | src/view_request/guaranteed.rs:38-41 | present exactly when every row was read without error; then the same count, and row `k` is `Ok` of comment `k` |
| ViewRequestGuaranteed.RawComments | src/view_request/guaranteed.rs:59 | comment `k` stored as row `k` read without error |
| ViewRequestGuaranteed.OkRawComments | src/view_request/guaranteed.rs:38-41 | reading back comments stored as rows gives the same comments |
| ViewRequestGuaranteed.Guarantee | src/view_request/guaranteed.rs:32-62 | a result stands for the card and has a phone |
| ViewRequestGuaranteed.RoundTrip | src/view_request/guaranteed.rs:32-62 | every card that a guaranteed record with a phone stands for is accepted, and gives that record |
| ViewRequestGuaranteed.FailedRowRejects | src/view_request/guaranteed.rs:38-41 | one history row read with an error rejects the card |
| ViewRequestGuaranteed.NoHistoryAllowed | src/view_request/guaranteed.rs:38-41 | an empty history does not reject the card; the record then has no comments |
| ViewRequestGuaranteed.OptionalFields | src/view_request/guaranteed.rs:51-55 | no service, no seller and no installers do not reject the card |
| ViewRequestGuaranteed.UnwrapComments | src/view_request/guaranteed.rs:38-41 | the loop with its early return computes `OkComments` |
| ViewRequestGuaranteed.OkPrefix | src/view_request/guaranteed.rs:39-40 | a failed row within a prefix fails the whole history |
| ViewRequestGuaranteed.IntoGuaranteed | src/view_request/guaranteed.rs:32-62 | the method computes `Guarantee` |
| ViewRequestGuaranteed.Fill | src/view_request/guaranteed.rs:43-60 | present exactly when every field behind a `?` is present and parsed; the record then holds the unwrapped comments and stands for the card with its history stored as read rows (`Raw`) |
| BasicSearchParser.GetText | src/basic_search/mod.rs:81-89 | present exactly when the element exists and its joined text is not empty; then that text |
| BasicSearchParser.GetProp | src/basic_search/mod.rs:91-93 | none without text, otherwise the callback on the text |
| BasicSearchParser.EmptyCell | src/basic_search/mod.rs:84-86 | a cell with no text node or one empty text node counts as missing |
| BasicSearchParser.SingleTextCell | src/basic_search/mod.rs:82 | a cell with one non-empty text node gives that text |
| BasicSearchParser.Nth | src/basic_search/mod.rs:53 | `nth(n)`: skip `n` and yield the next; past the end nothing is yielded and nothing is left |
| BasicSearchParser.Cell | src/basic_search/mod.rs:53 | the cell in a column, present exactly when the row has that many cells |
| BasicSearchParser.NthOfDrop | src/basic_search/mod.rs:53-71 | `n` more after `k` taken reaches column `k + n` |
| BasicSearchParser.AsPlain | src/basic_search/mod.rs:64 | the phone and the installer are the text as it is |
| BasicSearchParser.AsDate | src/basic_search/mod.rs:65-67 | the `%Y-%m-%d` parse, its error reduced to the serialisable kind |
| BasicSearchParser.Parsers | src/basic_search/mod.rs:53-74 | the closures: ids as `u32`, client trimmed, the date, the status, the MDU and `Address::from_parts` |
| BasicSearchParser.MapRows | src/basic_search/mod.rs:49-78 | one result per row, in order |
| BasicSearchParser.MapRowsPointwise | src/basic_search/mod.rs:49-78 | result `k` is the function applied to row `k` |
| BasicSearchParser.Entries | src/basic_search/mod.rs:49-78 | one entry per row, in document order |
| BasicSearchParser.EntriesPointwise | src/basic_search/mod.rs:49-78 | entry `k` is the entry of row `k` |
| BasicSearchParser.EntryOf | src/basic_search/mod.rs:50-75 | the entry of one row, its columns read by position (`EmptyRow`, `ShortRow`, `TextColumns`, `AddressFromFourCells`, `SkippedColumns`, `NonNumericId`, `BadDate`) |
| BasicSearchParser.EmptyRow | src/basic_search/mod.rs:50 | a row without cells still gives an entry, the default one |
| BasicSearchParser.SkippedColumns | src/basic_search/mod.rs:68 | columns 9 and 10 never change the entry |
| BasicSearchParser.ShortRow | src/basic_search/mod.rs:53-71 | a row of at most five cells has no address and nothing after the ids |
| BasicSearchParser.AddressFromFourCells | src/basic_search/mod.rs:73-75 | the address is present exactly when the four address cells have text, and is `from_parts` of them |
| BasicSearchParser.TextColumns | src/basic_search/mod.rs:63-68 | client is column 6 trimmed, phone column 7 and installer column 11 as they are |
| BasicSearchParser.NonNumericId | src/basic_search/mod.rs:53-55 | an id cell starting with a non-digit is `Some(Err(InvalidDigit))` |
| BasicSearchParser.BadDate | src/basic_search/mod.rs:65-67 | an unreadable update date is kept with its error's kind |
| BasicSearchParser.BasicSearch.constructor | src/basic_search/mod.rs:37 | `BasicSearch::default()`: no entries |
| BasicSearchParser.BasicSearch.ReadEntry | src/basic_search/mod.rs:50-75 | the loop body, advancing the iterator with `nth`, gives the entry of the row's cells |
| BasicSearchParser.BasicSearch.Advance | src/basic_search/mod.rs:51-71 | `nth(n)` after `taken` cells yields column `taken + n` and leaves the iterator just after it |
| BasicSearchParser.BasicSearch.CollectFragments | src/basic_search/mod.rs:45-79 | the entries of the rows are appended, in order |
| BasicSearchParser.Parse | src/basic_search/mod.rs:36-43 | a fresh search holding exactly the entries of the rows |
| SearchEntryData.IntoGuaranteed | src/basic_search/search_entry.rs:49-63 | a result stands for the entry; no result means no guaranteed entry stands for it |
| SearchEntryData.RoundTrip | src/basic_search/search_entry.rs:50-62 | a guaranteed entry comes back from the entry it stands for |
| SearchEntryData.Accepted | src/basic_search/search_entry.rs:50-62 | accepted exactly when ids, MDU, status and date are `Some(Ok)` and phone, address and client `Some`; the installer plays no part |
| SearchEntryData.DefaultRejected | src/basic_search/search_entry.rs:50-62 | an entry with nothing found is rejected |
| WorkScheduleOrder.IntoGuaranteed | src/work_schedule/order.rs:82-97 | a result stands for the order; no result means no guaranteed order stands for it |
| WorkScheduleOrder.RoundTrip | src/work_schedule/order.rs:82-97 | a guaranteed order comes back from the order it stands for |
| WorkScheduleOrder.Accepted | src/work_schedule/order.rs:82-97 | accepted exactly when all twelve fields are present and every parsed one is `Ok` |
| WorkScheduleOrder.NoPhonesAccepted | src/work_schedule/order.rs:89 | an empty phone list does not reject the order |
| WorkScheduleOrder.InnerText | src/work_schedule/order.rs:163-171 | present exactly when the joined text is not empty; then that text |
| WorkScheduleOrder.SingleText | src/work_schedule/order.rs:164 | one non-empty text node is the text |
| WorkScheduleOrder.Parsers | src/work_schedule/order.rs:144-159 | the data-type parsers as the row reader calls them |
| WorkScheduleOrder.IndexText | src/work_schedule/order.rs:108 | the index text with no `.` left |
| WorkScheduleOrder.OrderIdText | src/work_schedule/order.rs:113 | the order id text with its prefix removed |
| WorkScheduleOrder.IndexOf | src/work_schedule/order.rs:105-109 | always present; it reads exactly when the dot-free text parses as a `u8`, and the value is below 256 |
| WorkScheduleOrder.OrderIdOf | src/work_schedule/order.rs:110-114 | always present; it reads exactly when the prefix-free text parses as a `u32`, and the value is below 2^32 |
| WorkScheduleOrder.AsPlain | src/work_schedule/order.rs:142 | the account text as it is |
| WorkScheduleOrder.PhonesOf | src/work_schedule/order.rs:136 | the phones joined with commas give the text back |
| WorkScheduleOrder.WindowOf | src/work_schedule/order.rs:116-124 | present exactly when the second and third `th` exist and have text |
| WorkScheduleOrder.BareCells | src/work_schedule/order.rs:148 | exactly the cells without attributes, in order |
| WorkScheduleOrder.BareCellsSkip | src/work_schedule/order.rs:148 | cells with attributes are passed over |
| WorkScheduleOrder.BareCellsAppend | src/work_schedule/order.rs:148 | the filter distributes over concatenation, so every bare cell is kept, in order |
| WorkScheduleOrder.ClientOf | src/work_schedule/order.rs:153-158 | the first bare cell's text, trimmed |
| WorkScheduleOrder.BareCellsIn | src/work_schedule/order.rs:148 | each bare cell is one of the cells given |
| WorkScheduleOrder.OrderTypeOf | src/work_schedule/order.rs:147-152 | the second bare cell's text, parsed |
| WorkScheduleOrder.InternalOrderIdFromRowid | src/work_schedule/order.rs:115 | the internal id is the `rowid` read as a `u32`, missing exactly when the attribute is |
| WorkScheduleOrder.NoRowidNoPhones | src/work_schedule/order.rs:125-128 | without a `rowid` there are no phones |
| WorkScheduleOrder.PhonesSplit | src/work_schedule/order.rs:125-138 | the phones are the looked-up cell's text cut at commas, untrimmed |
| WorkScheduleOrder.TimeWindow | src/work_schedule/order.rs:116-124 | the window comes from the second and third `th`; fewer, or an empty one, give none |
| WorkScheduleOrder.FirstTwoBare | src/work_schedule/order.rs:148-154 | the first two bare cells are the first bare cell and the next bare one after it |
| WorkScheduleOrder.ClientAndOrderType | src/work_schedule/order.rs:147-158 | the client is the first attribute-less `td`, trimmed, and the order type the next one |
| WorkScheduleOrder.OrderIndexOverflow | src/work_schedule/order.rs:105-109 | digits over 255 in the index are `PosOverflow` |
| WorkScheduleOrder.OrderIndexDots | src/work_schedule/order.rs:108 | dots are dropped wherever they stand, the rest kept in order |
| WorkScheduleOrder.OrderIdPrefix | src/work_schedule/order.rs:113 | the prefix `№ наряда: ` before the digits is dropped |
| WorkScheduleOrder.FromRowAndFragment | src/work_schedule/order.rs:101-161 | `Order::from_row_and_fragment`: every field read by its own selector, none making the read fail (`InternalOrderIdFromRowid`, `NoRowidNoPhones`, `PhonesSplit`, `TimeWindow`, `ClientAndOrderType`, `OrderIndexOverflow`, `OrderIndexDots`, `OrderIdPrefix`) |
| WorkScheduleOrder.BareClientAndOrderType | src/work_schedule/order.rs:147-158 | helper: the client and the order type read from the first two bare cells |

## Left out

- HTTP and I/O: src/lib.rs, src/methods.rs, src/payload.rs and src/error.rs. These are asynchronous
  requests, session cookies, login payloads and network error mapping, and are not part of this model.
- HTML parsing and CSS selection belong to the `scraper` library. A document is an abstract
  `Node` tree. A selection is a parameter that gives the selected elements, or `None` when the
  selector does not parse.
- src/work_schedule/mod.rs only selects the order rows and maps `from_row_and_fragment` over them,
  and is not part of this model. The row reader itself is modelled.
- The selector query at src/view_request/comments.rs:9-13 is a parameter (the selected rows). The
  mapping over those rows is modelled.
- chrono's parsing (`%Y-%m-%d %H:%M:%S`, `%Y-%m-%d`, `%d.%m.%Y`) and the resolution in the Kyiv
  time zone are parameters that give a value or a parse-error kind. The `expect` on a time that
  does not exist in Kyiv is therefore not modelled.
- `html_escape::decode_html_entities` is a parameter.
- Strings.ToLower: lower-cases only ASCII, the Cyrillic block U+0400..U+042F and the Ukrainian
  Ґ (U+0490), not every Unicode case mapping. The labels compared are Cyrillic and ASCII.
- Strings.ReplaceAll: its contract states only that a text without the pattern is unchanged. What
  it does to occurrences is stated where it is used: `OrderIdPrefix`, `ReplaceAllKeepsHead` and
  the comment lemmas.
- Strings.RemoveChars: its contract does not say that the kept characters keep their order. That
  is stated by `RemoveCharsKeepsOthers`, `RemoveCharsAppend` and `OrderIndexDots`.
- IntErrorKinds.FromIntErrorKind: the wildcard `unreachable!()` arm at
  src/serializable_int_error_kind.rs:26 has no counterpart. The model's kind type has exactly the
  five named variants, matching the standard library.
- MduData.CodeAndNumber: states the overflow of the number in general; no concrete oversized MDU
  literal is evaluated.
- Logging (`log::…`), serde and the derived traits are not part of this model.
- Behaviour of the code that a reader may not expect, which the model keeps:
  - `is_it` returns `Some("")` for an empty value; it does not turn it into nothing.
  - A history row needs the cells its checks reach, not exactly six. A row of one cell with no
    text is `DateTimeShouldBePresent`. A row of five cells with the others present panics at cell 5.
  - The view request keeps phones untrimmed; the brief request trims them.
  - A work-schedule order with an empty phone list is still guaranteed.
