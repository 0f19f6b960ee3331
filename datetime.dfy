/**
 * The split date + time parser `parseDateTime(dateStr, timeStr)` that the bookings list, the admin table
 * and the today view each carry a copy of. The date is split on `-` or `/` into exactly three pieces,
 * read as year-month-day when the first piece has four characters and as day-month-year otherwise; the
 * time is the leftmost `digits:digits` run of the cleaned time string, with an optional AM/PM marker
 * (Latin, any case, or Arabic). The result is a time value in milliseconds, or `None` where the source
 * returns `null`. The parser is a total function: it cannot throw.
 */
module DateTime {
  import opened Options
  import opened Strings
  import opened Calendar

  datatype Meridiem = AM | PM

  /** One match of `/(\d+):(\d+)\s*(AM|PM|م|ص)?/i`: the two digit groups and the optional marker. */
  datatype TimeMatch = TimeMatch(hour: string, minute: string, marker: Option<Meridiem>) {
    predicate Wellformed() {
      hour != [] && AllDigits(hour) && minute != [] && AllDigits(minute)
    }
  }

  /** The pieces of a split date, each `None` where `parseInt` gives `NaN`; the month is already 0-based. */
  datatype DateParts = DateParts(year: Option<int>, month0: Option<int>, day: Option<int>)

  /** Hour and minute as read from the time string, each `None` where it would be `NaN`. */
  datatype ClockParts = ClockParts(hour: Option<int>, minute: Option<int>)

  /** `new Date(s)` followed by `getUTCHours()` and `getUTCMinutes()`, `None` for an invalid date. The engine's
      date-string parsing is not modelled, so this reader is a parameter of the parser. */
  type IsoClock = string -> Option<(int, int)>

  const RightToLeftMark: char := '\U{200F}'
  const RightToLeftEmbedding: char := '\U{202B}'
  /** Arabic letter meem, the PM marker (masa'an). */
  const ArabicPm: char := '\U{0645}'
  /** Arabic letter sad, the AM marker (sabahan). */
  const ArabicAm: char := '\U{0635}'

  // ---------------------------------------------------------------------------
  // The date string

  /** `month - 1` where `NaN - 1` is `NaN`. */
  function Decrement(x: Option<int>): (r: Option<int>)
    ensures r.Some? <==> x.Some?
    ensures r.Some? ==> r.value == x.value - 1
  {
    match x
    case Some(v) => Some(v - 1)
    case None => None
  }

  /** The date half of the parser: `None` when the date does not split into exactly three pieces. */
  function ReadDateParts(dateStr: string): (r: Option<DateParts>)
    ensures r.Some? <==> |SplitDate(dateStr)| == 3
  {
    var parts := SplitDate(dateStr);
    if |parts| != 3 then None
    else if |parts[0]| == 4 then
      Some(DateParts(ParseInt(parts[0]), Decrement(ParseInt(parts[1])), ParseInt(parts[2])))
    else
      Some(DateParts(ParseInt(parts[2]), Decrement(ParseInt(parts[1])), ParseInt(parts[0])))
  }

  // ---------------------------------------------------------------------------
  // The time string

  /** The index of the first character at or after `i` that `\s*` does not consume. */
  function SkipSpaces(s: string, i: nat): (j: nat)
    requires i <= |s|
    ensures i <= j <= |s|
    ensures forall k :: i <= k < j ==> IsSpace(s[k])
    ensures j == |s| || !IsSpace(s[j])
    decreases |s| - i
  {
    if i < |s| && IsSpace(s[i]) then SkipSpaces(s, i + 1) else i
  }

  /** `(AM|PM|م|ص)?` at index `i`, matched without regard to the case of the Latin letters. */
  function MarkerAt(s: string, i: nat): (r: Option<Meridiem>)
    requires i <= |s|
  {
    if i + 2 <= |s| && LowerChar(s[i]) == 'a' && LowerChar(s[i + 1]) == 'm' then Some(AM)
    else if i + 2 <= |s| && LowerChar(s[i]) == 'p' && LowerChar(s[i + 1]) == 'm' then Some(PM)
    else if i < |s| && s[i] == ArabicPm then Some(PM)
    else if i < |s| && s[i] == ArabicAm then Some(AM)
    else None
  }

  /** The match of the time pattern that starts exactly at index `i`, if there is one. Both digit groups are
      greedy, so each is the whole run of digits there. */
  function MatchAt(s: string, i: nat): (r: Option<TimeMatch>)
    requires i <= |s|
    ensures r.Some? ==> r.value.Wellformed()
  {
    MatchWithHour(s, i, LeadingDigits(s[i..]))
  }

  /** The match at `i` once its hour group `h`, the digits there, is known. */
  function MatchWithHour(s: string, i: nat, h: string): (r: Option<TimeMatch>)
    requires i + |h| <= |s| && AllDigits(h)
    ensures r.Some? ==> r.value.Wellformed()
  {
    var colon := i + |h|;
    if h == [] || colon >= |s| || s[colon] != ':' then None
    else MatchWithMinute(s, h, colon + 1, LeadingDigits(s[colon + 1..]))
  }

  /** The match once its hour group `h` and its minute group `m`, the digits from `j`, are known. */
  function MatchWithMinute(s: string, h: string, j: nat, m: string): (r: Option<TimeMatch>)
    requires j + |m| <= |s| && AllDigits(m)
    ensures r.Some? ==> r.value.minute == m && r.value.hour == h
  {
    if m == [] then None else Some(TimeMatch(h, m, MarkerAt(s, SkipSpaces(s, j + |m|))))
  }

  /** The leftmost match starting at or after index `i`: an unanchored regular-expression search. */
  function MatchFrom(s: string, i: nat): (r: Option<TimeMatch>)
    requires i <= |s|
    ensures r.Some? ==> r.value.Wellformed()
    decreases |s| - i
  {
    if i == |s| || MatchAt(s, i).Some? then MatchAt(s, i) else MatchFrom(s, i + 1)
  }

  /** The search finds the leftmost match: there is none before the index it reports, and when it finds
      nothing there is no match anywhere. */
  lemma MatchFromLeftmost(s: string, i: nat)
    requires i <= |s|
    ensures MatchFrom(s, i).None? ==> forall j :: i <= j <= |s| ==> MatchAt(s, j).None?
    ensures MatchFrom(s, i).Some? ==>
      exists j :: i <= j <= |s| && MatchAt(s, j) == MatchFrom(s, i) && forall k :: i <= k < j ==> MatchAt(s, k).None?
  {
    if MatchFrom(s, i).None? {
      NoMatchFrom(s, i);
    } else {
      MatchFromFound(s, i);
    }
  }

  /** When the search finds nothing, there is no match at or after `i`. */
  lemma {:induction false} NoMatchFrom(s: string, i: nat)
    requires i <= |s| && MatchFrom(s, i).None?
    ensures forall j :: i <= j <= |s| ==> MatchAt(s, j).None?
    decreases |s| - i
  {
    assert MatchAt(s, i).None?;
    if i < |s| {
      NoMatchFrom(s, i + 1);
    }
  }

  /** What the search finds is the match at some index with none before it. */
  lemma {:induction false} MatchFromFound(s: string, i: nat)
    requires i <= |s| && MatchFrom(s, i).Some?
    ensures exists j :: i <= j <= |s| && MatchAt(s, j) == MatchFrom(s, i) && forall k :: i <= k < j ==> MatchAt(s, k).None?
    decreases |s| - i
  {
    if i < |s| && MatchAt(s, i).None? {
      MatchFromFound(s, i + 1);
      var j :| i + 1 <= j <= |s| && MatchAt(s, j) == MatchFrom(s, i + 1) && forall k :: i + 1 <= k < j ==> MatchAt(s, k).None?;
      assert forall k :: i <= k < j ==> MatchAt(s, k).None?;
    } else {
      assert MatchAt(s, i) == MatchFrom(s, i);
    }
  }

  /** `s.match(/(\d+):(\d+)\s*(AM|PM|م|ص)?/i)`. */
  function MatchTime(s: string): Option<TimeMatch> {
    MatchFrom(s, 0)
  }

  /** The 12-hour adjustment: a PM marker adds 12 to an hour below 12, an AM marker turns 12 into 0. */
  function AdjustHour(hour: int, marker: Option<Meridiem>): int {
    match marker
    case None => hour
    case Some(PM) => if hour < 12 then hour + 12 else hour
    case Some(AM) => if hour == 12 then 0 else hour
  }

  /** The time text with every right-to-left mark and right-to-left embedding removed, then trimmed. */
  function CleanTime(timeStr: string): string {
    Trim(RemoveAll(timeStr, RightToLeftMark, RightToLeftEmbedding))
  }

  /** The time half of the parser: `None` when there is no `digits:digits` run and the ISO fallback fails
      or does not apply (it needs both a `T` and a `Z`). */
  function ReadClock(timeStr: string, isoClock: IsoClock): (r: Option<ClockParts>)
  {
    var cleaned := CleanTime(timeStr);
    match MatchTime(cleaned)
    case Some(m) =>
      var hour := ParseInt(m.hour);
      Some(ClockParts(if hour.Some? then Some(AdjustHour(hour.value, m.marker)) else None, ParseInt(m.minute)))
    case None =>
      if 'T' in cleaned && 'Z' in cleaned then
        match isoClock(cleaned)
        case Some((h, n)) => Some(ClockParts(Some(h), Some(n)))
        case None => None
      else None
  }

  // ---------------------------------------------------------------------------
  // The parser

  /** `!s` for an optional string field: absent or empty. */
  predicate Blank(s: Option<string>) {
    s.None? || s.value == []
  }

  /** `parseDateTime(dateStr, timeStr)`: the time value of the local date and time, or `None` (`null`). */
  function ParseDateTime(dateStr: Option<string>, timeStr: Option<string>, isoClock: IsoClock): (r: Option<int>)
    ensures r.Some? ==> !Blank(dateStr) && !Blank(timeStr) && |SplitDate(dateStr.value)| == 3
    ensures r.Some? ==> -MaxTimeValue <= r.value <= MaxTimeValue
  {
    if Blank(dateStr) || Blank(timeStr) then None
    else
      match (ReadDateParts(dateStr.value), ReadClock(timeStr.value, isoClock))
      case (Some(DateParts(Some(y), Some(m), Some(d))), Some(ClockParts(Some(h), Some(n)))) =>
        LocalTimeValue(y, m, d, h, n)
      case _ => None
  }

  // ---------------------------------------------------------------------------
  // Properties of the parser

  /** A date joined from three separator-free pieces splits back into them; a four-character first piece is
      the year, otherwise the first piece is the day; the month is always one less than written. */
  lemma ReadDatePartsOfJoin(a: string, sep1: char, b: string, sep2: char, c: string)
    requires IsDateSeparator(sep1) && IsDateSeparator(sep2)
    requires forall i :: 0 <= i < |a| ==> !IsDateSeparator(a[i])
    requires forall i :: 0 <= i < |b| ==> !IsDateSeparator(b[i])
    requires forall i :: 0 <= i < |c| ==> !IsDateSeparator(c[i])
    ensures ReadDateParts(a + [sep1] + b + [sep2] + c) ==
      if |a| == 4 then Some(DateParts(ParseInt(a), Decrement(ParseInt(b)), ParseInt(c)))
      else Some(DateParts(ParseInt(c), Decrement(ParseInt(b)), ParseInt(a)))
  {
    SplitDateOfJoin(a, sep1, b, sep2, c);
  }

  /** `parseInt` reads a string of digits as its value. */
  lemma ParseIntOfDigits(ds: string)
    requires ds != [] && AllDigits(ds)
    ensures ParseInt(ds) == Some(DigitsValue(ds))
  {
    ParseIntOfNumeral(ds, []);
    assert ds + [] == ds;
  }

  /** The three pieces read as numbers, the month made 0-based. */
  lemma DigitFields(year: string, month: string, day: string)
    requires year != [] && AllDigits(year) && month != [] && AllDigits(month) && day != [] && AllDigits(day)
    ensures DateParts(ParseInt(year), Decrement(ParseInt(month)), ParseInt(day)) ==
      DateParts(Some(DigitsValue(year)), Some(DigitsValue(month) - 1), Some(DigitsValue(day)))
  {
    ParseIntOfDigits(year);
    ParseIntOfDigits(day);
    DecrementOfDigits(month);
  }

  /** The month read from digits and made 0-based. */
  lemma DecrementOfDigits(month: string)
    requires month != [] && AllDigits(month)
    ensures Decrement(ParseInt(month)) == Some(DigitsValue(month) - 1)
  {
    ParseIntOfDigits(month);
  }

  lemma {:induction false} YearFirstFields(year: string, month: string, day: string, s1: char, s2: char)
    requires |year| == 4 && AllDigits(year) && AllDigits(month) && AllDigits(day)
    requires IsDateSeparator(s1) && IsDateSeparator(s2)
    ensures ReadDateParts(year + [s1] + month + [s2] + day) ==
      Some(DateParts(ParseInt(year), Decrement(ParseInt(month)), ParseInt(day)))
  {
    ReadDatePartsOfJoin(year, s1, month, s2, day);
  }

  lemma {:induction false} DayFirstFields(year: string, month: string, day: string, s1: char, s2: char)
    requires |day| != 4 && AllDigits(year) && AllDigits(month) && AllDigits(day)
    requires IsDateSeparator(s1) && IsDateSeparator(s2)
    ensures ReadDateParts(day + [s1] + month + [s2] + year) ==
      Some(DateParts(ParseInt(year), Decrement(ParseInt(month)), ParseInt(day)))
  {
    ReadDatePartsOfJoin(day, s1, month, s2, year);
  }

  /** The value read from a date written year first, with a four-digit year. */
  lemma {:induction false} ReadYearFirst(year: string, month: string, day: string, s1: char, s2: char)
    requires |year| == 4 && AllDigits(year) && month != [] && AllDigits(month) && day != [] && AllDigits(day)
    requires IsDateSeparator(s1) && IsDateSeparator(s2)
    ensures ReadDateParts(year + [s1] + month + [s2] + day) ==
      Some(DateParts(Some(DigitsValue(year)), Some(DigitsValue(month) - 1), Some(DigitsValue(day))))
  {
    YearFirstFields(year, month, day, s1, s2);
    DigitFields(year, month, day);
  }

  /** The value read from a date written day first, when the day is not four characters long. */
  lemma {:induction false} ReadDayFirst(year: string, month: string, day: string, s1: char, s2: char)
    requires year != [] && AllDigits(year) && month != [] && AllDigits(month) && day != [] && AllDigits(day)
    requires |day| != 4
    requires IsDateSeparator(s1) && IsDateSeparator(s2)
    ensures ReadDateParts(day + [s1] + month + [s2] + year) ==
      Some(DateParts(Some(DigitsValue(year)), Some(DigitsValue(month) - 1), Some(DigitsValue(day))))
  {
    DayFirstFields(year, month, day, s1, s2);
    DigitFields(year, month, day);
  }

  /** Year-month-day with a four-digit year and day-month-year with the same numbers read the same date,
      whichever of `-` and `/` separate them. */
  lemma DateLayoutsAgree(year: string, month: string, day: string, s1: char, s2: char, t1: char, t2: char)
    requires |year| == 4 && AllDigits(year) && month != [] && AllDigits(month) && day != [] && AllDigits(day)
    requires |day| != 4
    requires IsDateSeparator(s1) && IsDateSeparator(s2) && IsDateSeparator(t1) && IsDateSeparator(t2)
    ensures ReadDateParts(year + [s1] + month + [s2] + day) == ReadDateParts(day + [t1] + month + [t2] + year)
  {
    ReadYearFirst(year, month, day, s1, s2);
    ReadDayFirst(year, month, day, t1, t2);
  }

  /** Any piece of a three-piece date that `parseInt` cannot read makes the whole result `null`. */
  lemma NonNumericDateRejected(dateStr: string, timeStr: Option<string>, isoClock: IsoClock)
    requires |SplitDate(dateStr)| == 3
    requires exists k :: 0 <= k < 3 && ParseInt(SplitDate(dateStr)[k]).None?
    ensures ParseDateTime(Some(dateStr), timeStr, isoClock).None?
  {
    var k :| 0 <= k < 3 && ParseInt(SplitDate(dateStr)[k]).None?;
    UnreadablePiece(dateStr, k);
    IncompleteDateRejected(dateStr, timeStr, isoClock);
  }

  lemma UnreadablePiece(dateStr: string, k: nat)
    requires |SplitDate(dateStr)| == 3 && k < 3
    requires ParseInt(SplitDate(dateStr)[k]).None?
    ensures ReadDateParts(dateStr).Some?
    ensures var dp := ReadDateParts(dateStr).value; dp.year.None? || dp.month0.None? || dp.day.None?
  {
    var parts := SplitDate(dateStr);
    var a, b, c := ParseInt(parts[0]), ParseInt(parts[1]), ParseInt(parts[2]);
    assert a.None? || b.None? || c.None? by {
      assert k == 0 || k == 1 || k == 2;
    }
    if |parts[0]| == 4 {
      assert ReadDateParts(dateStr) == Some(DateParts(a, Decrement(b), c));
    } else {
      assert ReadDateParts(dateStr) == Some(DateParts(c, Decrement(b), a));
    }
  }

  lemma IncompleteDateRejected(dateStr: string, timeStr: Option<string>, isoClock: IsoClock)
    requires ReadDateParts(dateStr).Some?
    requires var dp := ReadDateParts(dateStr).value; dp.year.None? || dp.month0.None? || dp.day.None?
    ensures ParseDateTime(Some(dateStr), timeStr, isoClock).None?
  {
  }

  /** When the time string holds a `digits:digits` run both numbers are read: `NaN` can only come from the
      date pieces or from the fallback reader. */
  lemma MatchedClockIsNumeric(timeStr: string, isoClock: IsoClock)
    requires MatchTime(CleanTime(timeStr)).Some?
    ensures ReadClock(timeStr, isoClock).Some?
    ensures ReadClock(timeStr, isoClock).value.hour.Some? && ReadClock(timeStr, isoClock).value.minute.Some?
  {
    var m := MatchTime(CleanTime(timeStr)).value;
    ParseIntOfDigits(m.hour);
    ParseIntOfDigits(m.minute);
  }

  /** The match at `i` when the text there is `hours:minutes` followed by a non-digit or by nothing. */
  lemma MatchAtNumeral(s: string, i: nat, hd: string, nd: string, tail: string)
    requires i <= |s| && s[i..] == hd + ":" + nd + tail
    requires hd != [] && AllDigits(hd) && nd != [] && AllDigits(nd)
    requires tail == [] || !IsDigit(tail[0])
    ensures MatchAt(s, i) == Some(TimeMatch(hd, nd, MarkerAt(s, SkipSpaces(s, i + |hd| + 1 + |nd|))))
  {
    NumeralGroups(s, i, hd, nd, tail);
    MatchAtOfGroups(s, i, hd, nd);
  }

  /** The hour and minute groups of `hd:nd` followed by a non-digit. */
  lemma NumeralGroups(s: string, i: nat, hd: string, nd: string, tail: string)
    requires i <= |s| && s[i..] == hd + ":" + nd + tail
    requires AllDigits(hd) && AllDigits(nd)
    requires tail == [] || !IsDigit(tail[0])
    ensures LeadingDigits(s[i..]) == hd && i + |hd| < |s| && s[i + |hd|] == ':'
    ensures LeadingDigits(s[i + |hd| + 1..]) == nd
  {
    assert hd + ":" + nd + tail == hd + ":" + (nd + tail);
    HourGroupAt(s, i, hd, nd + tail);
    MinuteGroupAt(s, i + |hd| + 1, nd, tail);
  }

  /** The hour group of a numeral `hd` followed by a colon at index `i`. */
  lemma HourGroupAt(s: string, i: nat, hd: string, rest: string)
    requires i <= |s| && s[i..] == hd + ":" + rest
    requires AllDigits(hd)
    ensures LeadingDigits(s[i..]) == hd && i + |hd| < |s| && s[i + |hd|] == ':' && s[i + |hd| + 1..] == rest
  {
    assert s[i..] == hd + ([':'] + rest);
    LeadingDigitsOfNumeral(hd, [':'] + rest);
    assert s[i + |hd|] == s[i..][|hd|];
    assert s[i + |hd| + 1..] == s[i..][|hd| + 1..];
  }

  /** The minute group of a numeral `nd` at index `j`, followed by a non-digit or the end. */
  lemma MinuteGroupAt(s: string, j: nat, nd: string, tail: string)
    requires j <= |s| && s[j..] == nd + tail
    requires AllDigits(nd)
    requires tail == [] || !IsDigit(tail[0])
    ensures LeadingDigits(s[j..]) == nd
  {
    LeadingDigitsOfNumeral(nd, tail);
  }

  lemma MatchAtOfGroups(s: string, i: nat, hd: string, nd: string)
    requires i <= |s| && hd != [] && LeadingDigits(s[i..]) == hd
    requires i + |hd| < |s| && s[i + |hd|] == ':'
    requires nd != [] && LeadingDigits(s[i + |hd| + 1..]) == nd
    ensures MatchAt(s, i) == Some(TimeMatch(hd, nd, MarkerAt(s, SkipSpaces(s, i + |hd| + 1 + |nd|))))
  {
    var j := i + |hd| + 1;
    assert MatchWithMinute(s, hd, j, nd) == Some(TimeMatch(hd, nd, MarkerAt(s, SkipSpaces(s, j + |nd|))));
    HourThenMinute(s, i, hd);
  }

  /** After an hour group and its colon, the match is decided by the digits that follow the colon. */
  lemma HourThenMinute(s: string, i: nat, hd: string)
    requires hd != [] && AllDigits(hd) && i + |hd| < |s| && s[i + |hd|] == ':'
    ensures MatchWithHour(s, i, hd) == MatchWithMinute(s, hd, i + |hd| + 1, LeadingDigits(s[i + |hd| + 1..]))
  {
  }

  /** A time string that cleaning leaves alone and whose first match is known reads as that match. */
  lemma ReadClockOfMatch(timeStr: string, isoClock: IsoClock, hd: string, nd: string, marker: Option<Meridiem>)
    requires CleanTime(timeStr) == timeStr
    requires MatchTime(timeStr) == Some(TimeMatch(hd, nd, marker))
    ensures ReadClock(timeStr, isoClock) == Some(ClockParts(Some(AdjustHour(DigitsValue(hd), marker)), Some(DigitsValue(nd))))
  {
    assert TimeMatch(hd, nd, marker).Wellformed();
    ParseIntOfDigits(hd);
    ParseIntOfDigits(nd);
  }

  /** The date text `YYYY-MM-DD` (the form the today view compares against). */
  function IsoDate(year: nat, month: nat, day: nat): string {
    NatToString(year) + "-" + TwoDigits(month) + "-" + TwoDigits(day)
  }

  /** The time text `HH:MM` of a time input. */
  function ClockText(hour: nat, minute: nat): string {
    TwoDigits(hour) + ":" + TwoDigits(minute)
  }

  lemma ReadIsoDate(year: nat, month: nat, day: nat)
    requires 1000 <= year <= 9999
    ensures ReadDateParts(IsoDate(year, month, day)) == Some(DateParts(Some(year), Some(month - 1), Some(day)))
  {
    NatToStringFourDigits(year);
    ReadYearFirst(NatToString(year), TwoDigits(month), TwoDigits(day), '-', '-');
    NatToStringValue(year);
    TwoDigitsValue(month);
    TwoDigitsValue(day);
  }

  /** Cleaning leaves a string alone that holds no direction mark and is not padded with white space. */
  lemma CleanTimeUnchanged(s: string)
    requires RightToLeftMark !in s && RightToLeftEmbedding !in s
    requires s != [] && !IsSpace(s[0]) && !IsSpace(s[|s| - 1])
    ensures CleanTime(s) == s
  {
    RemoveAllAbsent(s, RightToLeftMark, RightToLeftEmbedding);
    TrimUnpadded(s);
  }

  /** `digits:digits` with nothing around it is its own first match, without a marker. */
  lemma {:induction false} MatchDigitsClock(hd: string, nd: string)
    requires hd != [] && AllDigits(hd) && nd != [] && AllDigits(nd)
    ensures MatchTime(hd + ":" + nd) == Some(TimeMatch(hd, nd, None))
  {
    var s := hd + ":" + nd;
    assert s[0..] == hd + ":" + nd + [];
    MatchAtNumeral(s, 0, hd, nd, []);
    assert SkipSpaces(s, |hd| + 1 + |nd|) == |s|;
  }

  /** `digits:digits` reads as those two numbers, whatever the fallback reader would say. */
  lemma {:induction false} ReadDigitsClock(hd: string, nd: string, isoClock: IsoClock)
    requires hd != [] && AllDigits(hd) && nd != [] && AllDigits(nd)
    ensures ReadClock(hd + ":" + nd, isoClock) == Some(ClockParts(Some(DigitsValue(hd)), Some(DigitsValue(nd))))
  {
    var s := hd + ":" + nd;
    assert CleanTime(s) == s by {
      assert forall c :: c in s ==> c in hd || c == ':' || c in nd;
      assert s[0] == hd[0] && s[|s| - 1] == nd[|nd| - 1];
      CleanTimeUnchanged(s);
    }
    MatchDigitsClock(hd, nd);
    ReadClockOfMatch(s, isoClock, hd, nd, None);
  }

  /** `HH:MM` reads as that hour and minute. */
  lemma ReadClockText(hour: nat, minute: nat, isoClock: IsoClock)
    ensures ReadClock(ClockText(hour, minute), isoClock) == Some(ClockParts(Some(hour), Some(minute)))
  {
    ReadDigitsClock(TwoDigits(hour), TwoDigits(minute), isoClock);
    TwoDigitsValue(hour);
    TwoDigitsValue(minute);
  }

  /** Round trip: a date written `YYYY-MM-DD` and a time written `HH:MM` parse to the local time value of
      exactly those fields (month `MM` is month index `MM - 1`). */
  lemma ParseIsoDateAndClock(year: nat, month: nat, day: nat, hour: nat, minute: nat, isoClock: IsoClock)
    requires 1000 <= year <= 9999
    ensures ParseDateTime(Some(IsoDate(year, month, day)), Some(ClockText(hour, minute)), isoClock)
         == LocalTimeValue(year, month - 1, day, hour, minute)
  {
    ReadIsoDate(year, month, day);
    ReadClockText(hour, minute, isoClock);
  }

  /** The reading of `hour` (1..12) on a 12-hour clock, as an hour of the day. */
  function To24Hour(hour: int, meridiem: Meridiem): int {
    hour % 12 + (if meridiem == PM then 12 else 0)
  }

  /** On the hours of a 12-hour clock the adjustment is the 12-hour reading, and every hour of the day is
      reached from exactly one pair of hour and marker. */
  lemma AdjustHourIsTwelveHourClock(hour: int, meridiem: Meridiem)
    requires 1 <= hour <= 12
    ensures AdjustHour(hour, Some(meridiem)) == To24Hour(hour, meridiem)
    ensures 0 <= AdjustHour(hour, Some(meridiem)) < 24
    ensures meridiem == PM <==> AdjustHour(hour, Some(meridiem)) >= 12
  {
  }

  /** The marker text as written: Latin capitals or the Arabic letter. */
  function MarkerText(meridiem: Meridiem, arabic: bool): string {
    if arabic then [if meridiem == PM then ArabicPm else ArabicAm]
    else if meridiem == PM then "PM" else "AM"
  }

  /** A space and a marker after index `k`: the marker is read right after the space. */
  lemma MarkerAfterSpace(s: string, k: nat, meridiem: Meridiem, arabic: bool)
    requires k <= |s| && s[k..] == " " + MarkerText(meridiem, arabic)
    ensures SkipSpaces(s, k) == k + 1 && MarkerAt(s, SkipSpaces(s, k)) == Some(meridiem)
  {
    var mt := MarkerText(meridiem, arabic);
    assert s[k] == ' ' && s[k + 1..] == mt;
    assert !IsSpace(s[k + 1]);
  }

  /** A match at the very start is the first match. */
  lemma MatchTimeAtStart(s: string, hd: string, nd: string, k: nat, marker: Option<Meridiem>)
    requires k <= |s| && MatchAt(s, 0) == Some(TimeMatch(hd, nd, MarkerAt(s, SkipSpaces(s, k))))
    requires MarkerAt(s, SkipSpaces(s, k)) == marker
    ensures MatchTime(s) == Some(TimeMatch(hd, nd, marker))
  {
  }

  /** Where the pieces of `hd:nd`, a space and a marker sit. */
  lemma MarkedClockShape(hd: string, nd: string, meridiem: Meridiem, arabic: bool)
    ensures var tail := " " + MarkerText(meridiem, arabic);
      var s := hd + ":" + nd + " " + MarkerText(meridiem, arabic);
      s[0..] == hd + ":" + nd + tail && !IsDigit(tail[0]) && s[|hd| + 1 + |nd|..] == tail
  {
  }

  /** `digits:digits`, a space and a marker: the marker belongs to the match. */
  lemma {:induction false} MatchMarkedClock(hd: string, nd: string, meridiem: Meridiem, arabic: bool)
    requires hd != [] && AllDigits(hd) && nd != [] && AllDigits(nd)
    ensures MatchTime(hd + ":" + nd + " " + MarkerText(meridiem, arabic)) == Some(TimeMatch(hd, nd, Some(meridiem)))
  {
    var s := hd + ":" + nd + " " + MarkerText(meridiem, arabic);
    var k := |hd| + 1 + |nd|;
    MarkedClockGroups(s, k, hd, nd, meridiem, arabic);
    MatchTimeAtStart(s, hd, nd, k, Some(meridiem));
  }

  /** The match at the start of `hd:nd`, a space and a marker, and the marker it reads. */
  lemma MarkedClockGroups(s: string, k: nat, hd: string, nd: string, meridiem: Meridiem, arabic: bool)
    requires hd != [] && AllDigits(hd) && nd != [] && AllDigits(nd)
    requires s == hd + ":" + nd + " " + MarkerText(meridiem, arabic) && k == |hd| + 1 + |nd|
    ensures k <= |s|
    ensures MatchAt(s, 0) == Some(TimeMatch(hd, nd, MarkerAt(s, SkipSpaces(s, k))))
    ensures MarkerAt(s, SkipSpaces(s, k)) == Some(meridiem)
  {
    MarkedClockShape(hd, nd, meridiem, arabic);
    MatchAtNumeral(s, 0, hd, nd, " " + MarkerText(meridiem, arabic));
    MarkerAfterSpace(s, k, meridiem, arabic);
  }

  lemma {:induction false} ReadMarkedClock(hd: string, nd: string, meridiem: Meridiem, arabic: bool, isoClock: IsoClock)
    requires hd != [] && AllDigits(hd) && nd != [] && AllDigits(nd)
    ensures ReadClock(hd + ":" + nd + " " + MarkerText(meridiem, arabic), isoClock)
         == Some(ClockParts(Some(AdjustHour(DigitsValue(hd), Some(meridiem))), Some(DigitsValue(nd))))
  {
    var mt := MarkerText(meridiem, arabic);
    var s := hd + ":" + nd + " " + mt;
    assert CleanTime(s) == s by {
      assert forall c :: c in s ==> c in hd || c == ':' || c in nd || c == ' ' || c in mt;
      assert s[0] == hd[0] && s[|s| - 1] == mt[|mt| - 1];
      CleanTimeUnchanged(s);
    }
    MatchMarkedClock(hd, nd, meridiem, arabic);
    ReadClockOfMatch(s, isoClock, hd, nd, Some(meridiem));
  }

  /** `h:MM PM`, `h:MM م` and their AM forms read as the 24-hour time they stand for. */
  lemma ReadTwelveHourClock(hour: nat, minute: nat, meridiem: Meridiem, arabic: bool, isoClock: IsoClock)
    requires 1 <= hour <= 12
    ensures ReadClock(NatToString(hour) + ":" + TwoDigits(minute) + " " + MarkerText(meridiem, arabic), isoClock)
         == Some(ClockParts(Some(To24Hour(hour, meridiem)), Some(minute)))
  {
    ReadMarkedClock(NatToString(hour), TwoDigits(minute), meridiem, arabic, isoClock);
    NatToStringValue(hour);
    TwoDigitsValue(minute);
    AdjustHourIsTwelveHourClock(hour, meridiem);
  }

  /** In a date-and-time text no match starts inside the date: every digit run there ends at a separator or
      at the `T`, never at a colon. */
  lemma NoMatchInDate(s: string, date: string, j: nat)
    requires |date| < |s| && s[..|date|] == date && s[|date|] == 'T'
    requires forall i :: 0 <= i < |date| ==> date[i] != ':'
    requires j <= |date|
    ensures MatchAt(s, j).None?
  {
    var h := LeadingDigits(s[j..]);
    if h != [] {
      assert s[j + |h|] != ':';
    }
  }

  /** The search skips the whole date and its `T`. */
  lemma {:induction false} SearchSkipsDate(s: string, date: string, j: nat)
    requires |date| < |s| && s[..|date|] == date && s[|date|] == 'T'
    requires forall i :: 0 <= i < |date| ==> date[i] != ':'
    requires j <= |date| + 1
    ensures MatchFrom(s, j) == MatchFrom(s, |date| + 1)
    decreases |date| + 1 - j
  {
    if j <= |date| {
      NoMatchInDate(s, date, j);
      SearchSkipsDate(s, date, j + 1);
    }
  }

  /** The first match of a text whose date part holds no colon is the one right after its `T`. */
  lemma {:induction false} MatchAfterDate(s: string, date: string, hd: string, nd: string, tail: string)
    requires |date| < |s| && s[..|date|] == date && s[|date|] == 'T'
    requires forall i :: 0 <= i < |date| ==> date[i] != ':'
    requires s[|date| + 1..] == hd + ":" + nd + tail
    requires hd != [] && AllDigits(hd) && nd != [] && AllDigits(nd)
    requires tail == [] || !IsDigit(tail[0])
    ensures MatchTime(s) == Some(TimeMatch(hd, nd, MarkerAt(s, SkipSpaces(s, |date| + 1 + |hd| + 1 + |nd|))))
  {
    MatchAtNumeral(s, |date| + 1, hd, nd, tail);
    assert MatchAt(s, |date| + 1) == Some(TimeMatch(hd, nd, MarkerAt(s, SkipSpaces(s, |date| + 1 + |hd| + 1 + |nd|))));
    FirstMatchAfterDate(s, date);
    assert MatchTime(s) == MatchAt(s, |date| + 1);
  }

  /** When there is a match right after the `T`, it is the first match of the text. */
  lemma FirstMatchAfterDate(s: string, date: string)
    requires |date| < |s| && s[..|date|] == date && s[|date|] == 'T'
    requires forall i :: 0 <= i < |date| ==> date[i] != ':'
    requires MatchAt(s, |date| + 1).Some?
    ensures MatchTime(s) == MatchAt(s, |date| + 1)
  {
    SearchSkipsDate(s, date, 0);
  }

  lemma {:induction false} MatchSheetsTime(date: string, hd: string, nd: string, sd: string)
    requires forall i :: 0 <= i < |date| ==> date[i] != ':'
    requires hd != [] && AllDigits(hd) && nd != [] && AllDigits(nd)
    ensures MatchTime(date + "T" + hd + ":" + nd + ":" + sd + "Z") == Some(TimeMatch(hd, nd, None))
  {
    var s := date + "T" + hd + ":" + nd + ":" + sd + "Z";
    var tail := ":" + sd + "Z";
    SheetsTimeShape(date, hd, nd, sd);
    MatchAfterDate(s, date, hd, nd, tail);
  }

  /** Where the pieces of a spreadsheet time sit in it. */
  lemma SheetsTimeShape(date: string, hd: string, nd: string, sd: string)
    ensures var s := date + "T" + hd + ":" + nd + ":" + sd + "Z";
      && |date| < |s| && s[..|date|] == date && s[|date|] == 'T'
      && s[|date| + 1..] == hd + ":" + nd + (":" + sd + "Z")
      && SkipSpaces(s, |date| + 1 + |hd| + 1 + |nd|) == |date| + 1 + |hd| + 1 + |nd|
      && MarkerAt(s, |date| + 1 + |hd| + 1 + |nd|) == None
  {
    var s := date + "T" + hd + ":" + nd + ":" + sd + "Z";
    var k := |date| + 1 + |hd| + 1 + |nd|;
    assert s[k] == ':';
  }

  lemma DateCharNotSpace(c: char)
    requires IsDigit(c) || IsDateSeparator(c)
    ensures !IsSpace(c)
  {
  }

  /** A character that is none of those a spreadsheet time is written with does not occur in one. */
  lemma NotInSheetsTime(c: char, date: string, hd: string, nd: string, sd: string)
    requires !IsDigit(c) && !IsDateSeparator(c) && c != 'T' && c != ':' && c != 'Z'
    requires forall i :: 0 <= i < |date| ==> IsDigit(date[i]) || IsDateSeparator(date[i])
    requires AllDigits(hd) && AllDigits(nd) && AllDigits(sd)
    ensures c !in date + "T" + hd + ":" + nd + ":" + sd + "Z"
  {
    assert c !in date && c !in hd && c !in nd && c !in sd;
  }

  /** The spreadsheet time form read with any digit strings. */
  lemma {:induction false} ReadSheetsTimeDigits(date: string, hd: string, nd: string, sd: string, isoClock: IsoClock)
    requires forall i :: 0 <= i < |date| ==> IsDigit(date[i]) || IsDateSeparator(date[i])
    requires hd != [] && AllDigits(hd) && nd != [] && AllDigits(nd) && AllDigits(sd)
    ensures ReadClock(date + "T" + hd + ":" + nd + ":" + sd + "Z", isoClock)
         == Some(ClockParts(Some(DigitsValue(hd)), Some(DigitsValue(nd))))
  {
    var s := date + "T" + hd + ":" + nd + ":" + sd + "Z";
    SheetsTimeClean(date, hd, nd, sd);
    MatchSheetsTime(date, hd, nd, sd);
    ReadClockOfMatch(s, isoClock, hd, nd, None);
  }

  /** Cleaning leaves a spreadsheet time alone. */
  lemma SheetsTimeClean(date: string, hd: string, nd: string, sd: string)
    requires forall i :: 0 <= i < |date| ==> IsDigit(date[i]) || IsDateSeparator(date[i])
    requires AllDigits(hd) && AllDigits(nd) && AllDigits(sd)
    ensures var s := date + "T" + hd + ":" + nd + ":" + sd + "Z"; CleanTime(s) == s
  {
    var s := date + "T" + hd + ":" + nd + ":" + sd + "Z";
    NotInSheetsTime(RightToLeftMark, date, hd, nd, sd);
    NotInSheetsTime(RightToLeftEmbedding, date, hd, nd, sd);
    if date == [] {
      assert s[0] == 'T';
    } else {
      assert s[0] == date[0];
      DateCharNotSpace(date[0]);
    }
    assert s[|s| - 1] == 'Z';
    CleanTimeUnchanged(s);
  }

  /** A spreadsheet time such as `1899-12-30T14:30:00Z` holds a `digits:digits` run, so it reads as its own
      hour and minute: the fallback reader for texts with a `T` and a `Z` is never consulted for it. */
  lemma ReadSheetsTime(date: string, hour: nat, minute: nat, second: nat, isoClock: IsoClock)
    requires forall i :: 0 <= i < |date| ==> IsDigit(date[i]) || IsDateSeparator(date[i])
    ensures ReadClock(date + "T" + TwoDigits(hour) + ":" + TwoDigits(minute) + ":" + TwoDigits(second) + "Z", isoClock)
         == Some(ClockParts(Some(hour), Some(minute)))
  {
    ReadSheetsTimeDigits(date, TwoDigits(hour), TwoDigits(minute), TwoDigits(second), isoClock);
    TwoDigitsValue(hour);
    TwoDigitsValue(minute);
  }
}
