/**
 * The bookings list: bookings are split into upcoming and past by their end, each list ordered by start
 * (upcoming soonest first, past latest first, bookings whose start cannot be read after all others), and
 * the time and date cells are formatted with fallbacks to the raw text.
 */
module Bookings {
  import opened Options
  import opened Strings
  import opened Seqs
  import opened Sorting
  import opened DateTime
  import Calendar
  import opened Records

  /** The start of a booking: its date at its `من الساعة` time. */
  function StartOf(b: Booking, isoClock: IsoClock): Option<int> {
    ParseDateTime(b.date, b.startTime, isoClock)
  }

  /** The end of a booking: its date at its `إلى الساعة` time. */
  function EndOf(b: Booking, isoClock: IsoClock): Option<int> {
    ParseDateTime(b.date, b.endTime, isoClock)
  }

  // ---------------------------------------------------------------------------
  // The order of the lists

  /** Known times in ascending (or descending) order, unknown times after all known ones and tied with
      each other. */
  predicate KeyLe(x: Option<int>, y: Option<int>, descending: bool) {
    match (x, y)
    case (None, _) => y.None?
    case (Some(_), None) => true
    case (Some(a), Some(b)) => if descending then b <= a else a <= b
  }

  /** Bookings ordered by start. */
  function ByStart(isoClock: IsoClock, descending: bool): (Booking, Booking) -> bool {
    (a: Booking, b: Booking) => KeyLe(StartOf(a, isoClock), StartOf(b, isoClock), descending)
  }

  lemma ByStartIsTotalPreorder(isoClock: IsoClock, descending: bool)
    ensures TotalPreorder(ByStart(isoClock, descending))
  {
  }

  /** The comparator the lists are sorted with: negative when `a` goes first, positive when `b` does. */
  function Compare(a: Booking, b: Booking, isoClock: IsoClock, descending: bool): int {
    CompareKeys(StartOf(a, isoClock), StartOf(b, isoClock), descending)
  }

  /** The comparator on the two starts: an unknown first start sorts after, then an unknown second one,
      then the difference of the times. */
  function CompareKeys(x: Option<int>, y: Option<int>, descending: bool): int {
    if x.None? then 1
    else if y.None? then -1
    else if descending then y.value - x.value
    else x.value - y.value
  }

  /** On starts of which at least one is known, the comparator's sign is the order's strict and tied
      cases. */
  lemma CompareKeysAgree(x: Option<int>, y: Option<int>, descending: bool)
    requires x.Some? || y.Some?
    ensures CompareKeys(x, y, descending) < 0 <==> KeyLe(x, y, descending) && !KeyLe(y, x, descending)
    ensures CompareKeys(x, y, descending) == 0 <==> KeyLe(x, y, descending) && KeyLe(y, x, descending)
  {
  }

  /** When at least one of two starts is known, the comparator puts `a` first exactly when the order says
      `a` may go first and `b` may not, and calls them tied exactly when the order lets either go first. */
  lemma CompareAgreesWithOrder(a: Booking, b: Booking, isoClock: IsoClock, descending: bool)
    requires StartOf(a, isoClock).Some? || StartOf(b, isoClock).Some?
    ensures Compare(a, b, isoClock, descending) < 0 <==>
      ByStart(isoClock, descending)(a, b) && !ByStart(isoClock, descending)(b, a)
    ensures Compare(a, b, isoClock, descending) == 0 <==>
      ByStart(isoClock, descending)(a, b) && ByStart(isoClock, descending)(b, a)
  {
    CompareKeysAgree(StartOf(a, isoClock), StartOf(b, isoClock), descending);
  }

  /** With two unknown starts each booking is said to go after the other: the comparator is not consistent
      there, so no order among bookings with unknown starts is promised. */
  lemma CompareInconsistentOnUnknown(a: Booking, b: Booking, isoClock: IsoClock, descending: bool)
    requires StartOf(a, isoClock).None? && StartOf(b, isoClock).None?
    ensures Compare(a, b, isoClock, descending) > 0 && Compare(b, a, isoClock, descending) > 0
  {
  }

  /** In a list sorted by start, a booking with an unknown start is followed only by such bookings. */
  lemma UnknownStartsLast(s: seq<Booking>, isoClock: IsoClock, descending: bool, i: int, j: int)
    requires SortedBy(s, ByStart(isoClock, descending))
    requires 0 <= i < j < |s| && StartOf(s[i], isoClock).None?
    ensures StartOf(s[j], isoClock).None?
  {
    assert ByStart(isoClock, descending)(s[i], s[j]);
  }

  // ---------------------------------------------------------------------------
  // Upcoming and past

  function UpcomingAt(now: int, isoClock: IsoClock): Booking -> bool {
    (b: Booking) => EndOf(b, isoClock).Some? && EndOf(b, isoClock).value >= now
  }

  function PastAt(now: int, isoClock: IsoClock): Booking -> bool {
    (b: Booking) => EndOf(b, isoClock).Some? && EndOf(b, isoClock).value < now
  }

  /** The upcoming and past lists at time `now`: each booking goes to the list its end says, a booking
      whose end cannot be read is dropped, and the lists are sorted by start, bookings with equal starts
      keeping their list order. */
  method Classify(bookings: seq<Booking>, now: int, isoClock: IsoClock) returns (upcoming: seq<Booking>, past: seq<Booking>)
    ensures multiset(upcoming) == multiset(Filter(bookings, UpcomingAt(now, isoClock)))
    ensures multiset(past) == multiset(Filter(bookings, PastAt(now, isoClock)))
    ensures SortedBy(upcoming, ByStart(isoClock, false))
    ensures SortedBy(past, ByStart(isoClock, true))
    ensures StableFor(upcoming, Filter(bookings, UpcomingAt(now, isoClock)), ByStart(isoClock, false))
    ensures StableFor(past, Filter(bookings, PastAt(now, isoClock)), ByStart(isoClock, true))
  {
    var up: seq<Booking>, pa: seq<Booking> := [], [];
    var i := 0;
    while i < |bookings|
      invariant i <= |bookings|
      invariant up == Filter(bookings[..i], UpcomingAt(now, isoClock))
      invariant pa == Filter(bookings[..i], PastAt(now, isoClock))
    {
      var b := bookings[i];
      FilterAppend(bookings[..i], b, UpcomingAt(now, isoClock));
      FilterAppend(bookings[..i], b, PastAt(now, isoClock));
      assert bookings[..i + 1] == bookings[..i] + [b];
      var end := EndOf(b, isoClock);
      if end.Some? {
        if end.value >= now {
          up := up + [b];
        } else {
          pa := pa + [b];
        }
      }
      i := i + 1;
    }
    assert bookings[..i] == bookings;
    ByStartIsTotalPreorder(isoClock, false);
    ByStartIsTotalPreorder(isoClock, true);
    upcoming := SortedCopy(up, ByStart(isoClock, false));
    past := SortedCopy(pa, ByStart(isoClock, true));
  }

  /** Every occurrence of a booking whose end can be read lands in exactly one of the two lists: upcoming
      when the end is not before `now`, past when it is; a booking whose end cannot be read lands in
      neither. */
  lemma ExactlyOneBucket(bookings: seq<Booking>, now: int, isoClock: IsoClock, b: Booking)
    ensures multiset(Filter(bookings, UpcomingAt(now, isoClock)))[b] + multiset(Filter(bookings, PastAt(now, isoClock)))[b]
         == if EndOf(b, isoClock).Some? then multiset(bookings)[b] else 0
    ensures b in Filter(bookings, UpcomingAt(now, isoClock)) <==>
      b in bookings && EndOf(b, isoClock).Some? && EndOf(b, isoClock).value >= now
    ensures b in Filter(bookings, PastAt(now, isoClock)) <==>
      b in bookings && EndOf(b, isoClock).Some? && EndOf(b, isoClock).value < now
  {
    FilterCount(bookings, UpcomingAt(now, isoClock), b);
    FilterCount(bookings, PastAt(now, isoClock), b);
    FilterMember(bookings, UpcomingAt(now, isoClock), b);
    FilterMember(bookings, PastAt(now, isoClock), b);
  }

  // ---------------------------------------------------------------------------
  // Cell formatting

  const SheetsEpochPrefix := "1899-12-30T"

  /** `formatTime`: the empty cell for a missing time, the locale time of a spreadsheet time
      (`1899-12-30T...`), and any other text as it is. `localeTime` is the engine's date parsing and
      locale formatting, `None` where the text is not a valid date. */
  function FormatTime(timeStr: Option<string>, localeTime: string -> Option<string>): (r: string)
    ensures Blank(timeStr) ==> r == ""
    ensures !Blank(timeStr) && !StartsWith(timeStr.value, SheetsEpochPrefix) ==> r == timeStr.value
    ensures !Blank(timeStr) && localeTime(timeStr.value).None? ==> r == timeStr.value
  {
    if Blank(timeStr) then ""
    else if StartsWith(timeStr.value, SheetsEpochPrefix) then
      match localeTime(timeStr.value)
      case Some(text) => text
      case None => timeStr.value
    else timeStr.value
  }

  /** `formatDateWithDay`: the empty cell for a missing date; the date with its weekday, through the
      locale formatter `format`, when it splits into three readable pieces; the text as it is otherwise. */
  function FormatDateWithDay(dateStr: Option<string>, format: int -> string): (r: string)
    ensures Blank(dateStr) ==> r == ""
    ensures !Blank(dateStr) && |SplitDate(dateStr.value)| != 3 ==> r == dateStr.value
  {
    if Blank(dateStr) then ""
    else
      match ReadDateParts(dateStr.value)
      case Some(DateParts(Some(y), Some(m), Some(d))) =>
        (match Calendar.LocalTimeValue(y, m, d, 0, 0)
         case Some(t) => format(t)
         case None => dateStr.value)
      case _ => dateStr.value
  }

  /** A `YYYY-MM-DD` date of a real month is shown as the formatted midnight that starts it. */
  lemma FormatIsoDate(year: nat, month: nat, day: nat, format: int -> string)
    requires 1000 <= year <= 9999 && 1 <= month <= 12 && 1 <= day <= 31
    ensures Calendar.LocalTimeValue(year, month - 1, day, 0, 0).Some?
    ensures FormatDateWithDay(Some(IsoDate(year, month, day)), format)
         == format(Calendar.LocalTimeValue(year, month - 1, day, 0, 0).value)
  {
    ReadIsoDate(year, month, day);
    Calendar.LocalTimeValueInRange(year, month - 1, day, 0, 0);
  }
}
