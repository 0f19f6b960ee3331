/**
 * The view of today's bookings: booking dates written in any of the accepted layouts are normalised to
 * `YYYY-MM-DD` and compared with today's date, today's bookings are ordered by start and grouped by room,
 * and the rooms are listed in text order.
 */
module TodayBookings {
  import opened Options
  import opened Strings
  import opened Seqs
  import opened Sorting
  import opened DateTime
  import opened Records
  import opened Bookings

  // ---------------------------------------------------------------------------
  // Normalising a date

  /** Three date pieces as year, month and day joined by `-`, the month and day padded to two characters:
      a four-character first piece is the year, otherwise the last piece is. */
  function Rearranged(p: seq<string>): string
    requires |p| == 3
  {
    if |p[0]| == 4 then p[0] + "-" + Pad2(p[1]) + "-" + Pad2(p[2])
    else p[2] + "-" + Pad2(p[1]) + "-" + Pad2(p[0])
  }

  /** `normalizeDate`: the empty text for a missing date; the text as it is when its part before any `T`
      does not split into three pieces; otherwise those pieces rearranged as `YYYY-MM-DD`. */
  function NormalizeDate(dateStr: Option<string>): (r: string)
    ensures Blank(dateStr) ==> r == ""
    ensures !Blank(dateStr) && |SplitDate(BeforeT(dateStr.value))| != 3 ==> r == dateStr.value
  {
    if Blank(dateStr) then ""
    else
      var p := SplitDate(BeforeT(dateStr.value));
      if |p| != 3 then dateStr.value else Rearranged(p)
  }

  /** Padding a piece adds only `0` characters. */
  lemma {:induction false} PadKeepsOut(s: string, c: char)
    requires c != '0' && c !in s
    ensures c !in Pad2(s)
  {
    var r := Pad2(s);
    forall i | 0 <= i < |r|
      ensures r[i] != c
    {
      if i >= |r| - |s| {
        assert r[i] == s[i - (|r| - |s|)];
      }
    }
  }

  /** Three pieces without separators or `T`, joined by `-` with the last two padded, split back into the
      year piece and the padded month and day, and bring in no `T`. */
  lemma {:induction false} JoinPieces(year: string, month: string, day: string)
    requires '-' !in year && '/' !in year && 'T' !in year
    requires '-' !in month && '/' !in month && 'T' !in month
    requires '-' !in day && '/' !in day && 'T' !in day
    ensures SplitDate(year + "-" + Pad2(month) + "-" + Pad2(day)) == [year, Pad2(month), Pad2(day)]
    ensures 'T' !in year + "-" + Pad2(month) + "-" + Pad2(day)
  {
    PadKeepsOut(month, '-');
    PadKeepsOut(month, '/');
    PadKeepsOut(month, 'T');
    PadKeepsOut(day, '-');
    PadKeepsOut(day, '/');
    PadKeepsOut(day, 'T');
    SplitDateOfJoin(year, '-', Pad2(month), '-', Pad2(day));
  }

  /** Rearranged pieces without separators split back into the year piece, the padded month and the
      padded day, and bring in no `T`. */
  lemma {:induction false} RearrangedPieces(p: seq<string>)
    requires |p| == 3
    requires forall k :: 0 <= k < 3 ==> '-' !in p[k] && '/' !in p[k] && 'T' !in p[k]
    ensures SplitDate(Rearranged(p)) ==
      if |p[0]| == 4 then [p[0], Pad2(p[1]), Pad2(p[2])] else [p[2], Pad2(p[1]), Pad2(p[0])]
    ensures 'T' !in Rearranged(p)
  {
    if |p[0]| == 4 {
      JoinPieces(p[0], p[1], p[2]);
    } else {
      JoinPieces(p[2], p[1], p[0]);
    }
  }

  /** Rearranging the pieces of a rearranged date with a four-character year gives it back. */
  lemma {:induction false} RearrangedStable(p: seq<string>)
    requires |p| == 3 && (|p[0]| == 4 || |p[2]| == 4)
    requires forall k :: 0 <= k < 3 ==> '-' !in p[k] && '/' !in p[k] && 'T' !in p[k]
    ensures |SplitDate(Rearranged(p))| == 3
    ensures Rearranged(SplitDate(Rearranged(p))) == Rearranged(p)
  {
    RearrangedPieces(p);
  }

  /** The pieces of a date part carry no separator and no `T`. */
  lemma {:induction false} DatePartPieces(s: string)
    ensures var p := SplitDate(BeforeT(s));
      forall k :: 0 <= k < |p| ==> '-' !in p[k] && '/' !in p[k] && 'T' !in p[k]
  {
    var d := BeforeT(s);
    SplitDateParts(d);
    SplitDateKeepsOut(d, 'T');
  }

  /** The normalised text has no `T`, and it splits back into the year piece, the padded month and the
      padded day: a four-character first piece keeps its place, otherwise the pieces are reversed. */
  lemma {:induction false} NormalizedPieces(s: string)
    requires s != [] && |SplitDate(BeforeT(s))| == 3
    ensures var p := SplitDate(BeforeT(s));
      SplitDate(NormalizeDate(Some(s))) ==
        if |p[0]| == 4 then [p[0], Pad2(p[1]), Pad2(p[2])] else [p[2], Pad2(p[1]), Pad2(p[0])]
    ensures 'T' !in NormalizeDate(Some(s))
  {
    DatePartPieces(s);
    RearrangedPieces(SplitDate(BeforeT(s)));
  }

  /** Normalising twice is normalising once, whenever the pieces the first pass produces put a
      four-character year first (a date whose year is written with two digits is read the other way round
      on the second pass). */
  lemma {:induction false} NormalizeDateIdempotent(dateStr: Option<string>)
    requires var p := SplitDate(BeforeT(dateStr.GetOr(""))); |p| == 3 ==> |p[0]| == 4 || |p[2]| == 4
    ensures NormalizeDate(Some(NormalizeDate(dateStr))) == NormalizeDate(dateStr)
  {
    if !Blank(dateStr) && |SplitDate(BeforeT(dateStr.value))| == 3 {
      var p := SplitDate(BeforeT(dateStr.value));
      var r := Rearranged(p);
      assert NormalizeDate(dateStr) == r;
      DatePartPieces(dateStr.value);
      RearrangedPieces(p);
      RearrangedStable(p);
      assert BeforeT(r) == r by {
        BeforeTOfPrefix(r, []);
        assert r + [] == r;
      }
    }
  }

  /** The text of a number, written as it is or padded to two digits. */
  function Numeral(n: nat, padded: bool): (s: string)
    ensures s != [] && AllDigits(s)
    ensures Pad2(s) == TwoDigits(n)
  {
    if padded then TwoDigits(n) else NatToString(n)
  }

  lemma {:induction false} DigitsHaveNoT(s: string)
    requires AllDigits(s)
    ensures 'T' !in s
    ensures forall i :: 0 <= i < |s| ==> !IsDateSeparator(s[i])
  {
  }

  /** The date part of a date written year first, followed by nothing or by a time after `T`. */
  lemma {:induction false} DatePartOf(year: string, month: string, day: string, s1: char, s2: char, suffix: string)
    requires AllDigits(year) && AllDigits(month) && AllDigits(day)
    requires IsDateSeparator(s1) && IsDateSeparator(s2)
    requires suffix == [] || suffix[0] == 'T'
    ensures BeforeT(year + [s1] + month + [s2] + day + suffix) == year + [s1] + month + [s2] + day
    ensures SplitDate(year + [s1] + month + [s2] + day) == [year, month, day]
  {
    DigitsHaveNoT(year);
    DigitsHaveNoT(month);
    DigitsHaveNoT(day);
    var d := year + [s1] + month + [s2] + day;
    assert 'T' !in d by {
      assert forall c :: c in d ==> c in year || c == s1 || c in month || c == s2 || c in day;
    }
    BeforeTOfPrefix(d, suffix);
    SplitDateOfJoin(year, s1, month, s2, day);
  }

  /** A date written year first, with a four-digit year, the month and day padded or not, `-` or `/`
      between them and optionally followed by `T` and a time, normalises to `YYYY-MM-DD`. */
  lemma {:induction false} NormalizeYearFirst(year: nat, month: nat, day: nat, padMonth: bool, padDay: bool, s1: char, s2: char,
                           suffix: string)
    requires 1000 <= year <= 9999
    requires IsDateSeparator(s1) && IsDateSeparator(s2)
    requires suffix == [] || suffix[0] == 'T'
    ensures NormalizeDate(Some(NatToString(year) + [s1] + Numeral(month, padMonth) + [s2] + Numeral(day, padDay) + suffix))
         == IsoDate(year, month, day)
  {
    var y, m, d := NatToString(year), Numeral(month, padMonth), Numeral(day, padDay);
    assert |y| == 4 by {
      NatToStringFourDigits(year);
    }
    DatePartOf(y, m, d, s1, s2, suffix);
    var p := [y, m, d];
    assert NormalizeDate(Some(y + [s1] + m + [s2] + d + suffix)) == Rearranged(p);
    assert Rearranged(p) == y + "-" + TwoDigits(month) + "-" + TwoDigits(day);
  }

  /** A date written day first, the day and month padded or not and the year in full, normalises to the
      same `YYYY-MM-DD`. */
  lemma {:induction false} NormalizeDayFirst(year: nat, month: nat, day: nat, padMonth: bool, padDay: bool, s1: char, s2: char,
                          suffix: string)
    requires day < 100
    requires IsDateSeparator(s1) && IsDateSeparator(s2)
    requires suffix == [] || suffix[0] == 'T'
    ensures NormalizeDate(Some(Numeral(day, padDay) + [s1] + Numeral(month, padMonth) + [s2] + NatToString(year) + suffix))
         == IsoDate(year, month, day)
  {
    var d, m, y := Numeral(day, padDay), Numeral(month, padMonth), NatToString(year);
    assert |d| != 4 by {
      NatToStringBelowThousand(day);
    }
    DatePartOf(d, m, y, s1, s2, suffix);
    var p := [d, m, y];
    assert NormalizeDate(Some(d + [s1] + m + [s2] + y + suffix)) == Rearranged(p);
    assert Rearranged(p) == y + "-" + TwoDigits(month) + "-" + TwoDigits(day);
  }

  // ---------------------------------------------------------------------------
  // Today's bookings by room

  /** `todayString`: the local date of the clock as `YYYY-MM-DD`, the month given 0-based as the clock
      reports it. */
  function TodayString(year: nat, month0: nat, date: nat): string {
    IsoDate(year, month0 + 1, date)
  }

  /** Today's date is already normal, so a booking dated today in any of the layouts above is kept. */
  lemma {:induction false} TodayStringIsNormal(year: nat, month0: nat, date: nat)
    requires 1000 <= year <= 9999
    ensures NormalizeDate(Some(TodayString(year, month0, date))) == TodayString(year, month0, date)
  {
    NormalizeYearFirst(year, month0 + 1, date, true, true, '-', '-', []);
    assert IsoDate(year, month0 + 1, date) + [] == IsoDate(year, month0 + 1, date);
  }

  predicate OnDay(b: Booking, today: string) {
    NormalizeDate(b.date) == today
  }

  function OnDayOf(today: string): Booking -> bool {
    (b: Booking) => OnDay(b, today)
  }

  function InRoom(room: string): Booking -> bool {
    (b: Booking) => b.room == room
  }

  /** The rooms of a list of bookings. */
  ghost function RoomsOf(s: seq<Booking>): set<string> {
    set b | b in s :: b.room
  }

  /** The groups of a list of bookings: for each of its rooms, that room's bookings in list order. */
  ghost function GroupsOf(s: seq<Booking>): map<string, seq<Booking>> {
    map r | r in RoomsOf(s) :: Filter(s, InRoom(r))
  }

  /** Pushing a booking onto the group of its room, made empty first when the room has none yet, gives the
      groups of the longer list. */
  lemma {:induction false} GroupsOfPush(s: seq<Booking>, b: Booking)
    ensures var g := GroupsOf(s);
      GroupsOf(s + [b]) == g[b.room := (if b.room in g then g[b.room] else []) + [b]]
  {
    var g, big := GroupsOf(s), GroupsOf(s + [b]);
    var h := g[b.room := (if b.room in g then g[b.room] else []) + [b]];
    assert RoomsOf(s + [b]) == RoomsOf(s) + {b.room} by {
      forall x | x in s + [b]
        ensures x.room in RoomsOf(s) + {b.room}
      {
        if x != b {
          assert x in s;
        }
      }
      forall x | x in s
        ensures x in s + [b]
      {
      }
    }
    assert big.Keys == h.Keys;
    forall r | r in big
      ensures big[r] == h[r]
    {
      FilterAppend(s, b, InRoom(r));
      if r !in RoomsOf(s) {
        FilterNone(s, InRoom(r));
      }
    }
  }

  /** Every group is non-empty, holds only bookings of its room, and holds each of them as often as the
      list does; every booking's room has a group; groups keep the list's order. */
  lemma GroupsOfContents(s: seq<Booking>, r: string, b: Booking, le: (Booking, Booking) -> bool)
    ensures r in GroupsOf(s) ==> GroupsOf(s)[r] != []
    ensures r in GroupsOf(s) ==> multiset(GroupsOf(s)[r])[b] == if b.room == r then multiset(s)[b] else 0
    ensures b in s ==> b.room in GroupsOf(s)
    ensures r in GroupsOf(s) && SortedBy(s, le) ==> SortedBy(GroupsOf(s)[r], le)
  {
    if r in GroupsOf(s) {
      var x :| x in s && x.room == r;
      FilterMember(s, InRoom(r), x);
      FilterCount(s, InRoom(r), b);
      if SortedBy(s, le) {
        FilterSorted(s, InRoom(r), le);
      }
    }
  }

  /** One step of the `forEach`: the booking is pushed onto the group of its room, a room seen for the first
      time getting an empty group first. */
  function Push(groups: map<string, seq<Booking>>, b: Booking): map<string, seq<Booking>> {
    groups[b.room := (if b.room in groups then groups[b.room] else []) + [b]]
  }

  /** The groups the `forEach` builds from a list, one push per booking in list order. */
  function Pushed(s: seq<Booking>): map<string, seq<Booking>> {
    if s == [] then map[] else Push(Pushed(s[..|s| - 1]), s[|s| - 1])
  }

  /** Pushing the bookings one by one yields exactly the groups of the list: for each room of the list,
      that room's bookings in list order. */
  lemma {:induction false} PushedIsGroupsOf(s: seq<Booking>)
    ensures Pushed(s) == GroupsOf(s)
  {
    if s == [] {
      assert GroupsOf(s) == map[];
    } else {
      var init, last := s[..|s| - 1], s[|s| - 1];
      PushedIsGroupsOf(init);
      GroupsOfPush(init, last);
      assert s == init + [last];
    }
  }

  /** The body of the `forEach`: a room without a group gets an empty one, then the booking is appended to
      its room's group; `order` keeps the rooms in the order they were first seen. */
  method PushBooking(groups: map<string, seq<Booking>>, order: seq<string>, b: Booking)
    returns (groups': map<string, seq<Booking>>, order': seq<string>)
    requires forall r :: r in order <==> r in groups
    requires Unique(order)
    ensures groups' == Push(groups, b)
    ensures forall r :: r in order' <==> r in groups'
    ensures Unique(order')
  {
    groups', order' := groups, order;
    if b.room !in groups' {
      groups' := groups'[b.room := []];
      UniqueAppend(order', b.room);
      order' := order' + [b.room];
    }
    groups' := groups'[b.room := groups'[b.room] + [b]];
  }

  /** The `forEach` that fills `groups`: each booking in turn is pushed onto the group of its room;
      `order` lists the rooms as they are first seen. */
  method GroupByRoom(todays: seq<Booking>) returns (groups: map<string, seq<Booking>>, order: seq<string>)
    ensures groups == GroupsOf(todays)
    ensures forall r :: r in order <==> r in groups
    ensures Unique(order)
  {
    groups, order := map[], [];
    var i := 0;
    while i < |todays|
      invariant 0 <= i <= |todays|
      invariant groups == Pushed(todays[..i])
      invariant forall r :: r in order <==> r in groups
      invariant Unique(order)
    {
      assert todays[..i + 1][..i] == todays[..i];
      groups, order := PushBooking(groups, order, todays[i]);
      i := i + 1;
    }
    assert todays[..i] == todays;
    PushedIsGroupsOf(todays);
  }

  /** `groupedBookings` and the sorted room keys: the bookings dated today, ordered by start, pushed one by
      one into the group of their room; every room with a booking today has a non-empty group holding
      exactly that room's bookings of today, each as often as it occurs, in order of start and, among equal
      starts, in list order; the rooms are
      listed once each, in text order. */
  method GroupedBookings(bookings: seq<Booking>, year: nat, month0: nat, date: nat, isoClock: IsoClock)
    returns (groups: map<string, seq<Booking>>, rooms: seq<string>)
    ensures forall b :: b in bookings && OnDay(b, TodayString(year, month0, date)) ==> b.room in groups
    ensures forall r :: r in groups ==> groups[r] != []
    ensures forall r, b :: r in groups ==>
      multiset(groups[r])[b] == if b.room == r && OnDay(b, TodayString(year, month0, date)) then multiset(bookings)[b] else 0
    ensures forall r :: r in groups ==> SortedBy(groups[r], ByStart(isoClock, false))
    ensures forall r :: r in groups ==>
      StableFor(groups[r], Filter(Filter(bookings, OnDayOf(TodayString(year, month0, date))), InRoom(r)),
                ByStart(isoClock, false))
    ensures forall r :: r in rooms <==> r in groups
    ensures forall i, j :: 0 <= i < j < |rooms| ==> StrLe(rooms[i], rooms[j]) && rooms[i] != rooms[j]
  {
    var today := TodayString(year, month0, date);
    ByStartIsTotalPreorder(isoClock, false);
    var todays := SortedCopy(Filter(bookings, OnDayOf(today)), ByStart(isoClock, false));
    var order;
    groups, order := GroupByRoom(todays);
    GroupsOfSelection(bookings, OnDayOf(today), todays, ByStart(isoClock, false));
    forall r | r in groups
      ensures StableFor(groups[r], Filter(Filter(bookings, OnDayOf(today)), InRoom(r)), ByStart(isoClock, false))
    {
      StableFilter(todays, Filter(bookings, OnDayOf(today)), ByStart(isoClock, false), InRoom(r));
    }
    rooms := SortTexts(order);
    SameElements(order, rooms);
  }

  /** The groups of a sorted rearrangement of the bookings that satisfy `keep`: a non-empty group for every
      room of such a booking, each holding exactly that room's kept bookings, each as often as it occurs
      among all bookings, in sorted order. */
  lemma GroupsOfSelection(bookings: seq<Booking>, keep: Booking -> bool, selected: seq<Booking>,
                          le: (Booking, Booking) -> bool)
    requires multiset(selected) == multiset(Filter(bookings, keep))
    requires SortedBy(selected, le)
    ensures forall b :: b in bookings && keep(b) ==> b.room in GroupsOf(selected)
    ensures forall r :: r in GroupsOf(selected) ==> GroupsOf(selected)[r] != []
    ensures forall r, b :: r in GroupsOf(selected) ==>
      multiset(GroupsOf(selected)[r])[b] == if b.room == r && keep(b) then multiset(bookings)[b] else 0
    ensures forall r :: r in GroupsOf(selected) ==> SortedBy(GroupsOf(selected)[r], le)
  {
    var groups := GroupsOf(selected);
    forall r, b: Booking | r in groups
      ensures groups[r] != [] && SortedBy(groups[r], le)
      ensures multiset(groups[r])[b] == if b.room == r && keep(b) then multiset(bookings)[b] else 0
    {
      GroupsOfContents(selected, r, b, le);
      FilterCount(bookings, keep, b);
    }
    forall b: Booking | b in bookings && keep(b)
      ensures b.room in groups
    {
      GroupsOfContents(selected, b.room, b, le);
      FilterCount(bookings, keep, b);
      assert b in multiset(selected);
    }
  }

  /** Two sequences with the same elements, counted with multiplicity, have the same members. */
  lemma SameElements<T>(s: seq<T>, t: seq<T>)
    requires multiset(s) == multiset(t)
    ensures forall x :: x in s <==> x in t
  {
    forall x
      ensures x in s <==> x in t
    {
      assert x in s <==> x in multiset(s);
      assert x in t <==> x in multiset(t);
    }
  }
}
