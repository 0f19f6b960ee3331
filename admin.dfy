/**
 * The administration table: every booking, latest start first, narrowed by a free-text search over all
 * fields, and the status change that sends a copy of one booking with only its status replaced.
 */
module Admin {
  import opened Options
  import opened Strings
  import opened Seqs
  import opened Sorting
  import opened DateTime
  import opened Records
  import opened Bookings

  /** `sortedBookings`: a sorted copy of all bookings, latest start first, unknown starts last, bookings with
      equal starts in list order. The input is a value, so it is left as it was. */
  method SortedBookings(allBookings: seq<Booking>, isoClock: IsoClock) returns (sorted: seq<Booking>)
    ensures SortedBy(sorted, ByStart(isoClock, true))
    ensures multiset(sorted) == multiset(allBookings)
    ensures |sorted| == |allBookings|
    ensures StableFor(sorted, allBookings, ByStart(isoClock, true))
  {
    ByStartIsTotalPreorder(isoClock, true);
    sorted := SortedCopy(allBookings, ByStart(isoClock, true));
  }

  /** Some field of `b`, as text and lower-cased, contains the lower-cased search term. */
  predicate MatchesTerm(b: Booking, term: string) {
    exists k :: 0 <= k < |FieldTexts(b)| && Contains(ToLower(FieldTexts(b)[k]), ToLower(term))
  }

  function MatchesTermOf(term: string): Booking -> bool {
    (b: Booking) => MatchesTerm(b, term)
  }

  /** `filteredBookings`: everything for an empty search term, otherwise the matching bookings in order. */
  function FilteredBookings(sorted: seq<Booking>, term: string): (r: seq<Booking>)
    ensures term == [] ==> r == sorted
    ensures |r| <= |sorted|
    ensures forall b :: b in r ==> b in sorted && (term == [] || MatchesTerm(b, term))
  {
    if term == [] then sorted else Filter(sorted, MatchesTermOf(term))
  }

  /** A non-empty term keeps every occurrence of a matching booking and drops every other booking. */
  lemma FilteredBookingsExact(sorted: seq<Booking>, term: string, b: Booking)
    requires term != []
    ensures multiset(FilteredBookings(sorted, term))[b] == if MatchesTerm(b, term) then multiset(sorted)[b] else 0
    ensures b in FilteredBookings(sorted, term) <==> b in sorted && MatchesTerm(b, term)
  {
    FilterCount(sorted, MatchesTermOf(term), b);
    FilterMember(sorted, MatchesTermOf(term), b);
  }

  /** Filtering keeps the table's order: a sorted table stays sorted. */
  lemma FilteredBookingsSorted(sorted: seq<Booking>, term: string, isoClock: IsoClock)
    requires SortedBy(sorted, ByStart(isoClock, true))
    ensures SortedBy(FilteredBookings(sorted, term), ByStart(isoClock, true))
  {
    if term != [] {
      FilterSorted(sorted, MatchesTermOf(term), ByStart(isoClock, true));
    }
  }

  /** The search ignores the case of Latin letters. */
  lemma SearchIgnoresCase(b: Booking, term: string)
    ensures MatchesTerm(b, term) <==> MatchesTerm(b, ToLower(term))
  {
    ToLowerIdempotent(term);
  }

  /** `allBookings.find(b => b['رقم الحجز'] === id)`: the first booking with that id. */
  function FindById(bookings: seq<Booking>, id: string): (r: Option<Booking>)
    ensures r.None? <==> forall i :: 0 <= i < |bookings| ==> bookings[i].id != id
    ensures r.Some? ==>
      exists i :: 0 <= i < |bookings| && bookings[i] == r.value && r.value.id == id &&
        forall j :: 0 <= j < i ==> bookings[j].id != id
  {
    Find(bookings, (b: Booking) => b.id == id)
  }

  /** `handleStatusChange`: the record to send, if a booking with that id exists: that booking with only
      its status replaced. `None` means nothing is sent. */
  function StatusUpdate(allBookings: seq<Booking>, id: string, newStatus: string): (r: Option<Booking>)
    ensures r.None? <==> forall i :: 0 <= i < |allBookings| ==> allBookings[i].id != id
    ensures r.Some? ==> r.value.status == newStatus && r.value.id == id
    ensures r.Some? ==> r.value == FindById(allBookings, id).value.(status := newStatus)
  {
    match FindById(allBookings, id)
    case None => None
    case Some(b) => Some(b.(status := newStatus))
  }

  /** The record sent differs from the found booking in its status and nothing else, and changing a status
      twice is the same as changing it once to the second value. */
  lemma StatusUpdateOnlyStatus(allBookings: seq<Booking>, id: string, s1: string, s2: string)
    requires StatusUpdate(allBookings, id, s1).Some?
    ensures var found := FindById(allBookings, id).value;
            StatusUpdate(allBookings, id, s1).value.(status := found.status) == found
    ensures StatusUpdate(allBookings, id, s1).value.(status := s2) == StatusUpdate(allBookings, id, s2).value
  {
  }
}
