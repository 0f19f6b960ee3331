/**
 * The dashboard's figures: an indicator looked up by name with a default, and the bookings per
 * department, counted in a dictionary and cut to the five busiest departments.
 */
module Dashboard {
  import opened Options
  import opened Seqs
  import opened Sorting
  import opened Records

  /** The value shown for an indicator that the sheet does not list ("not available"). */
  const Unavailable := "غير متوفر"

  /** `getIndicatorValue`: the value of the first entry named `name`, or `Unavailable` when no entry is. */
  function GetIndicatorValue(dashboardData: seq<DashboardEntry>, name: string): (r: IndicatorValue)
    ensures (forall i :: 0 <= i < |dashboardData| ==> dashboardData[i].indicator != name) ==> r == Text(Unavailable)
    ensures forall i :: (0 <= i < |dashboardData| && dashboardData[i].indicator == name &&
      forall j :: 0 <= j < i ==> dashboardData[j].indicator != name) ==> r == dashboardData[i].value
  {
    match Find(dashboardData, (d: DashboardEntry) => d.indicator == name)
    case Some(item) => item.value
    case None => Text(Unavailable)
  }

  // ---------------------------------------------------------------------------
  // Bookings per department

  /** The department of every booking, in list order. */
  function DepartmentsOf(bookings: seq<Booking>): (ds: seq<string>)
    ensures |ds| == |bookings|
    ensures forall i :: 0 <= i < |bookings| ==> ds[i] == bookings[i].department
  {
    seq(|bookings|, i requires 0 <= i < |bookings| => bookings[i].department)
  }

  /** The number of bookings of department `d`. */
  function BookingsOf(bookings: seq<Booking>, d: string): nat {
    multiset(DepartmentsOf(bookings))[d]
  }

  /** The bookings made by department `d`. */
  function OfDepartment(d: string): Booking -> bool {
    (b: Booking) => b.department == d
  }

  /** The count of a department is the number of bookings it made. */
  lemma {:induction false} BookingsOfIsCount(bookings: seq<Booking>, d: string)
    ensures BookingsOf(bookings, d) == |Filter(bookings, OfDepartment(d))|
    decreases |bookings|
  {
    if bookings != [] {
      var init, last := bookings[..|bookings| - 1], bookings[|bookings| - 1];
      BookingsOfIsCount(init, d);
      assert DepartmentsOf(bookings) == DepartmentsOf(init) + [last.department];
      assert multiset(DepartmentsOf(bookings)) == multiset(DepartmentsOf(init)) + multiset{last.department};
    }
  }

  /** The sum of the counts of `keys`. */
  function SumCounts(keys: seq<string>, counts: map<string, nat>): nat
    requires forall k :: k in keys ==> k in counts
  {
    if keys == [] then 0 else SumCounts(keys[..|keys| - 1], counts) + counts[keys[|keys| - 1]]
  }

  /** Changing the count of a key outside `keys` leaves their sum alone. */
  lemma {:induction false} SumCountsOther(keys: seq<string>, counts: map<string, nat>, d: string, v: nat)
    requires forall k :: k in keys ==> k in counts
    requires d !in keys
    ensures SumCounts(keys, counts[d := v]) == SumCounts(keys, counts)
  {
    if keys != [] {
      SumCountsOther(keys[..|keys| - 1], counts, d, v);
    }
  }

  /** Adding one to the count of a key that occurs once in `keys` adds one to their sum. */
  lemma {:induction false} SumCountsIncrement(keys: seq<string>, counts: map<string, nat>, d: string)
    requires forall k :: k in keys ==> k in counts
    requires Unique(keys) && d in keys
    ensures SumCounts(keys, counts[d := counts[d] + 1]) == SumCounts(keys, counts) + 1
  {
    var init, last := keys[..|keys| - 1], keys[|keys| - 1];
    assert Unique(init);
    if last == d {
      assert d !in init;
      SumCountsOther(init, counts, d, counts[d] + 1);
    } else {
      SumCountsIncrement(init, counts, d);
    }
  }

  /** `counts` and `order` after the departments `prefix` have been counted: each department seen is a key,
      its count is its number of occurrences, `order` lists each key once, and the counts add up to the
      number of departments seen. */
  ghost predicate Tally(prefix: seq<string>, counts: map<string, nat>, order: seq<string>) {
    && (forall d :: d in counts <==> d in prefix)
    && (forall d :: d in counts ==> counts[d] == multiset(prefix)[d])
    && (forall d :: d in order <==> d in counts)
    && Unique(order)
    && SumCounts(order, counts) == |prefix|
  }

  /** Counting a department already seen adds one to its count. */
  lemma TallyKnown(prefix: seq<string>, d: string, counts: map<string, nat>, order: seq<string>)
    requires Tally(prefix, counts, order) && d in counts
    ensures Tally(prefix + [d], counts[d := counts[d] + 1], order)
  {
    var counts' := counts[d := counts[d] + 1];
    assert multiset(prefix + [d]) == multiset(prefix) + multiset{d};
    assert forall k :: k in counts' ==> counts'[k] == multiset(prefix + [d])[k];
    SumCountsIncrement(order, counts, d);
  }

  /** Counting a new department gives it the count one and appends it to the order. */
  lemma TallyNew(prefix: seq<string>, d: string, counts: map<string, nat>, order: seq<string>)
    requires Tally(prefix, counts, order) && d !in counts
    ensures Tally(prefix + [d], counts[d := 1], order + [d])
  {
    var counts' := counts[d := 1];
    assert multiset(prefix + [d]) == multiset(prefix) + multiset{d};
    assert forall k :: k in counts' ==> counts'[k] == multiset(prefix + [d])[k];
    SumCountsOther(order, counts, d, 1);
    UniqueAppend(order, d);
    SumCountsAppend(order, counts', d);
  }

  /** The sum over keys with one more key appended. */
  lemma SumCountsAppend(keys: seq<string>, counts: map<string, nat>, d: string)
    requires forall k :: k in keys ==> k in counts
    requires d in counts
    ensures SumCounts(keys + [d], counts) == SumCounts(keys, counts) + counts[d]
  {
    assert (keys + [d])[..|keys|] == keys;
  }

  /** The `forEach` that fills `counts`: each booking adds one to its department's count, which starts
      from zero for a department not seen before. `order` lists the departments as they are first seen, the order `Object.entries` reports them in.
      Each department of a booking is counted as often as it occurs, no other key appears, and the counts
      add up to the number of bookings. */
  method CountDepartments(bookings: seq<Booking>) returns (counts: map<string, nat>, order: seq<string>)
    ensures forall d :: d in counts <==> d in DepartmentsOf(bookings)
    ensures forall d :: d in counts ==> counts[d] == BookingsOf(bookings, d)
    ensures forall d :: d in order <==> d in counts
    ensures Unique(order)
    ensures SumCounts(order, counts) == |bookings|
  {
    var ds := DepartmentsOf(bookings);
    counts, order := map[], [];
    var i := 0;
    while i < |bookings|
      invariant 0 <= i <= |bookings|
      invariant Tally(ds[..i], counts, order)
    {
      var dept := bookings[i].department;
      PrefixStep(ds, i);
      if dept in counts {
        TallyKnown(ds[..i], dept, counts, order);
        counts := counts[dept := counts[dept] + 1];
      } else {
        TallyNew(ds[..i], dept, counts, order);
        counts := counts[dept := 1];
        order := order + [dept];
      }
      i := i + 1;
    }
    assert ds[..i] == ds;
  }

  /** One bar of the chart: a department and its number of bookings. */
  datatype DepartmentCount = DepartmentCount(name: string, count: nat)

  /** `(a, b) => b.count - a.count`: the larger count first. */
  function ByCountDescending(): (DepartmentCount, DepartmentCount) -> bool {
    (a: DepartmentCount, b: DepartmentCount) => a.count >= b.count
  }

  /** `Object.entries(counts).map(...)`: one entry per department, in `order`. */
  function Entries(order: seq<string>, counts: map<string, nat>): (es: seq<DepartmentCount>)
    requires forall d :: d in order ==> d in counts
    ensures |es| == |order|
    ensures forall i :: 0 <= i < |order| ==> es[i] == DepartmentCount(order[i], counts[order[i]])
  {
    seq(|order|, i requires 0 <= i < |order| => DepartmentCount(order[i], counts[order[i]]))
  }

  /** An entry is listed exactly when its department is in `order` and it carries that department's count. */
  lemma EntriesOfCounts(order: seq<string>, counts: map<string, nat>)
    requires forall d :: d in order ==> d in counts
    ensures forall e: DepartmentCount :: e in Entries(order, counts) <==> e.name in order && e.count == counts[e.name]
  {
    var es := Entries(order, counts);
    forall e: DepartmentCount | e.name in order && e.count == counts[e.name]
      ensures e in es
    {
      var i :| 0 <= i < |order| && order[i] == e.name;
      assert es[i] == e;
    }
  }

  /** Entries taken from a dictionary name each department once. */
  lemma EntriesUnique(order: seq<string>, counts: map<string, nat>)
    requires forall d :: d in order ==> d in counts
    requires Unique(order)
    ensures Unique(Entries(order, counts))
  {
    var es := Entries(order, counts);
    forall i, j | 0 <= i < j < |es|
      ensures es[i] != es[j]
    {
      assert es[i].name == order[i] && es[j].name == order[j];
    }
  }

  /** In a rearrangement of dictionary entries no department is named twice. */
  lemma NamesUnique(order: seq<string>, counts: map<string, nat>, sorted: seq<DepartmentCount>)
    requires forall d :: d in order ==> d in counts
    requires Unique(order)
    requires multiset(sorted) == multiset(Entries(order, counts))
    ensures forall i, j :: 0 <= i < j < |sorted| ==> sorted[i].name != sorted[j].name
    ensures forall e :: e in sorted ==> e.name in counts && e.count == counts[e.name]
  {
    var es := Entries(order, counts);
    EntriesUnique(order, counts);
    UniquePermutation(es, sorted);
    forall e | e in sorted
      ensures e.name in counts && e.count == counts[e.name]
    {
      assert e in multiset(es);
    }
  }

  /** `departmentBookings`: the departments with their numbers of bookings, the busiest first, cut to five.
      Each department is named at most once with its true count; fewer than five bars mean every
      department is shown; and every department left out has no more bookings than the last one shown. */
  method DepartmentBookings(bookings: seq<Booking>) returns (top: seq<DepartmentCount>)
    ensures |top| <= 5
    ensures forall i, j :: 0 <= i < j < |top| ==> top[i].count >= top[j].count
    ensures forall i, j :: 0 <= i < j < |top| ==> top[i].name != top[j].name
    ensures forall e :: e in top ==> e.name in DepartmentsOf(bookings) && e.count == BookingsOf(bookings, e.name)
    ensures forall d :: d in DepartmentsOf(bookings) && (forall e :: e in top ==> e.name != d) ==>
      |top| == 5 && BookingsOf(bookings, d) <= top[4].count
  {
    var counts, order := CountDepartments(bookings);
    assert TotalPreorder(ByCountDescending());
    var sorted := SortedCopy(Entries(order, counts), ByCountDescending());
    top := sorted[..if |sorted| < 5 then |sorted| else 5];
    CutProperties(bookings, counts, order, sorted);
  }

  /** The first five of the sorted entries of the department counts have the properties promised above. */
  lemma CutProperties(bookings: seq<Booking>, counts: map<string, nat>, order: seq<string>, sorted: seq<DepartmentCount>)
    requires forall d :: d in counts <==> d in DepartmentsOf(bookings)
    requires forall d :: d in counts ==> counts[d] == BookingsOf(bookings, d)
    requires forall d :: d in order <==> d in counts
    requires Unique(order)
    requires multiset(sorted) == multiset(Entries(order, counts))
    requires SortedBy(sorted, ByCountDescending())
    ensures var top := sorted[..if |sorted| < 5 then |sorted| else 5];
      && (forall i, j :: 0 <= i < j < |top| ==> top[i].count >= top[j].count)
      && (forall i, j :: 0 <= i < j < |top| ==> top[i].name != top[j].name)
      && (forall e :: e in top ==> e.name in DepartmentsOf(bookings) && e.count == BookingsOf(bookings, e.name))
      && (forall d :: d in DepartmentsOf(bookings) && (forall e :: e in top ==> e.name != d) ==>
            |top| == 5 && BookingsOf(bookings, d) <= top[4].count)
  {
    var top := sorted[..if |sorted| < 5 then |sorted| else 5];
    NamesUnique(order, counts, sorted);
    forall d | d in DepartmentsOf(bookings) && (forall e :: e in top ==> e.name != d)
      ensures |top| == 5 && BookingsOf(bookings, d) <= top[4].count
    {
      LeftOutBelowCut(order, counts, sorted, d);
    }
  }

  /** A department whose entry is not among the first five of entries sorted by count has no more bookings
      than the fifth. */
  lemma LeftOutBelowCut(order: seq<string>, counts: map<string, nat>, sorted: seq<DepartmentCount>, d: string)
    requires forall k :: k in order <==> k in counts
    requires multiset(sorted) == multiset(Entries(order, counts))
    requires SortedBy(sorted, ByCountDescending())
    requires d in counts
    requires forall e :: e in sorted[..if |sorted| < 5 then |sorted| else 5] ==> e.name != d
    ensures |sorted| >= 5 && counts[d] <= sorted[4].count
  {
    var entries := Entries(order, counts);
    var k :| 0 <= k < |order| && order[k] == d;
    assert entries[k] in multiset(sorted);
    var m :| 0 <= m < |sorted| && sorted[m] == entries[k];
    var n := if |sorted| < 5 then |sorted| else 5;
    assert m >= n;
    assert ByCountDescending()(sorted[4], sorted[m]);
  }
}
