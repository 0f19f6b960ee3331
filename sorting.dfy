/**
 * The in-place sort behind every `Array.prototype.sort` call of the dashboard, specified by the order
 * it establishes (a total preorder), by being a permutation of its input, and by being stable: elements
 * the order ranks equal keep their input order, as ECMAScript requires of `sort` since its 2019 edition.
 */
module Sorting {
  import opened Strings
  import opened Seqs

  /** `le` is total (any two elements compare) and transitive. */
  ghost predicate TotalPreorder<T(!new)>(le: (T, T) -> bool) {
    && (forall x, y :: le(x, y) || le(y, x))
    && (forall x, y, z :: le(x, y) && le(y, z) ==> le(x, z))
  }

  ghost predicate SortedBy<T>(s: seq<T>, le: (T, T) -> bool) {
    forall i, j :: 0 <= i < j < |s| ==> le(s[i], s[j])
  }

  /** The elements `le` ranks equal to `x`. */
  function Tied<T>(le: (T, T) -> bool, x: T): T -> bool {
    (y: T) => le(x, y) && le(y, x)
  }

  /** `r` lists the elements of every group of elements ranked equal in the same order as `s` does. */
  ghost predicate StableFor<T(!new)>(r: seq<T>, s: seq<T>, le: (T, T) -> bool) {
    forall x :: Filter(r, Tied(le, x)) == Filter(s, Tied(le, x))
  }

  /** Sorts `a` in place by insertion: each element moves left past the elements it must precede, and never
      past one ranked equal, so equal elements keep their order. */
  method InsertionSort<T(!new)>(a: array<T>, le: (T, T) -> bool)
    requires TotalPreorder(le)
    modifies a
    ensures SortedBy(a[..], le)
    ensures multiset(a[..]) == multiset(old(a[..]))
    ensures StableFor(a[..], old(a[..]), le)
  {
    var i := 0;
    while i < a.Length
      invariant 0 <= i <= a.Length
      invariant SortedBy(a[..i], le)
      invariant multiset(a[..]) == multiset(old(a[..]))
      invariant StableFor(a[..], old(a[..]), le)
    {
      var j := i;
      while j > 0 && !le(a[j - 1], a[j])
        invariant 0 <= j <= i
        invariant Inserting(a[..], j, i, le)
        invariant multiset(a[..]) == multiset(old(a[..]))
        invariant StableFor(a[..], old(a[..]), le)
      {
        ghost var before := a[..];
        a[j - 1], a[j] := a[j], a[j - 1];
        assert a[..] == Swapped(before, j);
        SwapStep(before, j, i, le);
        SwapKeepsTies(before, j, le);
        j := j - 1;
      }
      InsertDone(a[..], j, i, le);
      i := i + 1;
    }
    assert a[..a.Length] == a[..];
  }

  /** While element `i` travels left, it sits at `j`: the other elements up to `i` are in order, and it
      precedes every element to its right. */
  ghost predicate Inserting<T>(s: seq<T>, j: nat, i: nat, le: (T, T) -> bool)
    requires j <= i < |s|
  {
    && (forall k, l :: 0 <= k < l <= i && k != j && l != j ==> le(s[k], s[l]))
    && (forall l :: j < l <= i ==> le(s[j], s[l]))
  }

  /** `s` with the elements at `j - 1` and `j` exchanged. */
  function Swapped<T>(s: seq<T>, j: nat): (r: seq<T>)
    requires 0 < j < |s|
    ensures |r| == |s| && multiset(r) == multiset(s)
  {
    s[j - 1 := s[j]][j := s[j - 1]]
  }

  /** Moving the travelling element one place left past an element it must precede keeps the insertion
      invariant. */
  lemma SwapStep<T(!new)>(s: seq<T>, j: nat, i: nat, le: (T, T) -> bool)
    requires TotalPreorder(le)
    requires 0 < j <= i < |s| && Inserting(s, j, i, le) && !le(s[j - 1], s[j])
    ensures Inserting(Swapped(s, j), j - 1, i, le)
  {
    var r := Swapped(s, j);
    assert le(s[j], s[j - 1]);
    forall l | j - 1 < l <= i
      ensures le(r[j - 1], r[l])
    {
      if l > j {
        assert le(s[j], s[l]);
      }
    }
    forall k, l | 0 <= k < l <= i && k != j - 1 && l != j - 1
      ensures le(r[k], r[l])
    {
      if l == j {
        assert r[l] == s[j - 1];
        if k < j - 1 {
          assert le(s[k], s[j - 1]);
        }
      } else if k == j {
        assert le(s[j - 1], s[l]);
      }
    }
  }

  /** Exchanging two neighbours that the order does not rank equal keeps every group of equal elements in
      its order. */
  lemma SwapKeepsTies<T(!new)>(s: seq<T>, j: nat, le: (T, T) -> bool)
    requires TotalPreorder(le)
    requires 0 < j < |s| && !le(s[j - 1], s[j])
    ensures forall x :: Filter(Swapped(s, j), Tied(le, x)) == Filter(s, Tied(le, x))
  {
    var r := Swapped(s, j);
    var pre, post := s[..j - 1], s[j + 1..];
    assert s == pre + [s[j - 1], s[j]] + post;
    assert r == pre + [s[j], s[j - 1]] + post;
    forall x
      ensures Filter(r, Tied(le, x)) == Filter(s, Tied(le, x))
    {
      var p := Tied(le, x);
      assert !(p(s[j - 1]) && p(s[j]));
      PairFilter(s[j - 1], s[j], p);
      FilterConcat(pre, [s[j - 1], s[j]], p);
      FilterConcat(pre + [s[j - 1], s[j]], post, p);
      FilterConcat(pre, [s[j], s[j - 1]], p);
      FilterConcat(pre + [s[j], s[j - 1]], post, p);
    }
  }

  /** A pair of which at most one element is kept filters the same in either order. */
  lemma PairFilter<T>(u: T, v: T, p: T -> bool)
    requires !(p(u) && p(v))
    ensures Filter([u, v], p) == Filter([v, u], p)
  {
    assert [u, v][..1] == [u] && [v, u][..1] == [v];
    assert [u][..0] == [] && [v][..0] == [];
  }

  /** Filtering two stably ordered sequences alike keeps them stably ordered. */
  lemma StableFilter<T(!new)>(r: seq<T>, s: seq<T>, le: (T, T) -> bool, q: T -> bool)
    requires StableFor(r, s, le)
    ensures StableFor(Filter(r, q), Filter(s, q), le)
  {
    forall x
      ensures Filter(Filter(r, q), Tied(le, x)) == Filter(Filter(s, q), Tied(le, x))
    {
      FilterCommute(r, q, Tied(le, x));
      FilterCommute(s, q, Tied(le, x));
    }
  }

  /** When the travelling element stops, the prefix up to `i` is sorted. */
  lemma InsertDone<T(!new)>(s: seq<T>, j: nat, i: nat, le: (T, T) -> bool)
    requires TotalPreorder(le)
    requires j <= i < |s| && Inserting(s, j, i, le) && (j == 0 || le(s[j - 1], s[j]))
    ensures SortedBy(s[..i + 1], le)
  {
    forall k, l | 0 <= k < l <= i
      ensures le(s[k], s[l])
    {
      if k == j - 1 && l != j {
        assert le(s[k], s[j]) && le(s[j], s[l]);
      } else if k < j - 1 && l == j {
        assert le(s[k], s[j - 1]) && le(s[j - 1], s[j]);
      }
    }
  }

  /** `[...s].sort(compare)`: sorts a fresh copy, so `s` itself is not reordered. */
  method SortedCopy<T(!new)>(s: seq<T>, le: (T, T) -> bool) returns (r: seq<T>)
    requires TotalPreorder(le)
    ensures SortedBy(r, le)
    ensures multiset(r) == multiset(s)
    ensures |r| == |s|
    ensures StableFor(r, s, le)
  {
    var a := new T[|s|](i requires 0 <= i < |s| => s[i]);
    assert a[..] == s;
    InsertionSort(a, le);
    r := a[..];
    assert |r| == |multiset(r)| == |multiset(s)| == |s|;
  }

  /** Filtering a sorted sequence leaves it sorted. */
  lemma {:induction false} FilterSorted<T>(s: seq<T>, p: T -> bool, le: (T, T) -> bool)
    requires SortedBy(s, le)
    ensures SortedBy(Filter(s, p), le)
  {
    if s != [] {
      var init, last := s[..|s| - 1], s[|s| - 1];
      assert SortedBy(init, le);
      FilterSorted(init, p, le);
      var f := Filter(init, p);
      forall x | x in f
        ensures le(x, last)
      {
        var i :| 0 <= i < |init| && init[i] == x;
        assert s[i] == x;
      }
    }
  }

  /** The relational operators on strings: code-unit-wise lexicographic order. */
  function TextOrder(): (string, string) -> bool {
    (a: string, b: string) => StrLe(a, b)
  }

  lemma TextOrderIsTotalPreorder()
    ensures TotalPreorder(TextOrder())
  {
    forall a: string, b: string
      ensures TextOrder()(a, b) || TextOrder()(b, a)
    {
      StrLeTotal(a, b);
    }
    forall a: string, b: string, c: string | TextOrder()(a, b) && TextOrder()(b, c)
      ensures TextOrder()(a, c)
    {
      StrLeTransitive(a, b, c);
    }
  }

  /** `texts.sort()` with no comparator, on texts without repetitions: the same texts in strictly increasing
      order. */
  method SortTexts(texts: seq<string>) returns (r: seq<string>)
    requires Unique(texts)
    ensures multiset(r) == multiset(texts)
    ensures forall i, j :: 0 <= i < j < |r| ==> StrLe(r[i], r[j]) && r[i] != r[j]
  {
    TextOrderIsTotalPreorder();
    r := SortedCopy(texts, TextOrder());
    UniquePermutation(texts, r);
  }
}
