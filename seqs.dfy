/**
 * Sequence operations shared by the views: `Array.prototype.filter`, `Array.prototype.find`, the
 * distinct values of `[...new Set(xs)]`, and sequences without repetitions.
 */
module Seqs {
  import opened Options

  /** `s.filter(p)`: the elements that satisfy `p`, in their original order. */
  function Filter<T>(s: seq<T>, p: T -> bool): (r: seq<T>)
    ensures |r| <= |s|
    ensures forall x :: x in r ==> x in s && p(x)
  {
    if s == [] then [] else Filter(s[..|s| - 1], p) + (if p(s[|s| - 1]) then [s[|s| - 1]] else [])
  }

  /** Filtering keeps every occurrence of an element that satisfies the predicate and no other. */
  lemma {:induction false} FilterCount<T>(s: seq<T>, p: T -> bool, x: T)
    ensures multiset(Filter(s, p))[x] == if p(x) then multiset(s)[x] else 0
  {
    if s != [] {
      var init, last := s[..|s| - 1], s[|s| - 1];
      FilterCount(init, p, x);
      assert s == init + [last];
    }
  }

  /** An element is kept exactly when it occurs in the input and satisfies the predicate. */
  lemma FilterMember<T>(s: seq<T>, p: T -> bool, x: T)
    ensures x in Filter(s, p) <==> x in s && p(x)
  {
    FilterCount(s, p, x);
    assert x in Filter(s, p) <==> multiset(Filter(s, p))[x] > 0;
  }

  /** Filtering a sequence whose elements all satisfy the predicate gives it back unchanged. */
  lemma {:induction false} FilterKeepsAll<T>(s: seq<T>, p: T -> bool)
    requires forall x :: x in s ==> p(x)
    ensures Filter(s, p) == s
  {
    if s != [] {
      FilterKeepsAll(s[..|s| - 1], p);
      assert s == s[..|s| - 1] + [s[|s| - 1]];
    }
  }

  /** Filtering a sequence none of whose elements satisfies the predicate gives the empty sequence. */
  lemma {:induction false} FilterNone<T>(s: seq<T>, p: T -> bool)
    requires forall x :: x in s ==> !p(x)
    ensures Filter(s, p) == []
  {
    if s != [] {
      assert forall x :: x in s[..|s| - 1] ==> x in s;
      FilterNone(s[..|s| - 1], p);
    }
  }

  /** Filtering an appended element. */
  lemma FilterAppend<T>(s: seq<T>, x: T, p: T -> bool)
    ensures Filter(s + [x], p) == Filter(s, p) + (if p(x) then [x] else [])
  {
    assert (s + [x])[..|s|] == s;
  }

  /** Filtering a concatenation filters each part. */
  lemma {:induction false} FilterConcat<T>(s: seq<T>, t: seq<T>, p: T -> bool)
    ensures Filter(s + t, p) == Filter(s, p) + Filter(t, p)
    decreases |t|
  {
    if t == [] {
      assert s + t == s;
    } else {
      var init, last := t[..|t| - 1], t[|t| - 1];
      var tail := if p(last) then [last] else [];
      calc {
        Filter(s + t, p);
        { assert s + t == (s + init) + [last]; }
        Filter((s + init) + [last], p);
        { FilterAppend(s + init, last, p); }
        Filter(s + init, p) + tail;
        { FilterConcat(s, init, p); }
        Filter(s, p) + Filter(init, p) + tail;
        { FilterAppend(init, last, p); assert t == init + [last]; }
        Filter(s, p) + Filter(t, p);
      }
    }
  }

  /** Two filters may be applied in either order. */
  lemma {:induction false} FilterCommute<T>(s: seq<T>, p: T -> bool, q: T -> bool)
    ensures Filter(Filter(s, p), q) == Filter(Filter(s, q), p)
  {
    if s != [] {
      var init, last := s[..|s| - 1], s[|s| - 1];
      FilterCommute(init, p, q);
      var fp, fq := Filter(init, p), Filter(init, q);
      if p(last) {
        assert Filter(s, p) == fp + [last];
        FilterAppend(fp, last, q);
      } else {
        assert Filter(s, p) == fp;
      }
      if q(last) {
        assert Filter(s, q) == fq + [last];
        FilterAppend(fq, last, p);
      } else {
        assert Filter(s, q) == fq;
      }
    }
  }

  /** The values of `s` without repetitions, in the order of their first occurrence (`[...new Set(s)]`). */
  function Distinct<T(==)>(s: seq<T>): (r: seq<T>)
    ensures forall x :: x in s ==> x in r
    ensures forall x :: x in r ==> x in s
    ensures forall i, j :: 0 <= i < j < |r| ==> r[i] != r[j]
  {
    if s == [] then []
    else
      var d := Distinct(s[..|s| - 1]);
      if s[|s| - 1] in d then d else d + [s[|s| - 1]]
  }

  /** No value occurs twice. */
  predicate Unique<T(==)>(s: seq<T>) {
    forall i, j :: 0 <= i < j < |s| ==> s[i] != s[j]
  }

  /** The prefix one element longer, and its multiset. */
  lemma PrefixStep<T>(s: seq<T>, i: nat)
    requires i < |s|
    ensures s[..i + 1] == s[..i] + [s[i]]
    ensures multiset(s[..i + 1]) == multiset(s[..i]) + multiset{s[i]}
  {
    assert s[..i + 1] == s[..i] + [s[i]];
  }

  /** Appending a new value keeps a sequence free of repetitions. */
  lemma UniqueAppend<T>(s: seq<T>, x: T)
    requires Unique(s) && x !in s
    ensures Unique(s + [x])
  {
    forall i, j | 0 <= i < j < |s| + 1
      ensures (s + [x])[i] != (s + [x])[j]
    {
      if j == |s| {
        assert (s + [x])[i] == s[i];
      }
    }
  }

  /** A sequence without repetitions holds each value at most once. */
  lemma {:induction false} UniqueCount<T>(s: seq<T>, x: T)
    requires Unique(s)
    ensures multiset(s)[x] <= 1
  {
    if s != [] {
      var init, last := s[..|s| - 1], s[|s| - 1];
      assert s == init + [last];
      UniqueCount(init, x);
    }
  }

  /** A rearrangement of a sequence without repetitions has none either. */
  lemma UniquePermutation<T>(s: seq<T>, t: seq<T>)
    requires Unique(s) && multiset(s) == multiset(t)
    ensures Unique(t)
  {
    forall i, j | 0 <= i < j < |t|
      ensures t[i] != t[j]
    {
      if t[i] == t[j] {
        var x := t[j];
        assert t == t[..j] + [x] + t[j + 1..];
        assert x in multiset(t[..j]) by {
          assert t[..j][i] == x;
        }
        assert multiset(t)[x] >= 2;
        UniqueCount(s, x);
        assert false;
      }
    }
  }

  /** The index of the first element that satisfies `p`, if any. */
  function FirstIndex<T>(s: seq<T>, p: T -> bool): (r: Option<nat>)
    ensures r.None? <==> forall i :: 0 <= i < |s| ==> !p(s[i])
    ensures r.Some? ==> r.value < |s| && p(s[r.value]) && forall j :: 0 <= j < r.value ==> !p(s[j])
  {
    if s == [] then None
    else if p(s[0]) then Some(0)
    else
      match FirstIndex(s[1..], p)
      case None => None
      case Some(k) => Some(k + 1)
  }

  /** `s.find(p)`: the first element that satisfies `p`, or `None` (`undefined`) when none does. */
  function Find<T>(s: seq<T>, p: T -> bool): (r: Option<T>)
    ensures r.None? <==> forall i :: 0 <= i < |s| ==> !p(s[i])
    ensures r.Some? ==> exists i :: 0 <= i < |s| && s[i] == r.value && p(s[i]) && forall j :: 0 <= j < i ==> !p(s[j])
  {
    match FirstIndex(s, p)
    case None => None
    case Some(i) => Some(s[i])
  }
}
