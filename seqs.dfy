/** Order-preserving sub-lists and the `Array.prototype.filter` that produces them. */
module Seqs {

  /** `xs` can be obtained from `ys` by deleting elements, keeping the rest in order. */
  predicate IsSublist<T(==,!new)>(xs: seq<T>, ys: seq<T>)
    decreases |ys|
  {
    xs == [] || (ys != [] && ((xs[0] == ys[0] && IsSublist(xs[1..], ys[1..])) || IsSublist(xs, ys[1..])))
  }

  /** The elements that satisfy `keep`, in order. */
  function Filter<T(==,!new)>(xs: seq<T>, keep: T -> bool): (r: seq<T>)
    ensures IsSublist(r, xs)
    ensures forall x :: x in r <==> x in xs && keep(x)
  {
    if xs == [] then []
    else if keep(xs[0]) then [xs[0]] + Filter(xs[1..], keep)
    else Filter(xs[1..], keep)
  }

  /** A filter keeps every occurrence of a kept element and none of the others. */
  lemma {:induction false} FilterCount<T(!new)>(xs: seq<T>, keep: T -> bool)
    ensures forall x :: multiset(Filter(xs, keep))[x] == if keep(x) then multiset(xs)[x] else 0
  {
    if xs != [] {
      FilterCount(xs[1..], keep);
      assert xs == [xs[0]] + xs[1..];
    }
  }

  /** The first element a filter keeps is the first element of the list that passes. */
  lemma {:induction false} FilterFirst<T(!new)>(xs: seq<T>, keep: T -> bool)
    requires Filter(xs, keep) != []
    ensures exists j :: 0 <= j < |xs| && keep(xs[j]) && Filter(xs, keep)[0] == xs[j]
                        && forall k :: 0 <= k < j ==> !keep(xs[k])
  {
    if !keep(xs[0]) {
      var ys := xs[1..];
      FilterFirst(ys, keep);
      var j :| 0 <= j < |ys| && keep(ys[j]) && Filter(ys, keep)[0] == ys[j]
               && forall k :: 0 <= k < j ==> !keep(ys[k]);
      forall k | 0 <= k < j + 1 ensures !keep(xs[k]) {
        if k > 0 {
          assert xs[k] == ys[k - 1];
        }
      }
      assert xs[j + 1] == ys[j];
    }
  }

  /** A filter that keeps every element returns the list unchanged. */
  lemma {:induction false} FilterAll<T(!new)>(xs: seq<T>, keep: T -> bool)
    requires forall x :: x in xs ==> keep(x)
    ensures Filter(xs, keep) == xs
  {
    if xs != [] {
      FilterAll(xs[1..], keep);
      assert [xs[0]] + xs[1..] == xs;
    }
  }

  /** A filter that keeps nothing returns the empty list. */
  lemma {:induction false} FilterNone<T(!new)>(xs: seq<T>, keep: T -> bool)
    requires forall x :: x in xs ==> !keep(x)
    ensures Filter(xs, keep) == []
  {
    if xs != [] {
      FilterNone(xs[1..], keep);
    }
  }

  /** Filtering distributes over concatenation. */
  lemma {:induction false} FilterAppend<T(!new)>(xs: seq<T>, ys: seq<T>, keep: T -> bool)
    ensures Filter(xs + ys, keep) == Filter(xs, keep) + Filter(ys, keep)
  {
    if xs == [] {
      assert xs + ys == ys;
    } else {
      assert (xs + ys)[0] == xs[0] && (xs + ys)[1..] == xs[1..] + ys;
      FilterAppend(xs[1..], ys, keep);
      if keep(xs[0]) {
        assert [xs[0]] + (Filter(xs[1..], keep) + Filter(ys, keep))
            == ([xs[0]] + Filter(xs[1..], keep)) + Filter(ys, keep);
      }
    }
  }

  /** Two successive filters are one filter by the conjunction, in either order. */
  lemma {:induction false} FilterFilter<T(!new)>(xs: seq<T>, p: T -> bool, q: T -> bool, both: T -> bool)
    requires forall x :: both(x) == (p(x) && q(x))
    ensures Filter(Filter(xs, p), q) == Filter(xs, both)
  {
    if xs != [] {
      FilterFilter(xs[1..], p, q, both);
    }
  }

  predicate NoDuplicates<T(==,!new)>(xs: seq<T>) {
    forall i, j :: 0 <= i < j < |xs| ==> xs[i] != xs[j]
  }

  /** A sub-list of a duplicate-free list is duplicate-free. */
  lemma {:induction false} SublistNoDuplicates<T(!new)>(xs: seq<T>, ys: seq<T>)
    requires IsSublist(xs, ys) && NoDuplicates(ys)
    ensures NoDuplicates(xs)
  {
    if xs != [] && ys != [] {
      if xs[0] == ys[0] && IsSublist(xs[1..], ys[1..]) {
        SublistNoDuplicates(xs[1..], ys[1..]);
        SublistMembers(xs[1..], ys[1..]);
        forall j | 0 < j < |xs| ensures xs[0] != xs[j] {
          assert xs[j] == xs[1..][j - 1];
          assert xs[1..][j - 1] in xs[1..];
          assert xs[j] in ys[1..];
          var k :| 0 <= k < |ys[1..]| && ys[1..][k] == xs[j];
          assert ys[k + 1] == xs[j];
        }
      } else {
        SublistNoDuplicates(xs, ys[1..]);
      }
    }
  }

  /** Every element of a sub-list is an element of the list. */
  lemma {:induction false} SublistMembers<T(!new)>(xs: seq<T>, ys: seq<T>)
    requires IsSublist(xs, ys)
    ensures forall x :: x in xs ==> x in ys
  {
    if xs != [] && ys != [] {
      if xs[0] == ys[0] && IsSublist(xs[1..], ys[1..]) {
        SublistMembers(xs[1..], ys[1..]);
        assert forall x :: x in xs ==> x == xs[0] || x in xs[1..];
      } else {
        SublistMembers(xs, ys[1..]);
      }
    }
  }

  /** A sub-list is no longer than the list it is taken from. */
  lemma {:induction false} SublistLength<T(!new)>(xs: seq<T>, ys: seq<T>)
    requires IsSublist(xs, ys)
    ensures |xs| <= |ys|
    decreases |ys|
  {
    if xs != [] {
      if xs[0] == ys[0] && IsSublist(xs[1..], ys[1..]) {
        SublistLength(xs[1..], ys[1..]);
      } else {
        SublistLength(xs, ys[1..]);
      }
    }
  }
}
