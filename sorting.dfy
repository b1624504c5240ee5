/**
 * The in-place `Array.prototype.sort` the role details page applies to its selected
 * permissions (app/routes/maintenance/roles/roleDetails.tsx). The comparator there is
 * `localeCompare`; here names are compared code point by code point, shorter prefix first.
 */
module Sorting {

  /** `a` sorts before or together with `b`: lexicographic order on code points. */
  predicate LessEq(a: string, b: string) {
    a == [] || (b != [] && (a[0] < b[0] || (a[0] == b[0] && LessEq(a[1..], b[1..]))))
  }

  lemma {:induction false} LessEqTotal(a: string, b: string)
    ensures LessEq(a, b) || LessEq(b, a)
  {
    if a != [] && b != [] && a[0] == b[0] {
      LessEqTotal(a[1..], b[1..]);
    }
  }

  lemma {:induction false} LessEqTransitive(a: string, b: string, c: string)
    requires LessEq(a, b) && LessEq(b, c)
    ensures LessEq(a, c)
  {
    if a != [] && b != [] && c != [] && a[0] == b[0] && b[0] == c[0] {
      LessEqTransitive(a[1..], b[1..], c[1..]);
    }
  }

  lemma {:induction false} LessEqAntisymmetric(a: string, b: string)
    requires LessEq(a, b) && LessEq(b, a)
    ensures a == b
  {
    if a != [] && b != [] {
      LessEqAntisymmetric(a[1..], b[1..]);
      assert a == [a[0]] + a[1..] && b == [b[0]] + b[1..];
    }
  }

  predicate Sorted(s: seq<string>) {
    forall i, j :: 0 <= i < j < |s| ==> LessEq(s[i], s[j])
  }

  /** A name that sorts before every name of a sorted list can be put in front of it. */
  lemma SortedCons(x: string, s: seq<string>)
    requires Sorted(s)
    requires forall j :: 0 <= j < |s| ==> LessEq(x, s[j])
    ensures Sorted([x] + s)
  {
    forall i, j | 0 <= i < j < |[x] + s| ensures LessEq(([x] + s)[i], ([x] + s)[j]) {
      assert ([x] + s)[j] == s[j - 1];
      if i > 0 {
        assert ([x] + s)[i] == s[i - 1];
      }
    }
  }

  /** The head of a sorted list sorts before everything else in it. */
  lemma HeadFirst(s: seq<string>, y: string)
    requires Sorted(s) && s != [] && y in multiset(s[1..])
    ensures LessEq(s[0], y)
  {
    var k :| 0 <= k < |s[1..]| && s[1..][k] == y;
    assert s[k + 1] == y;
  }

  /** `x` goes in front of a sorted list whose head it sorts before. */
  lemma InsertInFront(x: string, s: seq<string>)
    requires Sorted(s) && s != [] && LessEq(x, s[0])
    ensures Sorted([x] + s)
  {
    forall j | 0 < j < |s| ensures LessEq(x, s[j]) {
      LessEqTransitive(x, s[0], s[j]);
    }
    SortedCons(x, s);
  }

  /** `x` inserted behind the head of a sorted list that it does not sort before. */
  lemma InsertBehind(x: string, s: seq<string>, rest: seq<string>)
    requires Sorted(s) && s != [] && !LessEq(x, s[0])
    requires Sorted(rest) && multiset(rest) == multiset(s[1..]) + multiset{x}
    ensures Sorted([s[0]] + rest)
    ensures multiset([s[0]] + rest) == multiset(s) + multiset{x}
  {
    LessEqTotal(x, s[0]);
    forall j | 0 <= j < |rest| ensures LessEq(s[0], rest[j]) {
      assert rest[j] in multiset(rest);
      if rest[j] != x {
        HeadFirst(s, rest[j]);
      }
    }
    SortedCons(s[0], rest);
    assert s == [s[0]] + s[1..];
  }

  /** `x` placed into the sorted `s` before the first name it sorts before. */
  function Insert(x: string, s: seq<string>): (r: seq<string>)
    requires Sorted(s)
    ensures Sorted(r)
    ensures multiset(r) == multiset(s) + multiset{x}
  {
    if s == [] then [x]
    else if LessEq(x, s[0]) then
      InsertInFront(x, s);
      [x] + s
    else
      var rest := Insert(x, s[1..]);
      InsertBehind(x, s, rest);
      [s[0]] + rest
  }

  /** The sorted order of `s`, built by insertion. */
  function SortedSeq(s: seq<string>): (r: seq<string>)
    ensures Sorted(r)
    ensures multiset(r) == multiset(s)
  {
    if s == [] then []
    else
      assert s == [s[0]] + s[1..];
      Insert(s[0], SortedSeq(s[1..]))
  }

  /**
   * The inner loop's invariant: `s[..hi + 1]` is in order except that the name at `j`, which
   * is moving down, may sort before the names in front of it.
   */
  predicate SortedExcept(s: seq<string>, hi: int, j: int)
    requires hi < |s|
  {
    forall m, n :: 0 <= m < n <= hi && n != j ==> LessEq(s[m], s[n])
  }

  /** Swapping the moving name with the one in front of it, which it sorts before. */
  lemma SwapStep(s: seq<string>, hi: int, j: int)
    requires 0 < j <= hi < |s| && SortedExcept(s, hi, j) && !LessEq(s[j - 1], s[j])
    ensures SortedExcept(s[j - 1 := s[j]][j := s[j - 1]], hi, j - 1)
    ensures multiset(s[j - 1 := s[j]][j := s[j - 1]]) == multiset(s)
  {
    LessEqTotal(s[j - 1], s[j]);
  }

  /** Before the name at `hi` moves, everything in front of it is in order. */
  lemma StartInsert(s: seq<string>, hi: int)
    requires 0 <= hi < |s| && Sorted(s[..hi])
    ensures SortedExcept(s, hi, hi)
  {
    assert forall m :: 0 <= m < hi ==> s[..hi][m] == s[m];
  }

  /** Once the moving name has stopped, `s[..hi + 1]` is sorted. */
  lemma InsertDone(s: seq<string>, hi: int, j: int)
    requires 0 <= j <= hi < |s| && SortedExcept(s, hi, j)
    requires j > 0 ==> LessEq(s[j - 1], s[j])
    ensures Sorted(s[..hi + 1])
  {
    forall m | 0 <= m < j ensures LessEq(s[m], s[j]) {
      if m < j - 1 {
        LessEqTransitive(s[m], s[j - 1], s[j]);
      }
    }
  }

  /** Insertion sort by adjacent swaps, as a stable sort leaves equal names. */
  method Sort(a: array<string>)
    modifies a
    ensures Sorted(a[..])
    ensures multiset(a[..]) == multiset(old(a[..]))
    ensures a[..] == SortedSeq(old(a[..]))
  {
    if a.Length == 0 {
      return;
    }
    var i := 1;
    while i < a.Length
      invariant 1 <= i <= a.Length
      invariant Sorted(a[..i])
      invariant multiset(a[..]) == multiset(old(a[..]))
    {
      var j := i;
      StartInsert(a[..], i);
      while j > 0 && !LessEq(a[j - 1], a[j])
        invariant 0 <= j <= i
        invariant SortedExcept(a[..], i, j)
        invariant multiset(a[..]) == multiset(old(a[..]))
      {
        ghost var s := a[..];
        SwapStep(s, i, j);
        a[j - 1], a[j] := a[j], a[j - 1];
        assert a[..] == s[j - 1 := s[j]][j := s[j - 1]];
        j := j - 1;
      }
      InsertDone(a[..], i, j);
      assert a[..][..i + 1] == a[..i + 1];
      i := i + 1;
    }
    assert a[..] == a[..a.Length];
    SortedUnique(a[..], SortedSeq(old(a[..])));
  }

  /** Two sorted lists with the same names start with the same name. */
  lemma SameHead(s: seq<string>, t: seq<string>)
    requires Sorted(s) && Sorted(t) && multiset(s) == multiset(t) && s != []
    ensures t != [] && s[0] == t[0]
  {
    assert s[0] in multiset(t);
    assert t != [];
    assert t[0] in multiset(s);
    var k :| 0 <= k < |t| && t[k] == s[0];
    var l :| 0 <= l < |s| && s[l] == t[0];
    if k != 0 && l != 0 {
      LessEqAntisymmetric(s[0], t[0]);
    }
  }

  /** The rest of a sorted list is sorted, and holds its names but the head. */
  lemma Tail(s: seq<string>)
    requires Sorted(s) && s != []
    ensures Sorted(s[1..])
    ensures multiset(s[1..]) == multiset(s) - multiset{s[0]}
  {
    assert s == [s[0]] + s[1..];
    assert forall i :: 0 <= i < |s| - 1 ==> s[1..][i] == s[i + 1];
  }

  /** There is one sorted order of a collection of names. */
  lemma {:induction false} SortedUnique(s: seq<string>, t: seq<string>)
    requires Sorted(s) && Sorted(t) && multiset(s) == multiset(t)
    ensures s == t
    decreases |s|
  {
    if s == [] {
      assert |t| == |multiset(t)| == 0;
    } else {
      SameHead(s, t);
      Tail(s);
      Tail(t);
      SortedUnique(s[1..], t[1..]);
      assert s == [s[0]] + s[1..] && t == [t[0]] + t[1..];
    }
  }
}
