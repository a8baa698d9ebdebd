/**
 Ranking by a strict total order, the common core of every placement decision:
 shard holders, alert recipients and probe candidates are all "the first k of a
 sorted list".  `Top` says which elements those are without mentioning a list.
 */
module Ranking {

  ghost predicate StrictTotal<T(!new)>(before: (T, T) -> bool) {
    && (forall x :: !before(x, x))
    && (forall x, y :: x != y ==> (before(x, y) <==> !before(y, x)))
    && (forall x, y, z :: before(x, y) && before(y, z) ==> before(x, z))
  }

  ghost function Ahead<T(!new)>(before: (T, T) -> bool, S: set<T>, x: T): set<T> {
    set y | y in S && before(y, x)
  }

  /** The elements with fewer than `k` others ahead of them. */
  ghost function Top<T(!new)>(before: (T, T) -> bool, S: set<T>, k: int): set<T> {
    set x | x in S && |Ahead(before, S, x)| < k
  }

  ghost function Min(a: int, b: int): int {
    if a <= b then a else b
  }

  lemma SubsetSize<T>(A: set<T>, B: set<T>)
    requires A <= B
    ensures |A| <= |B|
    ensures |A| == |B| ==> A == B
  {
    assert B == A + (B - A);
    assert A !! B - A;
    assert |B| == |A| + |B - A|;
    if |A| == |B| {
      assert B - A == {};
    }
  }

  /** A non-empty finite set has an element no other is ahead of. */
  lemma {:induction false} HasFirst<T(!new)>(before: (T, T) -> bool, S: set<T>) returns (m: T)
    requires StrictTotal(before) && S != {}
    ensures m in S
    ensures forall y :: y in S && y != m ==> before(m, y)
    decreases |S|
  {
    var x :| x in S;
    if S == {x} {
      return x;
    }
    var m' := HasFirst(before, S - {x});
    m := if before(x, m') then x else m';
  }

  lemma {:induction false} TopWithoutFirst<T(!new)>(before: (T, T) -> bool, S: set<T>, k: int, m: T)
    requires StrictTotal(before) && m in S && k >= 1
    requires forall y :: y in S && y != m ==> before(m, y)
    ensures Top(before, S, k) == {m} + Top(before, S - {m}, k - 1)
  {
    assert Ahead(before, S, m) == {};
    forall x | x in S && x != m
      ensures |Ahead(before, S, x)| == |Ahead(before, S - {m}, x)| + 1
    {
      assert Ahead(before, S, x) == Ahead(before, S - {m}, x) + {m};
    }
  }

  /** Taking the first element out takes one element out of the top k. */
  lemma SplitFirst<T(!new)>(before: (T, T) -> bool, S: set<T>, k: int) returns (rest: set<T>)
    requires StrictTotal(before) && S != {} && k >= 1
    ensures |S| == |rest| + 1 && |Top(before, S, k)| == |Top(before, rest, k - 1)| + 1
  {
    var m := HasFirst(before, S);
    rest := S - {m};
    TopWithoutFirst(before, S, k, m);
    assert Top(before, S, k) - {m} == Top(before, rest, k - 1);
  }

  /** Exactly min(k, |S|) elements are in the top k. */
  lemma {:induction false} TopSize<T(!new)>(before: (T, T) -> bool, S: set<T>, k: int)
    requires StrictTotal(before) && k >= 0
    ensures |Top(before, S, k)| == Min(k, |S|)
    decreases k
  {
    if k == 0 || S == {} {
      assert Top(before, S, k) == {};
    } else {
      var rest := SplitFirst(before, S, k);
      TopSize(before, rest, k - 1);
    }
  }

  /** Fewer competitors can only help: what is in the top k of S stays there in any subset. */
  lemma TopOfSubset<T(!new)>(before: (T, T) -> bool, A: set<T>, S: set<T>, k: int)
    requires A <= S
    ensures Top(before, S, k) * A <= Top(before, A, k)
  {
    forall x | x in Top(before, S, k) * A
      ensures x in Top(before, A, k)
    {
      SubsetSize(Ahead(before, A, x), Ahead(before, S, x));
    }
  }

  /** Distinct elements have distinct ranks. */
  lemma RankInjective<T(!new)>(before: (T, T) -> bool, S: set<T>, x: T, y: T)
    requires StrictTotal(before) && x in S && y in S && before(x, y)
    ensures |Ahead(before, S, x)| < |Ahead(before, S, y)|
  {
    assert Ahead(before, S, x) + {x} <= Ahead(before, S, y);
    assert x !in Ahead(before, S, x);
    SubsetSize(Ahead(before, S, x) + {x}, Ahead(before, S, y));
  }

  /**
   Removing one competitor keeps every other member of the top k, admits at most one
   newcomer, and admits none unless the removed element was itself in the top k.
   */
  lemma TopAfterRemoval<T(!new)>(before: (T, T) -> bool, S: set<T>, k: int, g: T)
    requires StrictTotal(before) && g in S
    ensures Top(before, S, k) - {g} <= Top(before, S - {g}, k)
    ensures |Top(before, S - {g}, k) - Top(before, S, k)| <= 1
    ensures g !in Top(before, S, k) ==> Top(before, S - {g}, k) == Top(before, S, k)
  {
    TopOfSubset(before, S - {g}, S, k);
    var newcomers := Top(before, S - {g}, k) - Top(before, S, k);
    forall x | x in newcomers
      ensures before(g, x) && |Ahead(before, S, x)| == k
    {
      assert Ahead(before, S, x) == Ahead(before, S - {g}, x) + if before(g, x) then {g} else {};
    }
    if x, y :| x in newcomers && y in newcomers && x != y {
      if before(x, y) { RankInjective(before, S, x, y); } else { RankInjective(before, S, y, x); }
    }
    if newcomers != {} {
      var x :| x in newcomers;
      assert newcomers == {x};
      RankInjective(before, S, g, x);
    }
  }

  /** Elements of a list, as a set. */
  ghost function Elements<T(!new)>(s: seq<T>): set<T> {
    set x | x in s
  }

  ghost predicate Distinct<T(!new)>(s: seq<T>) {
    forall i, j :: 0 <= i < j < |s| ==> s[i] != s[j]
  }

  ghost predicate Ordered<T(!new)>(before: (T, T) -> bool, s: seq<T>) {
    forall i, j :: 0 <= i < j < |s| ==> before(s[i], s[j])
  }

  lemma {:induction false} DistinctSize<T(!new)>(s: seq<T>)
    requires Distinct(s)
    ensures |Elements(s)| == |s|
  {
    if s == [] {
    } else {
      DistinctSize(s[..|s| - 1]);
      assert Elements(s) == Elements(s[..|s| - 1]) + {s[|s| - 1]};
      assert s[|s| - 1] !in Elements(s[..|s| - 1]);
    }
  }

  lemma DistinctConcat<T(!new)>(a: seq<T>, b: seq<T>)
    requires Distinct(a) && Distinct(b) && Elements(a) !! Elements(b)
    ensures Distinct(a + b)
    ensures Elements(a + b) == Elements(a) + Elements(b)
  {
    forall i, j | 0 <= i < j < |a + b|
      ensures (a + b)[i] != (a + b)[j]
    {
      if i < |a| <= j {
        assert a[i] in Elements(a) && b[j - |a|] in Elements(b);
      }
    }
  }

  /** The first k of an ordered list are its top k. */
  lemma TopOfOrdered<T(!new)>(before: (T, T) -> bool, s: seq<T>, k: int)
    requires StrictTotal(before) && Ordered(before, s)
    requires 0 <= k <= |s|
    ensures Top(before, Elements(s), k) == Elements(s[..k])
  {
    forall i | 0 <= i < |s|
      ensures |Ahead(before, Elements(s), s[i])| == i
    {
      assert Ahead(before, Elements(s), s[i]) == Elements(s[..i]);
      assert Distinct(s[..i]);
      DistinctSize(s[..i]);
    }
    forall x | x in Top(before, Elements(s), k)
      ensures x in Elements(s[..k])
    {
      var i :| 0 <= i < |s| && s[i] == x;
      assert i < k && s[..k][i] == x;
    }
  }

  /** ... and there are no more than the list has. */
  lemma TopOfOrderedCapped<T(!new)>(before: (T, T) -> bool, s: seq<T>, k: nat)
    requires StrictTotal(before) && Ordered(before, s)
    ensures Top(before, Elements(s), k) == Elements(s[..Min(k, |s|)])
  {
    TopOfOrdered(before, s, Min(k, |s|));
    if k > |s| {
      TopOfOrdered(before, s, |s|);
      forall x | x in Elements(s)
        ensures |Ahead(before, Elements(s), x)| < k
      {
        assert x in Elements(s[..|s|]);
      }
    }
  }

  /** An ordered enumeration of a set is unique, so a sort by a total order is order-free. */
  lemma {:induction false} OrderedUnique<T(!new)>(before: (T, T) -> bool, a: seq<T>, b: seq<T>)
    requires StrictTotal(before) && Ordered(before, a) && Ordered(before, b)
    requires Elements(a) == Elements(b)
    ensures a == b
  {
    DistinctSize(a);
    DistinctSize(b);
    if a != [] {
      assert a[0] in Elements(a) && b[0] in Elements(b);
      assert a[0] == b[0];
      assert Elements(a[1..]) == Elements(a) - {a[0]};
      assert Elements(b[1..]) == Elements(b) - {b[0]};
      OrderedUnique(before, a[1..], b[1..]);
    }
  }
}

/** A model of `sort.Slice`: any comparator that is a strict weak order. */
module Sorting {
  import opened Ranking

  ghost predicate StrictWeak<T(!new)>(less: (T, T) -> bool) {
    && (forall x, y :: less(x, y) ==> !less(y, x))
    && (forall x, y, z :: !less(y, x) && !less(z, y) ==> !less(z, x))
  }

  /** No element is strictly before one that precedes it. */
  ghost predicate Sorted<T(!new)>(less: (T, T) -> bool, s: seq<T>) {
    forall i, j :: 0 <= i < j < |s| ==> !less(s[j], s[i])
  }

  method Sort<T(!new)>(s: seq<T>, less: (T, T) -> bool) returns (r: seq<T>)
    requires StrictWeak(less)
    ensures multiset(r) == multiset(s)
    ensures Sorted(less, r)
  {
    r := [];
    for i := 0 to |s|
      invariant multiset(r) == multiset(s[..i])
      invariant Sorted(less, r)
    {
      r := Insert(r, s[i], less);
      assert s[..i + 1] == s[..i] + [s[i]];
    }
    assert s[..|s|] == s;
  }

  method Insert<T(!new)>(s: seq<T>, x: T, less: (T, T) -> bool) returns (r: seq<T>)
    requires StrictWeak(less) && Sorted(less, s)
    ensures multiset(r) == multiset(s + [x])
    ensures Sorted(less, r)
  {
    var i := |s|;
    while i > 0 && less(x, s[i - 1])
      invariant 0 <= i <= |s|
      invariant forall j :: i <= j < |s| ==> less(x, s[j])
    {
      i := i - 1;
    }
    r := s[..i] + [x] + s[i..];
    InsertedElements(s, x, i);
    InsertSorted(s, x, i, less);
  }

  lemma InsertedElements<T(!new)>(s: seq<T>, x: T, i: nat)
    requires i <= |s|
    ensures multiset(s[..i] + [x] + s[i..]) == multiset(s + [x])
  {
    assert s == s[..i] + s[i..];
  }

  lemma InsertSorted<T(!new)>(s: seq<T>, x: T, i: nat, less: (T, T) -> bool)
    requires StrictWeak(less) && Sorted(less, s) && i <= |s|
    requires i > 0 ==> !less(x, s[i - 1])
    requires forall j :: i <= j < |s| ==> less(x, s[j])
    ensures Sorted(less, s[..i] + [x] + s[i..])
  {
    var r := s[..i] + [x] + s[i..];
    forall a, b | 0 <= a < b < |r|
      ensures !less(r[b], r[a])
    {
      if b == i {
        assert !less(s[i - 1], s[a]);
      }
    }
  }

  lemma SameElements<T(!new)>(r: seq<T>, s: seq<T>)
    requires multiset(r) == multiset(s)
    ensures Elements(r) == Elements(s) && |r| == |s|
    ensures Distinct(s) ==> Distinct(r)
  {
    forall x
      ensures x in r <==> x in s
    {
      assert x in r <==> x in multiset(r);
      assert x in s <==> x in multiset(s);
    }
    assert |multiset(r)| == |r| && |multiset(s)| == |s|;
    if Distinct(s) && !Distinct(r) {
      var i, j :| 0 <= i < j < |r| && r[i] == r[j];
      Repeated(r, i, j);
      AtMostOnce(s, r[i]);
    }
  }

  lemma Repeated<T(!new)>(r: seq<T>, i: int, j: int)
    requires 0 <= i < j < |r| && r[i] == r[j]
    ensures multiset(r)[r[i]] >= 2
  {
    assert r == r[..j] + [r[j]] + r[j + 1..];
    assert r[..j] == r[..i] + [r[i]] + r[i + 1..j];
  }

  lemma {:induction false} AtMostOnce<T(!new)>(s: seq<T>, x: T)
    requires Distinct(s)
    ensures multiset(s)[x] <= 1
  {
    if s == [] {
    } else {
      assert s == s[..|s| - 1] + [s[|s| - 1]];
      AtMostOnce(s[..|s| - 1], x);
      if s[|s| - 1] == x {
        assert x !in s[..|s| - 1];
        assert multiset(s[..|s| - 1])[x] == 0;
      }
    }
  }

  /** Sorting distinct elements by a total order gives an `Ordered` enumeration of them. */
  lemma SortedIsOrdered<T(!new)>(before: (T, T) -> bool, s: seq<T>, r: seq<T>)
    requires StrictTotal(before) && Distinct(s)
    requires multiset(r) == multiset(s) && Sorted(before, r)
    ensures Ordered(before, r) && Elements(r) == Elements(s) && |r| == |s|
  {
    SameElements(r, s);
  }

  lemma StrictTotalIsWeak<T(!new)>(before: (T, T) -> bool)
    requires StrictTotal(before)
    ensures StrictWeak(before)
  {
    forall x, y, z | !before(y, x) && !before(z, y)
      ensures !before(z, x)
    {
      if x != y && y != z && x != z { }
    }
  }
}
