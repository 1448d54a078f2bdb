/**
 Stable sorting by a JavaScript comparator: `cmp(a, b)` is negative, zero or positive.
 `Array.prototype.sort` is stable, so for a consistent comparator its result is the one
 computed here; for an inconsistent one it is still some permutation.
 */
module Sorting {

  /** The comparator orders by sign: antisymmetric and transitive. */
  ghost predicate Consistent<T(!new)>(cmp: (T, T) -> int) {
    Antisymmetric(cmp) && Transitive(cmp)
  }

  ghost predicate Antisymmetric<T(!new)>(cmp: (T, T) -> int) {
    forall a, b :: cmp(a, b) <= 0 <==> 0 <= cmp(b, a)
  }

  ghost predicate Transitive<T(!new)>(cmp: (T, T) -> int) {
    forall a, b, c :: cmp(a, b) <= 0 && cmp(b, c) <= 0 ==> cmp(a, c) <= 0
  }

  /** Only a value itself compares as equal to it. */
  ghost predicate Separates<T(!new)>(cmp: (T, T) -> int) {
    forall a, b :: a != b ==> cmp(a, b) != 0
  }

  ghost predicate Sorted<T>(xs: seq<T>, cmp: (T, T) -> int) {
    forall i, j :: 0 <= i < j < |xs| ==> cmp(xs[i], xs[j]) <= 0
  }

  ghost predicate StrictlySorted<T>(xs: seq<T>, cmp: (T, T) -> int) {
    forall i, j :: 0 <= i < j < |xs| ==> cmp(xs[i], xs[j]) < 0
  }

  /** Insert after every element that does not compare as greater. */
  function Insert<T>(xs: seq<T>, x: T, cmp: (T, T) -> int): (ys: seq<T>)
    ensures |ys| == |xs| + 1
    ensures multiset(ys) == multiset(xs) + multiset{x}
  {
    if xs == [] then [x]
    else
      var last := xs[|xs| - 1];
      assert xs == xs[..|xs| - 1] + [last];
      if cmp(last, x) <= 0 then xs + [x]
      else Insert(xs[..|xs| - 1], x, cmp) + [last]
  }

  function Sort<T>(xs: seq<T>, cmp: (T, T) -> int): (ys: seq<T>)
    ensures |ys| == |xs|
    ensures multiset(ys) == multiset(xs)
  {
    if xs == [] then []
    else
      assert xs == xs[..|xs| - 1] + [xs[|xs| - 1]];
      Insert(Sort(xs[..|xs| - 1], cmp), xs[|xs| - 1], cmp)
  }

  /** Sorting neither drops nor invents elements. */
  lemma SortMembers<T>(xs: seq<T>, cmp: (T, T) -> int)
    ensures forall x :: x in Sort(xs, cmp) <==> x in xs
  {
    var ys := Sort(xs, cmp);
    forall x ensures x in ys <==> x in xs {
      assert x in multiset(ys) <==> x in multiset(xs);
    }
  }

  lemma {:induction false} InsertSorted<T(!new)>(xs: seq<T>, x: T, cmp: (T, T) -> int)
    requires Consistent(cmp) && Sorted(xs, cmp)
    ensures Sorted(Insert(xs, x, cmp), cmp)
  {
    if xs != [] {
      var n := |xs| - 1;
      var last := xs[n];
      if cmp(last, x) <= 0 {
        AppendSorted(xs, x, cmp);
      } else {
        InsertSorted(xs[..n], x, cmp);
        var front := Insert(xs[..n], x, cmp);
        InsertBelow(xs, x, cmp, front);
        SnocSorted(front, last, cmp);
      }
    }
  }

  lemma SnocSorted<T>(front: seq<T>, last: T, cmp: (T, T) -> int)
    requires Sorted(front, cmp)
    requires forall y :: y in front ==> cmp(y, last) <= 0
    ensures Sorted(front + [last], cmp)
  {
  }

  lemma AppendSorted<T(!new)>(xs: seq<T>, x: T, cmp: (T, T) -> int)
    requires Transitive(cmp) && Sorted(xs, cmp) && xs != [] && cmp(xs[|xs| - 1], x) <= 0
    ensures Sorted(xs + [x], cmp)
  {
    forall y | y in xs ensures cmp(y, x) <= 0 {
      var i :| 0 <= i < |xs| && xs[i] == y;
      assert i < |xs| - 1 ==> cmp(xs[i], xs[|xs| - 1]) <= 0;
    }
    SnocSorted(xs, x, cmp);
  }

  /** Everything before a last element greater than `x` stays at most that last element. */
  lemma InsertBelow<T(!new)>(xs: seq<T>, x: T, cmp: (T, T) -> int, front: seq<T>)
    requires Antisymmetric(cmp) && Sorted(xs, cmp) && xs != [] && cmp(xs[|xs| - 1], x) > 0
    requires front == Insert(xs[..|xs| - 1], x, cmp)
    ensures forall y :: y in front ==> cmp(y, xs[|xs| - 1]) <= 0
  {
    var n := |xs| - 1;
    assert cmp(x, xs[n]) <= 0;
    forall y | y in front ensures cmp(y, xs[n]) <= 0 {
      assert y in multiset(front);
      if y != x {
        assert y in multiset(xs[..n]);
        assert y in xs[..n];
        var i :| 0 <= i < n && xs[i] == y;
      }
    }
  }

  /** With a consistent comparator the result is ordered. */
  lemma {:induction false} SortSorted<T(!new)>(xs: seq<T>, cmp: (T, T) -> int)
    requires Consistent(cmp)
    ensures Sorted(Sort(xs, cmp), cmp)
  {
    if xs != [] {
      SortSorted(xs[..|xs| - 1], cmp);
      InsertSorted(Sort(xs[..|xs| - 1], cmp), xs[|xs| - 1], cmp);
    }
  }

  /** No two elements tie. */
  ghost predicate Apart<T>(xs: seq<T>, cmp: (T, T) -> int) {
    forall i, j :: 0 <= i < j < |xs| ==> cmp(xs[i], xs[j]) != 0
  }

  lemma {:induction false} InsertStrict<T(!new)>(xs: seq<T>, x: T, cmp: (T, T) -> int)
    requires Consistent(cmp) && StrictlySorted(xs, cmp)
    requires forall y :: y in xs ==> cmp(y, x) != 0
    ensures StrictlySorted(Insert(xs, x, cmp), cmp)
  {
    if xs != [] {
      var n := |xs| - 1;
      var last := xs[n];
      assert last in xs;
      if cmp(last, x) <= 0 {
        LastBelow(xs, x, cmp);
        SnocStrict(xs, x, cmp);
      } else {
        var front := Insert(xs[..n], x, cmp);
        assert Insert(xs, x, cmp) == front + [last];
        hide Insert, Consistent;
        forall y | y in xs[..n] ensures y in xs {
        }
        assert StrictlySorted(xs[..n], cmp);
        InsertStrict(xs[..n], x, cmp);
        forall y | y in front ensures cmp(y, last) < 0 {
          BelowLast(xs, x, y, cmp);
        }
        SnocStrict(front, last, cmp);
      }
    }
  }

  lemma LastBelow<T(!new)>(xs: seq<T>, x: T, cmp: (T, T) -> int)
    requires Transitive(cmp) && xs != [] && StrictlySorted(xs, cmp) && cmp(xs[|xs| - 1], x) <= 0
    requires forall y :: y in xs ==> cmp(y, x) != 0
    ensures forall y :: y in xs ==> cmp(y, x) < 0
  {
    forall y | y in xs ensures cmp(y, x) < 0 {
      var i :| 0 <= i < |xs| && xs[i] == y;
      assert i < |xs| - 1 ==> cmp(xs[i], xs[|xs| - 1]) < 0;
    }
  }

  lemma BelowLast<T(!new)>(xs: seq<T>, x: T, y: T, cmp: (T, T) -> int)
    requires Antisymmetric(cmp) && xs != [] && StrictlySorted(xs, cmp) && cmp(xs[|xs| - 1], x) > 0
    requires y in Insert(xs[..|xs| - 1], x, cmp)
    ensures cmp(y, xs[|xs| - 1]) < 0
  {
    var n := |xs| - 1;
    assert cmp(x, xs[n]) <= 0 <==> 0 <= cmp(xs[n], x);
    assert cmp(xs[n], x) <= 0 <==> 0 <= cmp(x, xs[n]);
    assert y in multiset(Insert(xs[..n], x, cmp));
    if y != x {
      assert y in multiset(xs[..n]);
      assert y in xs[..n];
      var i :| 0 <= i < n && xs[i] == y;
    }
  }

  lemma SnocStrict<T>(front: seq<T>, last: T, cmp: (T, T) -> int)
    requires StrictlySorted(front, cmp)
    requires forall y :: y in front ==> cmp(y, last) < 0
    ensures StrictlySorted(front + [last], cmp)
  {
  }

  /** Elements of which no two tie come out strictly ordered. */
  lemma {:induction false} SortStrict<T(!new)>(xs: seq<T>, cmp: (T, T) -> int)
    requires Consistent(cmp) && Apart(xs, cmp)
    ensures StrictlySorted(Sort(xs, cmp), cmp)
  {
    if xs != [] {
      var n := |xs| - 1;
      SortStrict(xs[..n], cmp);
      SortMembers(xs[..n], cmp);
      forall y | y in Sort(xs[..n], cmp) ensures cmp(y, xs[n]) != 0 {
        assert y in xs[..n];
        var i :| 0 <= i < n && xs[..n][i] == y;
        assert xs[i] == y;
      }
      InsertStrict(Sort(xs[..n], cmp), xs[n], cmp);
    }
  }

  /** No two elements have the same key. */
  ghost predicate DistinctBy<T, K>(xs: seq<T>, key: T -> K) {
    forall i, j :: 0 <= i < j < |xs| ==> key(xs[i]) != key(xs[j])
  }

  lemma InsertMember<T>(xs: seq<T>, x: T, cmp: (T, T) -> int, y: T)
    requires y in Insert(xs, x, cmp)
    ensures y == x || y in xs
  {
    assert y in multiset(Insert(xs, x, cmp));
    assert y in multiset(xs) + multiset{x};
  }

  lemma SnocDistinct<T, K>(front: seq<T>, last: T, key: T -> K)
    requires DistinctBy(front, key) && forall i :: 0 <= i < |front| ==> key(front[i]) != key(last)
    ensures DistinctBy(front + [last], key)
  {
  }

  lemma {:induction false} InsertDistinct<T, K>(xs: seq<T>, x: T, cmp: (T, T) -> int, key: T -> K)
    requires DistinctBy(xs, key) && forall i :: 0 <= i < |xs| ==> key(xs[i]) != key(x)
    ensures DistinctBy(Insert(xs, x, cmp), key)
  {
    if xs != [] && cmp(xs[|xs| - 1], x) > 0 {
      var n := |xs| - 1;
      var front := Insert(xs[..n], x, cmp);
      InsertDistinct(xs[..n], x, cmp, key);
      forall i | 0 <= i < |front| ensures key(front[i]) != key(xs[n]) {
        InsertMember(xs[..n], x, cmp, front[i]);
        if front[i] != x {
          var k :| 0 <= k < n && xs[..n][k] == front[i];
          assert xs[k] == front[i];
        }
      }
      SnocDistinct(front, xs[n], key);
    } else {
      SnocDistinct(xs, x, key);
    }
  }

  /** Sorting by any comparator keeps keys distinct. */
  lemma {:induction false} SortDistinct<T(!new), K>(xs: seq<T>, cmp: (T, T) -> int, key: T -> K)
    requires DistinctBy(xs, key)
    ensures DistinctBy(Sort(xs, cmp), key)
  {
    if xs != [] {
      var n := |xs| - 1;
      SortDistinct(xs[..n], cmp, key);
      SortMembers(xs[..n], cmp);
      forall k | 0 <= k < n ensures key(Sort(xs[..n], cmp)[k]) != key(xs[n]) {
        assert Sort(xs[..n], cmp)[k] in xs[..n];
        var i :| 0 <= i < n && xs[..n][i] == Sort(xs[..n], cmp)[k];
        assert xs[i] == xs[..n][i];
      }
      InsertDistinct(Sort(xs[..n], cmp), xs[n], cmp, key);
    }
  }

  /** The first value stands somewhere before the second. */
  ghost predicate Precedes<T>(xs: seq<T>, a: T, b: T) {
    exists i, j :: 0 <= i < j < |xs| && xs[i] == a && xs[j] == b
  }

  lemma PrecedesIn<T>(front: seq<T>, more: seq<T>, a: T, b: T)
    requires Precedes(front, a, b)
    ensures Precedes(front + more, a, b)
  {
    var i, j :| 0 <= i < j < |front| && front[i] == a && front[j] == b;
    assert (front + more)[i] == a && (front + more)[j] == b;
  }

  lemma PrecedesLast<T>(front: seq<T>, a: T, b: T)
    requires a in front
    ensures Precedes(front + [b], a, b)
  {
    var i :| 0 <= i < |front| && front[i] == a;
    assert (front + [b])[i] == a && (front + [b])[|front|] == b;
  }

  /** A value is inserted after every element it does not come before. */
  lemma {:induction false} InsertedAfter<T>(xs: seq<T>, a: T, x: T, cmp: (T, T) -> int)
    requires a in xs && cmp(a, x) <= 0
    ensures Precedes(Insert(xs, x, cmp), a, x)
  {
    var n := |xs| - 1;
    if cmp(xs[n], x) <= 0 {
      PrecedesLast(xs, a, x);
    } else {
      var i :| 0 <= i < |xs| && xs[i] == a;
      assert xs[..n][i] == a;
      InsertedAfter(xs[..n], a, x, cmp);
      PrecedesIn(Insert(xs[..n], x, cmp), [xs[n]], a, x);
    }
  }

  lemma {:induction false} InsertKeepsOrder<T>(xs: seq<T>, x: T, cmp: (T, T) -> int, a: T, b: T)
    requires Precedes(xs, a, b)
    ensures Precedes(Insert(xs, x, cmp), a, b)
  {
    var n := |xs| - 1;
    if cmp(xs[n], x) <= 0 {
      PrecedesIn(xs, [x], a, b);
    } else {
      var i, j :| 0 <= i < j < |xs| && xs[i] == a && xs[j] == b;
      var front := Insert(xs[..n], x, cmp);
      if j < n {
        assert xs[..n][i] == a && xs[..n][j] == b;
        InsertKeepsOrder(xs[..n], x, cmp, a, b);
        PrecedesIn(front, [xs[n]], a, b);
      } else {
        assert xs[..n][i] == a;
        assert a in multiset(xs[..n]);
        assert a in multiset(front);
        PrecedesLast(front, a, b);
      }
    }
  }

  /** The sort is stable: what may stay in order stays in order. */
  lemma {:induction false} SortStable<T>(xs: seq<T>, cmp: (T, T) -> int, a: T, b: T)
    requires Precedes(xs, a, b) && cmp(a, b) <= 0
    ensures Precedes(Sort(xs, cmp), a, b)
  {
    hide Insert;
    var n := |xs| - 1;
    var i, j :| 0 <= i < j < |xs| && xs[i] == a && xs[j] == b;
    var front := Sort(xs[..n], cmp);
    assert Sort(xs, cmp) == Insert(front, xs[n], cmp);
    hide Sort;
    if j < n {
      assert xs[..n][i] == a && xs[..n][j] == b;
      SortStable(xs[..n], cmp, a, b);
      InsertKeepsOrder(front, xs[n], cmp, a, b);
    } else {
      assert xs[..n][i] == a;
      SortMembers(xs[..n], cmp);
      InsertedAfter(front, a, b, cmp);
    }
  }

  /** Two comparators decide alike whether a later element may stay behind an earlier one. */
  ghost predicate DecideAlike<T>(xs: seq<T>, cmp: (T, T) -> int, cmp': (T, T) -> int) {
    forall i, j :: 0 <= i < j < |xs| ==> (cmp(xs[i], xs[j]) <= 0 <==> cmp'(xs[i], xs[j]) <= 0)
  }

  lemma {:induction false} InsertAlike<T>(xs: seq<T>, x: T, cmp: (T, T) -> int, cmp': (T, T) -> int)
    requires forall y | y in xs :: cmp(y, x) <= 0 <==> cmp'(y, x) <= 0
    ensures Insert(xs, x, cmp) == Insert(xs, x, cmp')
  {
    if xs != [] {
      var n := |xs| - 1;
      assert xs[n] in xs;
      forall y | y in xs[..n] ensures y in xs {
      }
      InsertAlike(xs[..n], x, cmp, cmp');
    }
  }

  lemma {:induction false} SortAlike<T(!new)>(xs: seq<T>, cmp: (T, T) -> int, cmp': (T, T) -> int)
    requires DecideAlike(xs, cmp, cmp')
    ensures Sort(xs, cmp) == Sort(xs, cmp')
  {
    hide Insert;
    if xs != [] {
      var n := |xs| - 1;
      assert DecideAlike(xs[..n], cmp, cmp');
      SortAlike(xs[..n], cmp, cmp');
      SortMembers(xs[..n], cmp);
      forall y | y in Sort(xs[..n], cmp) ensures cmp(y, xs[n]) <= 0 <==> cmp'(y, xs[n]) <= 0 {
        assert y in xs[..n];
        var i :| 0 <= i < n && xs[..n][i] == y;
        assert xs[i] == y;
      }
      InsertAlike(Sort(xs[..n], cmp), xs[n], cmp, cmp');
    }
  }

  lemma PrecedesAt<T>(xs: seq<T>, i: nat, j: nat)
    requires i < j < |xs|
    ensures Precedes(xs, xs[i], xs[j])
  {
  }

  lemma SortedPrecedes<T>(xs: seq<T>, cmp: (T, T) -> int, a: T, b: T)
    requires Sorted(xs, cmp) && Precedes(xs, a, b)
    ensures cmp(a, b) <= 0
  {
  }

  /** Sorts by two consistent comparators agree exactly when these decide every pair alike. */
  lemma SortsAgreeIff<T(!new)>(xs: seq<T>, cmp: (T, T) -> int, cmp': (T, T) -> int)
    requires Consistent(cmp) && Consistent(cmp')
    ensures Sort(xs, cmp) == Sort(xs, cmp') <==> DecideAlike(xs, cmp, cmp')
  {
    hide Sort, Insert, Consistent, Sorted, Precedes;
    if DecideAlike(xs, cmp, cmp') {
      SortAlike(xs, cmp, cmp');
    }
    if Sort(xs, cmp) == Sort(xs, cmp') {
      forall i, j | 0 <= i < j < |xs| ensures cmp(xs[i], xs[j]) <= 0 <==> cmp'(xs[i], xs[j]) <= 0 {
        if cmp(xs[i], xs[j]) <= 0 {
          StaysBehind(xs, cmp, cmp', i, j);
        } else if cmp'(xs[i], xs[j]) <= 0 {
          StaysBehind(xs, cmp', cmp, i, j);
        }
      }
    }
  }

  lemma StaysBehind<T(!new)>(xs: seq<T>, cmp: (T, T) -> int, cmp': (T, T) -> int, i: nat, j: nat)
    requires Consistent(cmp') && Sort(xs, cmp) == Sort(xs, cmp')
    requires i < j < |xs| && cmp(xs[i], xs[j]) <= 0
    ensures cmp'(xs[i], xs[j]) <= 0
  {
    hide Sort, Insert, Consistent;
    PrecedesAt(xs, i, j);
    SortStable(xs, cmp, xs[i], xs[j]);
    SortSorted(xs, cmp');
    SortedPrecedes(Sort(xs, cmp'), cmp', xs[i], xs[j]);
  }

  /** A strictly ordered sequence is determined by its set of elements. */
  lemma {:induction false} StrictlySortedUnique<T(!new)>(a: seq<T>, b: seq<T>, cmp: (T, T) -> int)
    requires Antisymmetric(cmp)
    requires StrictlySorted(a, cmp) && StrictlySorted(b, cmp)
    requires forall x :: x in a <==> x in b
    ensures a == b
  {
    if a == [] {
      Inhabited(b);
    } else {
      assert a[0] in b;
      SameFirst(a, b, cmp);
      forall x ensures x in a[1..] <==> x in b[1..] {
        TailMember(a, x, cmp);
        TailMember(b, x, cmp);
      }
      StrictlySortedUnique(a[1..], b[1..], cmp);
      assert a == [a[0]] + a[1..];
      assert b == [b[0]] + b[1..];
    }
  }

  lemma SameFirst<T(!new)>(a: seq<T>, b: seq<T>, cmp: (T, T) -> int)
    requires Antisymmetric(cmp)
    requires StrictlySorted(a, cmp) && StrictlySorted(b, cmp)
    requires a != [] && b != []
    requires forall x :: x in a <==> x in b
    ensures a[0] == b[0]
  {
    HeadIsLeast(a, b[0], cmp);
    HeadIsLeast(b, a[0], cmp);
    assert cmp(a[0], b[0]) <= 0 <==> 0 <= cmp(b[0], a[0]);
  }

  lemma HeadIsLeast<T(!new)>(a: seq<T>, x: T, cmp: (T, T) -> int)
    requires StrictlySorted(a, cmp) && x in a
    ensures x == a[0] || cmp(a[0], x) < 0
  {
    var i :| 0 <= i < |a| && a[i] == x;
  }

  lemma Inhabited<T>(b: seq<T>)
    ensures b == [] || exists x :: x in b
  {
    if b != [] {
      assert b[0] in b;
    }
  }

  /** The rest of a strictly ordered sequence is everything but its first element. */
  lemma TailMember<T(!new)>(a: seq<T>, x: T, cmp: (T, T) -> int)
    requires Antisymmetric(cmp) && StrictlySorted(a, cmp) && a != []
    ensures x in a[1..] <==> x in a && x != a[0]
  {
    assert cmp(a[0], a[0]) <= 0 <==> 0 <= cmp(a[0], a[0]);
    if x in a[1..] {
      var i :| 0 <= i < |a[1..]| && a[1..][i] == x;
      assert cmp(a[0], a[i + 1]) < 0;
    }
    if x in a && x != a[0] {
      var k :| 0 <= k < |a| && a[k] == x;
      assert a[1..][k - 1] == x;
    }
  }
}
