/** Sums of real-valued functions over sequences and finite sets. */
module Sums {
  import opened Ordering

  ghost function SumOver<T>(f: T -> real, list: seq<T>): real {
    if list == [] then 0.0 else SumOver(f, list[..|list| - 1]) + f(list[|list| - 1])
  }

  ghost function SumSet<T>(f: T -> real, s: set<T>): real {
    SumOver(f, Enumerate(s))
  }

  lemma SumNone<T>(f: T -> real)
    ensures SumOver(f, []) == 0.0
  {
  }

  lemma SumAppend<T>(f: T -> real, list: seq<T>, x: T)
    ensures SumOver(f, list + [x]) == SumOver(f, list) + f(x)
  {
    assert (list + [x])[..|list|] == list;
  }

  lemma {:induction false} SumConcat<T>(f: T -> real, a: seq<T>, b: seq<T>)
    ensures SumOver(f, a + b) == SumOver(f, a) + SumOver(f, b)
  {
    hide *;
    if b == [] {
      assert a + b == a;
      SumNone(f);
    } else {
      var front, last := b[..|b| - 1], b[|b| - 1];
      SumConcat(f, a, front);
      SumAppend(f, a + front, last);
      SumAppend(f, front, last);
      assert b == front + [last];
      assert a + b == (a + front) + [last];
    }
  }

  lemma SumRemoves<T>(f: T -> real, list: seq<T>, i: nat)
    requires i < |list|
    ensures SumOver(f, list) == SumOver(f, list[..i] + list[i + 1..]) + f(list[i])
  {
    hide *;
    SumAppend(f, list[..i], list[i]);
    SumConcat(f, list[..i] + [list[i]], list[i + 1..]);
    SumConcat(f, list[..i], list[i + 1..]);
    assert list == (list[..i] + [list[i]]) + list[i + 1..];
  }

  lemma RemoveAt<T>(list: seq<T>, i: nat)
    requires i < |list|
    ensures multiset(list[..i] + list[i + 1..]) == multiset(list) - multiset{list[i]}
  {
    assert list == list[..i] + [list[i]] + list[i + 1..];
  }

  /** The order of summation does not matter. */
  lemma {:induction false} SumPermutes<T(!new)>(f: T -> real, a: seq<T>, b: seq<T>)
    requires multiset(a) == multiset(b)
    ensures SumOver(f, a) == SumOver(f, b)
  {
    hide *;
    SameMultiset(a, b);
    if a == [] {
      assert b == [];
    } else {
      var n := |a| - 1;
      assert a[n] in b;
      var i :| 0 <= i < |b| && b[i] == a[n];
      RemoveAt(a, n);
      RemoveAt(b, i);
      SumRemoves(f, a, n);
      SumRemoves(f, b, i);
      SumPermutes(f, a[..n] + a[n + 1..], b[..i] + b[i + 1..]);
    }
  }

  lemma {:induction false} SumZero<T>(f: T -> real, list: seq<T>)
    requires forall x :: x in list ==> f(x) == 0.0
    ensures SumOver(f, list) == 0.0
  {
    if list != [] {
      assert list[|list| - 1] in list;
      assert forall x :: x in list[..|list| - 1] ==> x in list;
      SumZero(f, list[..|list| - 1]);
    }
  }

  lemma SumGrows<T>(list: seq<T>, x: T)
    ensures forall f: T -> real :: SumOver(f, list + [x]) == SumOver(f, list) + f(x)
  {
    assert (list + [x])[..|list + [x]| - 1] == list;
  }

  lemma {:induction false} SumAgrees<T>(f: T -> real, h: T -> real, list: seq<T>)
    requires forall x :: x in list ==> f(x) == h(x)
    ensures SumOver(f, list) == SumOver(h, list)
  {
    if list != [] {
      assert list[|list| - 1] in list;
      assert forall x :: x in list[..|list| - 1] ==> x in list;
      SumAgrees(f, h, list[..|list| - 1]);
    }
  }

  /** Changing one summand by `d` changes the sum by `d`. */
  lemma {:induction false} SumBumps<T>(f: T -> real, h: T -> real, list: seq<T>, x: T, d: real)
    requires Distinct(list) && x in list && h(x) == f(x) + d
    requires forall y :: y in list && y != x ==> h(y) == f(y)
    ensures SumOver(h, list) == SumOver(f, list) + d
  {
    hide *;
    var i :| 0 <= i < |list| && list[i] == x;
    SumRemoves(f, list, i);
    SumRemoves(h, list, i);
    DropHolds(list, i);
    SumAgrees(f, h, list[..i] + list[i + 1..]);
  }

  lemma {:induction false} SumPositive<T(!new)>(f: T -> real, list: seq<T>)
    requires forall x :: x in list ==> f(x) >= 0.0
    ensures SumOver(f, list) >= 0.0
    ensures SumOver(f, list) > 0.0 <==> exists x :: x in list && f(x) > 0.0
  {
    if list != [] {
      var front, last := list[..|list| - 1], list[|list| - 1];
      assert list == front + [last];
      SumPositive(f, front);
    }
  }

  lemma {:induction false} SumLess<T(!new)>(f: T -> real, h: T -> real, list: seq<T>)
    requires list != [] && forall x :: x in list ==> f(x) < h(x)
    ensures SumOver(f, list) < SumOver(h, list)
  {
    var front, last := list[..|list| - 1], list[|list| - 1];
    assert last in list && forall x :: x in front ==> x in list;
    if front != [] { SumLess(f, h, front); }
  }

  lemma {:induction false} SumScales<T(!new)>(f: T -> real, h: T -> real, c: real, list: seq<T>)
    requires forall x :: x in list ==> h(x) == c * f(x)
    ensures SumOver(h, list) == c * SumOver(f, list)
  {
    if list != [] {
      var front, last := list[..|list| - 1], list[|list| - 1];
      assert last in list && forall x :: x in front ==> x in list;
      SumScales(f, h, c, front);
    }
  }
}
