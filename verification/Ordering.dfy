/** Orders and sorting: the code point order of Python strings and a stable sort by a total preorder. */
module Ordering {

  /** `a < b` on Python strings: the first differing code point decides, a proper prefix is smaller. */
  predicate StrLess(a: string, b: string) {
    b != [] && (a == [] || a[0] < b[0] || (a[0] == b[0] && StrLess(a[1..], b[1..])))
  }

  predicate StrLeq(a: string, b: string) {
    a == b || StrLess(a, b)
  }

  lemma {:induction false} StrLessIrreflexive(a: string)
    ensures !StrLess(a, a)
  {
    if a != [] { StrLessIrreflexive(a[1..]); }
  }

  lemma {:induction false} StrLessTransitive(a: string, b: string, c: string)
    requires StrLess(a, b) && StrLess(b, c)
    ensures StrLess(a, c)
  {
    if a != [] && a[0] == b[0] == c[0] { StrLessTransitive(a[1..], b[1..], c[1..]); }
  }

  lemma {:induction false} StrLessTotal(a: string, b: string)
    ensures StrLess(a, b) || a == b || StrLess(b, a)
  {
    if a != [] && b != [] && a[0] == b[0] {
      StrLessTotal(a[1..], b[1..]);
      if a[1..] == b[1..] { assert a == [a[0]] + a[1..] == [b[0]] + b[1..] == b; }
    }
  }

  /** The whole of the strict order at once, for proofs that compare many strings. */
  lemma StrOrder()
    ensures forall a: string :: !StrLess(a, a)
    ensures forall a: string, b: string :: StrLess(a, b) || a == b || StrLess(b, a)
    ensures forall a: string, b: string, c: string :: StrLess(a, b) && StrLess(b, c) ==> StrLess(a, c)
  {
    forall a: string ensures !StrLess(a, a) { StrLessIrreflexive(a); }
    forall a: string, b: string ensures StrLess(a, b) || a == b || StrLess(b, a) { StrLessTotal(a, b); }
    forall a: string, b: string, c: string | StrLess(a, b) && StrLess(b, c) ensures StrLess(a, c) {
      StrLessTransitive(a, b, c);
    }
  }

  /** Code point order, read off the strings: at the first place where they differ, the smaller code point or the end
      of the string comes first. */
  lemma {:induction false} StrLessExactly(a: string, b: string)
    ensures StrLess(a, b) <==>
            exists k :: 0 <= k <= |a| && k < |b| && a[..k] == b[..k] && (k == |a| || a[k] < b[k])
  {
    if a == [] || b == [] || a[0] != b[0] {
      if StrLess(a, b) { assert a[..0] == b[..0]; }
      forall k | 0 < k <= |a| && k < |b| ensures a[..k] != b[..k] {
        assert a[0] == a[..k][0] && b[0] == b[..k][0];
      }
    } else {
      var s, t := a[1..], b[1..];
      StrLessExactly(s, t);
      forall k | 0 <= k <= |s| && k < |t| ensures a[..k + 1] == b[..k + 1] <==> s[..k] == t[..k] {
        assert a[..k + 1] == [a[0]] + s[..k] && b[..k + 1] == [b[0]] + t[..k];
        if a[..k + 1] == b[..k + 1] { assert s[..k] == a[..k + 1][1..] == b[..k + 1][1..] == t[..k]; }
      }
      if k :| 0 <= k <= |s| && k < |t| && s[..k] == t[..k] && (k == |s| || s[k] < t[k]) {
        assert a[..k + 1] == b[..k + 1] && (k + 1 == |a| || a[k + 1] < b[k + 1]);
      }
      if k :| 0 <= k <= |a| && k < |b| && a[..k] == b[..k] && (k == |a| || a[k] < b[k]) {
        assert k > 0 && s[..k - 1] == t[..k - 1] && (k - 1 == |s| || s[k - 1] < t[k - 1]);
      }
    }
  }

  lemma StrLessAt(a: string, b: string, k: nat)
    requires k < |a| && k < |b| && a[..k] == b[..k] && a[k] < b[k]
    ensures StrLess(a, b) && !StrLess(b, a) && a != b
  {
    StrLessExactly(a, b);
    hide StrLess;
    if StrLess(b, a) {
      StrLessTransitive(a, b, a);
      StrLessIrreflexive(a);
      assert false;
    }
  }

  /** `le` is a total preorder: what a sort key always induces. */
  ghost predicate TotalPreorder<T(!new)>(le: (T, T) -> bool) {
    && (forall a, b :: le(a, b) || le(b, a))
    && (forall a, b, c :: le(a, b) && le(b, c) ==> le(a, c))
  }

  ghost predicate Antisymmetric<T(!new)>(le: (T, T) -> bool) {
    forall a, b :: le(a, b) && le(b, a) ==> a == b
  }

  lemma StrLeqIsTotal()
    ensures TotalPreorder(StrLeq) && Antisymmetric(StrLeq)
  {
    StrOrder();
  }

  ghost predicate Sorted<T>(le: (T, T) -> bool, s: seq<T>) {
    forall i, j :: 0 <= i < j < |s| ==> le(s[i], s[j])
  }

  function Insert<T>(le: (T, T) -> bool, x: T, s: seq<T>): seq<T> {
    if s == [] then [x]
    else if le(x, s[0]) then [x] + s
    else [s[0]] + Insert(le, x, s[1..])
  }

  /** Python's `sorted`: elements that compare equal both ways keep their order. */
  function SortBy<T>(le: (T, T) -> bool, s: seq<T>): seq<T> {
    if s == [] then [] else Insert(le, s[0], SortBy(le, s[1..]))
  }

  lemma {:induction false} InsertKeeps<T(!new)>(le: (T, T) -> bool, x: T, s: seq<T>)
    requires TotalPreorder(le) && Sorted(le, s)
    ensures Sorted(le, Insert(le, x, s))
    ensures multiset(Insert(le, x, s)) == multiset(s) + multiset{x}
  {
    if s == [] {
    } else if le(x, s[0]) {
    } else {
      var rest := Insert(le, x, s[1..]);
      InsertKeeps(le, x, s[1..]);
      assert s == [s[0]] + s[1..];
      forall j | 0 <= j < |rest| ensures le(s[0], rest[j]) {
        assert rest[j] in multiset(rest);
        if rest[j] != x {
          assert rest[j] in multiset(s[1..]);
          var k :| 0 <= k < |s[1..]| && s[1..][k] == rest[j];
          assert le(s[0], s[k + 1]);
        }
      }
    }
  }

  lemma {:induction false} SortBySorts<T(!new)>(le: (T, T) -> bool, s: seq<T>)
    requires TotalPreorder(le)
    ensures Sorted(le, SortBy(le, s))
    ensures multiset(SortBy(le, s)) == multiset(s)
    ensures |SortBy(le, s)| == |s|
    ensures forall x :: x in SortBy(le, s) <==> x in s
  {
    if s != [] {
      SortBySorts(le, s[1..]);
      InsertKeeps(le, s[0], SortBy(le, s[1..]));
      assert s == [s[0]] + s[1..];
    }
    SameMultiset(SortBy(le, s), s);
  }

  lemma SameMultiset<T(!new)>(a: seq<T>, b: seq<T>)
    requires multiset(a) == multiset(b)
    ensures |a| == |b|
    ensures forall x :: x in a <==> x in b
  {
    assert |multiset(a)| == |multiset(b)|;
    forall x ensures x in a <==> x in b {
      assert x in a <==> x in multiset(a);
      assert x in b <==> x in multiset(b);
    }
  }

  lemma HeadIsLeast<T(!new)>(le: (T, T) -> bool, s: seq<T>, x: T)
    requires Sorted(le, s) && x in s
    ensures x == s[0] || le(s[0], x)
  {
    var i :| 0 <= i < |s| && s[i] == x;
  }

  lemma TailSorted<T>(le: (T, T) -> bool, s: seq<T>)
    requires Sorted(le, s) && s != []
    ensures Sorted(le, s[1..])
  {
  }

  /** `le` tells the elements of `s` apart. */
  ghost predicate AntisymmetricOn<T>(le: (T, T) -> bool, s: seq<T>) {
    forall x, y :: x in s && y in s && le(x, y) && le(y, x) ==> x == y
  }

  /** If the order tells the elements apart, there is only one sorted arrangement of a multiset. */
  lemma {:induction false} SortedUnique<T(!new)>(le: (T, T) -> bool, a: seq<T>, b: seq<T>)
    requires AntisymmetricOn(le, a) && Sorted(le, a) && Sorted(le, b) && multiset(a) == multiset(b)
    ensures a == b
  {
    hide *;
    SameMultiset(a, b);
    if a == [] {
      assert b == [];
    } else {
      assert a[0] in a && b[0] in b;
      SameHead(le, a, b);
      TailSorted(le, a);
      TailSorted(le, b);
      TailAntisymmetric(le, a);
      assert a == [a[0]] + a[1..] && b == [b[0]] + b[1..];
      assert multiset(a[1..]) == multiset(a) - multiset{a[0]};
      assert multiset(b[1..]) == multiset(b) - multiset{b[0]};
      SortedUnique(le, a[1..], b[1..]);
    }
  }

  lemma SameHead<T(!new)>(le: (T, T) -> bool, a: seq<T>, b: seq<T>)
    requires AntisymmetricOn(le, a) && Sorted(le, a) && Sorted(le, b)
    requires a != [] && b != [] && a[0] in b && b[0] in a
    ensures a[0] == b[0]
  {
    HeadIsLeast(le, a, b[0]);
    HeadIsLeast(le, b, a[0]);
    hide Sorted;
  }

  lemma TailAntisymmetric<T>(le: (T, T) -> bool, s: seq<T>)
    requires AntisymmetricOn(le, s) && s != []
    ensures AntisymmetricOn(le, s[1..])
  {
    assert forall x :: x in s[1..] ==> x in s;
  }

  ghost predicate Distinct<T>(s: seq<T>) {
    forall i, j :: 0 <= i < j < |s| ==> s[i] != s[j]
  }

  /** Where the elements stand when one of them is taken out. */
  function Source(i: nat, k: nat): nat {
    if i < k then i else i + 1
  }

  lemma DropPlaces<T>(list: seq<T>, k: nat)
    requires k < |list|
    ensures var shorter := list[..k] + list[k + 1..];
            |shorter| == |list| - 1 && forall i: nat :: i < |shorter| ==> shorter[i] == list[Source(i, k)]
  {
  }

  /** Without one element, a list without repetition holds exactly the others, again without repetition. */
  lemma DropHolds<T>(list: seq<T>, k: nat)
    requires k < |list| && Distinct(list)
    ensures var shorter := list[..k] + list[k + 1..];
            Distinct(shorter) && forall x :: x in shorter <==> x in list && x != list[k]
  {
    var shorter := list[..k] + list[k + 1..];
    DropPlaces(list, k);
    forall i, j | 0 <= i < j < |shorter| ensures shorter[i] != shorter[j] {
      assert list[Source(i, k)] != list[Source(j, k)];
    }
    forall x ensures x in shorter <==> x in list && x != list[k] { DroppedOrKept(list, k, x); }
  }

  lemma DroppedOrKept<T>(list: seq<T>, k: nat, x: T)
    requires k < |list| && Distinct(list)
    ensures x in list[..k] + list[k + 1..] <==> x in list && x != list[k]
  {
    var before, after := list[..k], list[k + 1..];
    assert list == before + [list[k]] + after;
    forall y | y in before ensures y != list[k] {
      var i :| 0 <= i < |before| && before[i] == y;
      assert list[i] != list[k];
    }
    forall y | y in after ensures y != list[k] {
      var i :| 0 <= i < |after| && after[i] == y;
      assert list[k] != list[k + 1 + i];
    }
    hide Distinct;
    assert x in before + [list[k]] <==> x in before || x == list[k];
  }

  lemma {:induction false} DistinctMultiset<T>(s: seq<T>)
    ensures Distinct(s) <==> (forall x :: multiset(s)[x] <= 1)
  {
    if s != [] {
      DistinctMultiset(s[1..]);
      assert s == [s[0]] + s[1..];
      if Distinct(s) {
        assert s[0] !in s[1..];
        assert s[0] !in multiset(s[1..]);
      } else if forall x :: multiset(s)[x] <= 1 {
        assert multiset(s) == multiset{s[0]} + multiset(s[1..]);
        assert multiset(s)[s[0]] <= 1;
        assert s[0] !in multiset(s[1..]);
        forall x ensures multiset(s[1..])[x] <= 1 { assert multiset(s)[x] <= 1; }
        assert Distinct(s[1..]);
        forall i, j | 0 <= i < j < |s| ensures s[i] != s[j] {
          assert s[j] == s[1..][j - 1];
          if i > 0 { assert s[i] == s[1..][i - 1]; } else { assert s[1..][j - 1] in s[1..]; }
        }
        assert false;
      }
    }
  }

  /** A list of a set's elements, each once, holds what the set holds. */
  lemma DistinctIsSet<T(!new)>(list: seq<T>, s: set<T>)
    requires Distinct(list) && forall v :: v in list <==> v in s
    ensures multiset(list) == multiset(s)
  {
    DistinctMultiset(list);
    forall v ensures multiset(list)[v] == multiset(s)[v] {
      assert v in list <==> v in multiset(list);
    }
  }

  /** Some enumeration of a finite set. */
  ghost function Enumerate<T>(s: set<T>): (r: seq<T>)
    ensures multiset(r) == multiset(s)
  {
    if s == {} then [] else
      var x :| x in s;
      assert multiset(s) == multiset{x} + multiset(s - {x});
      [x] + Enumerate(s - {x})
  }

  /** The elements of a finite set in increasing order. */
  ghost function Arrange<T>(le: (T, T) -> bool, s: set<T>): seq<T> {
    SortBy(le, Enumerate(s))
  }

  lemma ArrangeSorts<T(!new)>(le: (T, T) -> bool, s: set<T>)
    requires TotalPreorder(le)
    ensures var r := Arrange(le, s);
            Sorted(le, r) && Distinct(r) && |r| == |s| && multiset(r) == multiset(s) && forall x :: x in r <==> x in s
  {
    var r := Arrange(le, s);
    SortBySorts(le, Enumerate(s));
    forall x ensures x in r <==> x in s { assert x in r <==> x in multiset(r); }
    DistinctMultiset(r);
    assert |multiset(r)| == |r|;
  }

  /** Sorting any listing of a set gives its arrangement, provided the order tells its elements apart. */
  lemma SortIsArrangeOn<T(!new)>(le: (T, T) -> bool, listing: seq<T>, s: set<T>)
    requires TotalPreorder(le) && AntisymmetricOn(le, listing)
    requires multiset(listing) == multiset(s)
    ensures SortBy(le, listing) == Arrange(le, s)
  {
    SortBySorts(le, listing);
    ArrangeSorts(le, s);
    SortedUnique(le, SortBy(le, listing), Arrange(le, s));
  }

  lemma SortIsArrange<T(!new)>(le: (T, T) -> bool, listing: seq<T>, s: set<T>)
    requires TotalPreorder(le) && Antisymmetric(le)
    requires multiset(listing) == multiset(s)
    ensures SortBy(le, listing) == Arrange(le, s)
  {
    SortIsArrangeOn(le, listing, s);
  }

  /** The elements of a set, each once, in some order. */
  method Listing<T(==,!new)>(s: set<T>) returns (listing: seq<T>)
    ensures multiset(listing) == multiset(s)
  {
    listing := [];
    var rest := s;
    while rest != {}
      invariant rest <= s && multiset(listing) == multiset(s - rest)
      decreases |rest|
    {
      var x :| x in rest;
      assert s - (rest - {x}) == (s - rest) + {x};
      listing, rest := listing + [x], rest - {x};
    }
    assert s - rest == s;
  }

  /** The elements of a set in increasing order. */
  method SortedListing<T(==,!new)>(le: (T, T) -> bool, s: set<T>) returns (listing: seq<T>)
    requires TotalPreorder(le) && Antisymmetric(le)
    ensures listing == Arrange(le, s)
  {
    var some := Listing(s);
    SortIsArrange(le, some, s);
    listing := SortBy(le, some);
  }
}
