/** The elements of a sequence that pass a test, in order. */
module Selections {
  import opened Ordering

  function Select<T>(p: T -> bool, s: seq<T>): seq<T> {
    if s == [] then [] else (if p(s[0]) then [s[0]] else []) + Select(p, s[1..])
  }

  lemma {:induction false} SelectIn<T(!new)>(p: T -> bool, s: seq<T>)
    ensures forall x :: x in Select(p, s) <==> x in s && p(x)
    ensures |Select(p, s)| <= |s|
    ensures |Select(p, s)| == |s| ==> Select(p, s) == s
  {
    if s != [] {
      SelectIn(p, s[1..]);
      assert s == [s[0]] + s[1..];
    }
  }

  lemma {:induction false} SelectSplits<T(!new)>(p: T -> bool, q: T -> bool, s: seq<T>)
    requires forall x :: x in s ==> (p(x) <==> !q(x))
    ensures multiset(Select(p, s)) + multiset(Select(q, s)) == multiset(s)
    ensures |Select(p, s)| + |Select(q, s)| == |s|
  {
    if s != [] {
      assert s == [s[0]] + s[1..];
      SelectSplits(p, q, s[1..]);
    }
  }

  lemma {:induction false} SelectSorted<T(!new)>(le: (T, T) -> bool, p: T -> bool, s: seq<T>)
    requires Sorted(le, s)
    ensures Sorted(le, Select(p, s))
  {
    if s != [] {
      TailSorted(le, s);
      SelectSorted(le, p, s[1..]);
      SelectIn(p, s[1..]);
      var rest := Select(p, s[1..]);
      forall j | 0 <= j < |rest| ensures le(s[0], rest[j]) {
        assert rest[j] in rest;
        var k :| 0 <= k < |s[1..]| && s[1..][k] == rest[j];
        assert le(s[0], s[k + 1]);
      }
    }
  }

  lemma {:induction false} SelectAll<T>(p: T -> bool, s: seq<T>)
    requires forall x :: x in s ==> p(x)
    ensures Select(p, s) == s
  {
    if s != [] {
      assert s == [s[0]] + s[1..];
      SelectAll(p, s[1..]);
    }
  }

  lemma {:induction false} SelectNone<T>(p: T -> bool, s: seq<T>)
    requires forall x :: x in s ==> !p(x)
    ensures Select(p, s) == []
  {
    if s != [] {
      assert s == [s[0]] + s[1..];
      SelectNone(p, s[1..]);
    }
  }

  lemma {:induction false} SelectAgrees<T>(p: T -> bool, q: T -> bool, s: seq<T>)
    requires forall x :: x in s ==> p(x) == q(x)
    ensures Select(p, s) == Select(q, s)
  {
    if s != [] {
      assert s[0] in s && forall x :: x in s[1..] ==> x in s;
      SelectAgrees(p, q, s[1..]);
    }
  }

  lemma {:induction false} SelectTail<T>(p: T -> bool, s: seq<T>)
    requires s != []
    ensures Select(p, s) == (if p(s[0]) then [s[0]] else []) + Select(p, s[1..])
  {
  }

  /** Sorting is stable: elements that the order does not tell apart keep the order in which they were listed. */
  lemma {:induction false} SortIsStable<T(!new)>(le: (T, T) -> bool, s: seq<T>, x: T)
    requires TotalPreorder(le)
    ensures Select(y => le(x, y) && le(y, x), SortBy(le, s)) == Select(y => le(x, y) && le(y, x), s)
  {
    if s != [] {
      SortIsStable(le, s[1..], x);
      SortBySorts(le, s[1..]);
      InsertIsStable(le, s[0], SortBy(le, s[1..]), x);
    }
  }

  lemma {:induction false} InsertIsStable<T(!new)>(le: (T, T) -> bool, added: T, s: seq<T>, x: T)
    requires TotalPreorder(le) && Sorted(le, s)
    ensures var same := (y: T) => le(x, y) && le(y, x);
            Select(same, Insert(le, added, s)) == (if same(added) then [added] else []) + Select(same, s)
  {
    var same := (y: T) => le(x, y) && le(y, x);
    var inserted := Insert(le, added, s);
    if s == [] || le(added, s[0]) {
      assert inserted == [added] + s;
      SelectTail(same, inserted);
      assert inserted[1..] == s;
    } else {
      assert inserted == [s[0]] + Insert(le, added, s[1..]);
      TailSorted(le, s);
      InsertIsStable(le, added, s[1..], x);
      SelectTail(same, inserted);
      SelectTail(same, s);
      assert inserted[1..] == Insert(le, added, s[1..]);
      assert !(same(added) && same(s[0]));
      if same(added) {
        assert [] + ([added] + Select(same, s[1..])) == [added] + ([] + Select(same, s[1..]));
      }
    }
  }

  lemma {:induction false} SelectAppend<T>(p: T -> bool, s: seq<T>, x: T)
    ensures Select(p, s + [x]) == Select(p, s) + if p(x) then [x] else []
  {
    if s == [] {
      assert s + [x] == [x];
    } else {
      var longer := s + [x];
      assert longer[0] == s[0] && longer[1..] == s[1..] + [x];
      SelectAppend(p, s[1..], x);
      var head, rest, tail := if p(s[0]) then [s[0]] else [], Select(p, s[1..]), if p(x) then [x] else [];
      calc {
        Select(p, longer);
        head + Select(p, longer[1..]);
        head + (rest + tail);
        (head + rest) + tail;
      }
    }
  }

  lemma SelectEmpty<T>(p: T -> bool)
    ensures Select(p, []) == []
  {
  }

  lemma {:induction false} SelectConcat<T>(p: T -> bool, a: seq<T>, b: seq<T>)
    ensures Select(p, a + b) == Select(p, a) + Select(p, b)
  {
    hide *;
    if b == [] {
      assert a + b == a;
      SelectEmpty(p);
      assert Select(p, a) + [] == Select(p, a);
    } else {
      var front, last := b[..|b| - 1], b[|b| - 1];
      SelectConcat(p, a, front);
      SelectAppend(p, a + front, last);
      SelectAppend(p, front, last);
      assert b == front + [last];
      assert a + b == (a + front) + [last];
    }
  }

  lemma {:induction false} SelectCounts<T>(p: T -> bool, s: seq<T>, x: T)
    ensures multiset(Select(p, s))[x] == if p(x) then multiset(s)[x] else 0
  {
    if s != [] {
      assert s == [s[0]] + s[1..];
      SelectCounts(p, s[1..], x);
    }
  }

  lemma SelectUnion<T(!new)>(p: T -> bool, whole: seq<T>, a: seq<T>, b: seq<T>)
    requires multiset(whole) == multiset(a) + multiset(b)
    ensures multiset(Select(p, whole)) == multiset(Select(p, a)) + multiset(Select(p, b))
  {
    forall x ensures multiset(Select(p, whole))[x] == (multiset(Select(p, a)) + multiset(Select(p, b)))[x] {
      SelectCounts(p, whole, x);
      SelectCounts(p, a, x);
      SelectCounts(p, b, x);
    }
  }
}
