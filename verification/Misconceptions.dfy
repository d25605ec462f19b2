/** Misconceptions: the checks of their tags and the report of wrong answers by area and by node. */
module Misconceptions {
  import opened Prelude
  import opened Ordering
  import opened Selections
  import opened Sums
  import opened SkillGraph
  import opened DiagnosisTypes

  type Vocabulary = map<AreaTag, set<string>>

  /** Counts filed under a key and, below it, under a tag. */
  type Table<!K> = map<K, map<string, nat>>

  datatype Report = Report(
    byArea: Table<AreaTag>, byNode: Table<string>, missingChosenNo: nat, missingTag: nat)

  // The two checks.

  /** The event names a misconception at a node of another area. */
  predicate OffArea(e: Event, nodes: seq<Node>) {
    && e.misconception.Some? && e.nodeId.Some?
    && exists node <- nodes :: node.id == e.nodeId.value && node.area != e.area
  }

  /** The event names a misconception that the vocabulary of its area does not hold. */
  predicate OffVocabulary(e: Event, vocabulary: Vocabulary) {
    e.misconception.Some? && !(e.area in vocabulary && e.misconception.value in vocabulary[e.area])
  }

  function OffAreaIds(events: seq<Event>, nodes: seq<Node>): set<string> {
    set e | e in events && OffArea(e, nodes) :: e.id
  }

  function OffVocabularyIds(events: seq<Event>, vocabulary: Vocabulary): set<string> {
    set e | e in events && OffVocabulary(e, vocabulary) :: e.id
  }

  // The report.

  predicate IsWrong(e: Event) { !e.correct }
  predicate LacksChoice(e: Event) { !e.correct && e.chosenNo.None? }
  predicate LacksTag(e: Event) { !e.correct && e.chosenNo.Some? && e.misconception.None? }

  /** A wrong answer that is counted: its choice and its misconception are known. */
  predicate IsReported(e: Event) { !e.correct && e.chosenNo.Some? && e.misconception.Some? }

  function AreaOf(e: Event): Option<AreaTag> { Some(e.area) }
  function NodeOf(e: Event): Option<string> { e.nodeId }

  /** Reported under this key, if the event has one, and this tag. */
  predicate FiledAt<K(==)>(keyOf: Event -> Option<K>, key: K, tag: string, e: Event) {
    IsReported(e) && keyOf(e) == Some(key) && e.misconception == Some(tag)
  }

  function CountAt<K(==)>(keyOf: Event -> Option<K>, events: seq<Event>, key: K, tag: string): nat {
    |Select(e => FiledAt(keyOf, key, tag, e), events)|
  }

  function Entry<K>(table: Table<K>, key: K, tag: string): nat {
    if key in table && tag in table[key] then table[key][tag] else 0
  }

  /** No empty row and no zero entry. */
  ghost predicate Tidy<K(!new)>(table: Table<K>) {
    forall key :: key in table ==> table[key] != map[] && forall tag :: tag in table[key] ==> table[key][tag] > 0
  }

  /** The table holds exactly the reported events, counted. */
  ghost predicate Tabulates<K(!new)>(table: Table<K>, keyOf: Event -> Option<K>, events: seq<Event>) {
    Tidy(table) && forall key, tag :: Entry(table, key, tag) == CountAt(keyOf, events, key, tag)
  }

  ghost predicate IsReport(report: Report, events: seq<Event>) {
    && Tabulates(report.byArea, AreaOf, events)
    && Tabulates(report.byNode, NodeOf, events)
    && report.missingChosenNo == |Select(LacksChoice, events)|
    && report.missingTag == |Select(LacksTag, events)|
  }

  function Bump<K>(table: Table<K>, key: K, tag: string): Table<K> {
    var row := if key in table then table[key] else map[];
    table[key := row[tag := (if tag in row then row[tag] else 0) + 1]]
  }

  lemma BumpCounts<K(!new)>(table: Table<K>, key: K, tag: string)
    requires Tidy(table)
    ensures Tidy(Bump(table, key, tag))
    ensures forall k, t :: Entry(Bump(table, key, tag), k, t)
                           == Entry(table, k, t) + if k == key && t == tag then 1 else 0
  {
    var row := if key in table then table[key] else map[];
    assert row[tag := (if tag in row then row[tag] else 0) + 1] != map[] by {
      assert tag in row[tag := (if tag in row then row[tag] else 0) + 1];
    }
  }

  lemma NextCount<K(!new)>(keyOf: Event -> Option<K>, events: seq<Event>, i: nat)
    requires i < |events|
    ensures forall key, tag :: CountAt(keyOf, events[..i + 1], key, tag)
                               == CountAt(keyOf, events[..i], key, tag)
                                  + if FiledAt(keyOf, key, tag, events[i]) then 1 else 0
  {
    assert events[..i + 1] == events[..i] + [events[i]];
    forall key, tag
      ensures CountAt(keyOf, events[..i + 1], key, tag)
              == CountAt(keyOf, events[..i], key, tag) + if FiledAt(keyOf, key, tag, events[i]) then 1 else 0
    {
      SelectAppend(e => FiledAt(keyOf, key, tag, e), events[..i], events[i]);
    }
  }

  /** One more event, filed under its key if it is reported and has one. */
  lemma TableGrows<K(!new)>(table: Table<K>, keyOf: Event -> Option<K>, events: seq<Event>, i: nat)
    requires i < |events| && Tabulates(table, keyOf, events[..i])
    ensures var e := events[i];
            Tabulates(if IsReported(e) && keyOf(e).Some? then Bump(table, keyOf(e).value, e.misconception.value)
                      else table, keyOf, events[..i + 1])
  {
    var e := events[i];
    NextCount(keyOf, events, i);
    hide CountAt, Tidy, Entry, Bump;
    if IsReported(e) && keyOf(e).Some? { BumpCounts(table, keyOf(e).value, e.misconception.value); }
  }

  lemma NothingTabulated<K(!new)>(keyOf: Event -> Option<K>)
    ensures Tabulates(map[], keyOf, [])
  {
  }

  /** `_build_misconception_report`: each wrong answer is excluded for want of a choice or of a tag, or counted. */
  method BuildReport(events: seq<Event>) returns (report: Report)
    ensures IsReport(report, events)
  {
    hide Tabulates, Bump;
    var byArea: Table<AreaTag>, byNode: Table<string> := map[], map[];
    var missingChosenNo, missingTag := 0, 0;
    NothingTabulated(AreaOf);
    NothingTabulated(NodeOf);
    for i := 0 to |events|
      invariant Tabulates(byArea, AreaOf, events[..i]) && Tabulates(byNode, NodeOf, events[..i])
      invariant missingChosenNo == |Select(LacksChoice, events[..i])|
      invariant missingTag == |Select(LacksTag, events[..i])|
    {
      hide Select;
      var e := events[i];
      assert events[..i + 1] == events[..i] + [e];
      SelectAppend(LacksChoice, events[..i], e);
      SelectAppend(LacksTag, events[..i], e);
      TableGrows(byArea, AreaOf, events, i);
      TableGrows(byNode, NodeOf, events, i);
      if e.correct { continue; }
      if e.chosenNo.None? {
        missingChosenNo := missingChosenNo + 1;
        continue;
      }
      if e.misconception.None? {
        missingTag := missingTag + 1;
        continue;
      }
      byArea := Bump(byArea, e.area, e.misconception.value);
      if e.nodeId.Some? { byNode := Bump(byNode, e.nodeId.value, e.misconception.value); }
    }
    assert events[..|events|] == events;
    report := Report(byArea, byNode, missingChosenNo, missingTag);
  }

  // What the report says.

  lemma SameRow(a: map<string, nat>, b: map<string, nat>)
    requires forall tag :: tag in a ==> a[tag] > 0
    requires forall tag :: tag in b ==> b[tag] > 0
    requires forall tag :: (if tag in a then a[tag] else 0) == if tag in b then b[tag] else 0
    ensures a == b
  {
    forall tag ensures tag in a <==> tag in b {
      assert (if tag in a then a[tag] else 0) == if tag in b then b[tag] else 0;
    }
  }

  /** A tidy table is determined by its entries. */
  lemma TidyUnique<K(!new)>(a: Table<K>, b: Table<K>)
    requires Tidy(a) && Tidy(b) && forall key, tag :: Entry(a, key, tag) == Entry(b, key, tag)
    ensures a == b
  {
    forall key | key in a ensures key in b { HasEntry(a, b, key); }
    forall key | key in b ensures key in a { HasEntry(b, a, key); }
    forall key | key in a ensures a[key] == b[key] {
      forall tag ensures (if tag in a[key] then a[key][tag] else 0) == if tag in b[key] then b[key][tag] else 0 {
        assert Entry(a, key, tag) == Entry(b, key, tag);
      }
      SameRow(a[key], b[key]);
    }
  }

  lemma HasEntry<K(!new)>(a: Table<K>, b: Table<K>, key: K)
    requires Tidy(a) && key in a && forall tag :: Entry(a, key, tag) == Entry(b, key, tag)
    ensures key in b
  {
    var tag :| tag in a[key];
    assert Entry(a, key, tag) == Entry(b, key, tag);
  }

  /** The report is determined by the events, whatever their order. */
  lemma ReportUnique(events: seq<Event>, other: seq<Event>, a: Report, b: Report)
    requires multiset(events) == multiset(other) && IsReport(a, events) && IsReport(b, other)
    ensures a == b
  {
    SelectPermutes(LacksChoice, events, other);
    SelectPermutes(LacksTag, events, other);
    SameTable(a.byArea, b.byArea, AreaOf, events, other);
    SameTable(a.byNode, b.byNode, NodeOf, events, other);
  }

  lemma SelectPermutes(p: Event -> bool, a: seq<Event>, b: seq<Event>)
    requires multiset(a) == multiset(b)
    ensures |Select(p, a)| == |Select(p, b)|
  {
    SelectUnion(p, a, b, []);
    SameMultiset(Select(p, a), Select(p, b));
  }

  lemma SameTable<K(!new)>(a: Table<K>, b: Table<K>, keyOf: Event -> Option<K>, events: seq<Event>, other: seq<Event>)
    requires multiset(events) == multiset(other) && Tabulates(a, keyOf, events) && Tabulates(b, keyOf, other)
    ensures a == b
  {
    forall key, tag ensures Entry(a, key, tag) == Entry(b, key, tag) {
      SelectPermutes(e => FiledAt(keyOf, key, tag, e), events, other);
    }
    TidyUnique(a, b);
  }

  /** Every wrong answer is counted once: for want of a choice, for want of a tag, or as reported. */
  lemma {:induction false} WrongAnswersAccounted(events: seq<Event>)
    ensures |Select(IsWrong, events)|
            == |Select(LacksChoice, events)| + |Select(LacksTag, events)| + |Select(IsReported, events)|
  {
    if events != [] { WrongAnswersAccounted(events[1..]); }
  }

  ghost function PairCount(events: seq<Event>): ((AreaTag, string)) -> real {
    (pair: (AreaTag, string)) => CountAt(AreaOf, events, pair.0, pair.1) as real
  }

  /** The entries by area sum to the reported events: none is counted twice and none is lost. */
  lemma {:induction false} AreasPartition(events: seq<Event>, pairs: seq<(AreaTag, string)>)
    requires Distinct(pairs)
    requires forall e :: e in events && IsReported(e) ==> (e.area, e.misconception.value) in pairs
    ensures SumOver(PairCount(events), pairs) == |Select(IsReported, events)| as real
  {
    if events == [] {
      SumZero(PairCount(events), pairs);
    } else {
      var n := |events| - 1;
      var front, last := events[..n], events[n];
      assert events == front + [last];
      AreasPartition(front, pairs);
      SelectAppend(IsReported, front, last);
      NextCount(AreaOf, events, n);
      assert events[..n + 1] == events;
      hide CountAt, Select;
      if IsReported(last) {
        SumBumps(PairCount(front), PairCount(events), pairs, (last.area, last.misconception.value), 1.0);
      } else {
        SumAgrees(PairCount(front), PairCount(events), pairs);
      }
    }
  }
}
