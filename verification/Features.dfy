/** Weekly learning features: their extraction from events and their merge with stored weeks. */
module Features {
  import opened Prelude
  import opened Ordering
  import opened Selections
  import opened Sums

  datatype EventType = Solve | Submit | Attend | Consult

  /** A learning event; `day` is the ordinal of its date, 1 being a Monday. */
  datatype LearningEvent = LearningEvent(
    recordId: string, student: string, kind: EventType, day: int, correct: Option<bool>,
    durationSec: Option<nat>, passageWords: Option<nat>, area: Option<string>, typeTag: Option<string>)

  datatype Tags = Tags(area: string, typeTag: string)

  datatype CellStat = CellStat(tags: Tags, n: nat, wrong: nat)

  datatype Week = Week(
    monday: int, solves: nat, accuracy: Option<real>, submitted: bool, normTime: Option<real>, events: nat,
    taggingRate: real, cells: seq<CellStat>, timed: Option<nat>, graded: Option<nat>, expectedAccuracy: Option<real>)

  datatype Student = Student(ref: string, classRef: string, status: string, enrolledWeeks: nat)

  datatype StudentFeatures = StudentFeatures(student: Student, weeks: seq<Week>)

  function MondayOf(day: int): int {
    day - (day + 6) % 7
  }

  // ---- One week ----

  predicate IsSolve(e: LearningEvent) { e.kind.Solve? }
  predicate IsSubmit(e: LearningEvent) { e.kind.Submit? }
  predicate IsGraded(e: LearningEvent) { IsSolve(e) && e.correct.Some? }
  predicate IsRight(e: LearningEvent) { IsSolve(e) && e.correct == Some(true) }
  predicate IsTagged(e: LearningEvent) { IsSolve(e) && e.area.Some? && e.typeTag.Some? }

  /** A solve with a duration and a passage length, neither of them zero. */
  predicate IsTimed(e: LearningEvent) {
    IsSolve(e) && e.durationSec.Some? && e.durationSec.value != 0 && e.passageWords.Some? && e.passageWords.value != 0
  }

  function RatioOf(e: LearningEvent): real {
    if IsTimed(e) then e.durationSec.value as real / e.passageWords.value as real else 0.0
  }

  function TagsOf(e: LearningEvent): Tags
    requires IsTagged(e)
  {
    Tags(e.area.value, e.typeTag.value)
  }

  predicate IsAt(tags: Tags, e: LearningEvent) {
    IsTagged(e) && TagsOf(e) == tags
  }

  predicate IsWrongAt(tags: Tags, e: LearningEvent) {
    IsAt(tags, e) && e.correct == Some(false)
  }

  function Count(p: LearningEvent -> bool, events: seq<LearningEvent>): nat {
    |Select(p, events)|
  }

  predicate TagsLeq(a: Tags, b: Tags) {
    StrLess(a.area, b.area) || (a.area == b.area && StrLeq(a.typeTag, b.typeTag))
  }

  lemma TagsOrder()
    ensures TotalPreorder(TagsLeq) && Antisymmetric(TagsLeq)
  {
    StrOrder();
  }

  function TagsIn(events: seq<LearningEvent>): set<Tags> {
    set e | e in events && IsTagged(e) :: TagsOf(e)
  }

  function CellAt(events: seq<LearningEvent>, tags: Tags): CellStat {
    CellStat(tags, Count(e => IsAt(tags, e), events), Count(e => IsWrongAt(tags, e), events))
  }

  ghost function CellsOf(events: seq<LearningEvent>): seq<CellStat> {
    var order := Arrange(TagsLeq, TagsIn(events));
    seq(|order|, i requires 0 <= i < |order| => CellAt(events, order[i]))
  }

  function Mean(total: real, n: nat): Option<real> {
    if n == 0 then None else Some(total / n as real)
  }

  /** The features of one week as a function of its events, cells in the order of their tags. */
  ghost function WeekOf(monday: int, events: seq<LearningEvent>): Week {
    var solves := Count(IsSolve, events);
    Week(monday, solves,
         Mean(Count(IsRight, events) as real, Count(IsGraded, events)),
         Count(IsSubmit, events) > 0,
         Mean(SumOver(RatioOf, events), Count(IsTimed, events)),
         |events|,
         if solves == 0 then 0.0 else Count(IsTagged, events) as real / solves as real,
         CellsOf(events), Some(Count(IsTimed, events)), Some(Count(IsGraded, events)), None)
  }

  lemma CountGrows(p: LearningEvent -> bool, events: seq<LearningEvent>, e: LearningEvent)
    ensures Count(p, events + [e]) == Count(p, events) + if p(e) then 1 else 0
  {
    SelectAppend(p, events, e);
  }

  lemma CountPermutes(p: LearningEvent -> bool, a: seq<LearningEvent>, b: seq<LearningEvent>)
    requires multiset(a) == multiset(b)
    ensures Count(p, a) == Count(p, b)
  {
    SelectUnion(p, a, b, []);
    SameMultiset(Select(p, a), Select(p, b));
  }

  lemma CellPermutes(a: seq<LearningEvent>, b: seq<LearningEvent>, tags: Tags)
    requires multiset(a) == multiset(b)
    ensures CellAt(a, tags) == CellAt(b, tags)
  {
    CountPermutes(e => IsAt(tags, e), a, b);
    CountPermutes(e => IsWrongAt(tags, e), a, b);
  }

  lemma CellsPermute(a: seq<LearningEvent>, b: seq<LearningEvent>)
    requires multiset(a) == multiset(b)
    ensures CellsOf(a) == CellsOf(b)
  {
    hide CellAt, Arrange, IsTagged, TagsOf;
    SameMultiset(a, b);
    assert TagsIn(a) == TagsIn(b);
    forall tags ensures CellAt(a, tags) == CellAt(b, tags) { CellPermutes(a, b, tags); }
    assert |CellsOf(a)| == |CellsOf(b)|;
    assert forall i :: 0 <= i < |CellsOf(a)| ==> CellsOf(a)[i] == CellsOf(b)[i];
  }

  /** The order of a week's events does not matter. */
  lemma WeekPermutes(monday: int, a: seq<LearningEvent>, b: seq<LearningEvent>)
    requires multiset(a) == multiset(b)
    ensures WeekOf(monday, a) == WeekOf(monday, b)
  {
    hide CellsOf, Count, SumOver, Mean;
    SameMultiset(a, b);
    CountPermutes(IsSolve, a, b);
    CountPermutes(IsRight, a, b);
    CountPermutes(IsGraded, a, b);
    CountPermutes(IsSubmit, a, b);
    CountPermutes(IsTimed, a, b);
    CountPermutes(IsTagged, a, b);
    SumPermutes(RatioOf, a, b);
    CellsPermute(a, b);
  }

  /** What a dictionary of counts says of a tag pair. */
  function Bucket(counts: map<Tags, (nat, nat)>, tags: Tags): CellStat {
    if tags in counts then CellStat(tags, counts[tags].0, counts[tags].1) else CellStat(tags, 0, 0)
  }

  lemma NextTags(events: seq<LearningEvent>, i: nat)
    requires i < |events|
    ensures TagsIn(events[..i + 1]) == TagsIn(events[..i]) + if IsTagged(events[i]) then {TagsOf(events[i])} else {}
  {
    assert forall x :: x in events[..i + 1] <==> x in events[..i] || x == events[i];
  }

  lemma NextCell(events: seq<LearningEvent>, i: nat, tags: Tags)
    requires i < |events|
    ensures var before, e := CellAt(events[..i], tags), events[i];
      CellAt(events[..i + 1], tags)
      == CellStat(tags, before.n + (if IsAt(tags, e) then 1 else 0), before.wrong + if IsWrongAt(tags, e) then 1 else 0)
  {
    assert events[..i + 1] == events[..i] + [events[i]];
    CountGrows(x => IsAt(tags, x), events[..i], events[i]);
    CountGrows(x => IsWrongAt(tags, x), events[..i], events[i]);
  }

  /** Counts per tag pair, kept in a dictionary that is filled event by event. */
  method CountCells(events: seq<LearningEvent>) returns (counts: map<Tags, (nat, nat)>)
    ensures counts.Keys == TagsIn(events)
    ensures forall tags :: tags in counts ==> CellStat(tags, counts[tags].0, counts[tags].1) == CellAt(events, tags)
  {
    counts := map[];
    for i := 0 to |events|
      invariant counts.Keys == TagsIn(events[..i])
      invariant forall tags :: CellAt(events[..i], tags) == Bucket(counts, tags)
    {
      hide CellAt, TagsIn;
      var e := events[i];
      NextTags(events, i);
      ghost var before := counts;
      if IsTagged(e) {
        var bucket := if TagsOf(e) in counts then counts[TagsOf(e)] else (0, 0);
        counts := counts[TagsOf(e) := (bucket.0 + 1, bucket.1 + if e.correct == Some(false) then 1 else 0)];
      }
      forall tags ensures CellAt(events[..i + 1], tags) == Bucket(counts, tags) {
        assert CellAt(events[..i], tags) == Bucket(before, tags);
        NextCell(events, i, tags);
      }
    }
    assert events[..|events|] == events;
    assert forall tags :: CellAt(events, tags) == Bucket(counts, tags);
  }

  method CellsInOrder(events: seq<LearningEvent>) returns (cells: seq<CellStat>)
    ensures cells == CellsOf(events)
  {
    hide CellAt, Arrange, IsTagged, TagsOf;
    TagsOrder();
    var counts := CountCells(events);
    var order := SortedListing(TagsLeq, counts.Keys);
    ArrangeSorts(TagsLeq, counts.Keys);
    cells := [];
    for i := 0 to |order|
      invariant |cells| == i
      invariant forall j :: 0 <= j < i ==> cells[j] == CellAt(events, order[j])
    {
      assert order[i] in counts;
      cells := cells + [CellStat(order[i], counts[order[i]].0, counts[order[i]].1)];
    }
    assert cells == CellsOf(events);
  }

  lemma NextCount(p: LearningEvent -> bool, events: seq<LearningEvent>, i: nat)
    requires i < |events|
    ensures Count(p, events[..i + 1]) == Count(p, events[..i]) + if p(events[i]) then 1 else 0
  {
    assert events[..i + 1] == events[..i] + [events[i]];
    CountGrows(p, events[..i], events[i]);
  }

  lemma NextRatio(events: seq<LearningEvent>, i: nat)
    requires i < |events|
    ensures SumOver(RatioOf, events[..i + 1]) == SumOver(RatioOf, events[..i]) + RatioOf(events[i])
  {
    assert events[..i + 1] == events[..i] + [events[i]];
    SumGrows(events[..i], events[i]);
  }

  /** `_week_features`: the sums are accumulated over the events, the cells kept in a dictionary. */
  method WeekFeatures(monday: int, events: seq<LearningEvent>) returns (week: Week)
    ensures week == WeekOf(monday, events)
  {
    var solves, right, graded, submits, timed, tagged, ratios := 0, 0, 0, 0, 0, 0, 0.0;
    for i := 0 to |events|
      invariant solves == Count(IsSolve, events[..i]) && submits == Count(IsSubmit, events[..i])
      invariant right == Count(IsRight, events[..i]) && graded == Count(IsGraded, events[..i])
      invariant timed == Count(IsTimed, events[..i]) && ratios == SumOver(RatioOf, events[..i])
      invariant tagged == Count(IsTagged, events[..i])
    {
      var e := events[i];
      NextCount(IsSolve, events, i);
      NextCount(IsSubmit, events, i);
      NextCount(IsGraded, events, i);
      NextCount(IsRight, events, i);
      NextCount(IsTimed, events, i);
      NextCount(IsTagged, events, i);
      NextRatio(events, i);
      hide Count, SumOver;
      if IsSolve(e) { solves := solves + 1; }
      if IsSubmit(e) { submits := submits + 1; }
      if IsGraded(e) { graded := graded + 1; }
      if IsRight(e) { right := right + 1; }
      if IsTimed(e) { timed, ratios := timed + 1, ratios + RatioOf(e); }
      if IsTagged(e) { tagged := tagged + 1; }
    }
    assert events[..|events|] == events;
    var cells := CellsInOrder(events);
    week := Week(
      monday, solves, Mean(right as real, graded), submits > 0, Mean(ratios, timed), |events|,
      if solves == 0 then 0.0 else tagged as real / solves as real, cells, Some(timed), Some(graded), None);
  }

  // ---- Timelines ----

  predicate IntLeq(a: int, b: int) { a <= b }

  predicate WeekLeq(a: Week, b: Week) { a.monday <= b.monday }

  ghost predicate StrictlySorted(weeks: seq<Week>) {
    forall i, j :: 0 <= i < j < |weeks| ==> weeks[i].monday < weeks[j].monday
  }

  /** Each week is filed under its own Monday. */
  ghost predicate Keyed(m: map<int, Week>) {
    forall k :: k in m ==> m[k].monday == k
  }

  /** Weeks filed by Monday; a later week replaces an earlier one. */
  function ByWeek(weeks: seq<Week>): map<int, Week> {
    if weeks == [] then map[]
    else
      var last := weeks[|weeks| - 1];
      ByWeek(weeks[..|weeks| - 1])[last.monday := last]
  }

  lemma {:induction false} ByWeekFiles(weeks: seq<Week>)
    ensures Keyed(ByWeek(weeks))
    ensures forall k :: k in ByWeek(weeks) ==> ByWeek(weeks)[k] in weeks
    ensures forall week :: week in weeks ==> week.monday in ByWeek(weeks)
  {
    if weeks != [] {
      var front, last := weeks[..|weeks| - 1], weeks[|weeks| - 1];
      assert weeks == front + [last];
      ByWeekFiles(front);
    }
  }

  /** The weeks of a dictionary in a given order of its keys. */
  function InOrder(m: map<int, Week>, order: seq<int>): seq<Week>
    requires forall i :: 0 <= i < |order| ==> order[i] in m
  {
    seq(|order|, i requires 0 <= i < |order| => m[order[i]])
  }

  lemma KeysInOrder(m: map<int, Week>)
    ensures var order := Arrange(IntLeq, m.Keys);
      && |order| == |m| && Sorted(IntLeq, order) && Distinct(order)
      && (forall i :: 0 <= i < |order| ==> order[i] in m)
      && (forall k :: k in m ==> k in order)
  {
    ArrangeSorts(IntLeq, m.Keys);
    var order := Arrange(IntLeq, m.Keys);
    hide Arrange;
    assert |m| == |m.Keys|;
    forall i | 0 <= i < |order| ensures order[i] in m { assert order[i] in order; }
  }

  /** The weeks of a dictionary from past to recent. */
  ghost function Timeline(m: map<int, Week>): seq<Week> {
    KeysInOrder(m);
    InOrder(m, Arrange(IntLeq, m.Keys))
  }

  lemma TimelineHolds(m: map<int, Week>)
    ensures |Timeline(m)| == |m|
    ensures forall week :: week in Timeline(m) <==> exists k :: k in m && m[k] == week
  {
    KeysInOrder(m);
    var order, r := Arrange(IntLeq, m.Keys), Timeline(m);
    hide Arrange;
    forall k | k in m ensures m[k] in r {
      var i :| 0 <= i < |order| && order[i] == k;
      assert r[i] == m[k];
    }
  }

  /** `merge_weeks` as a function: of two weeks with one Monday the current one wins. */
  ghost function Merged(stored: seq<Week>, current: seq<Week>): seq<Week> {
    Timeline(ByWeek(stored) + ByWeek(current))
  }

  lemma TimelineIsSorted(m: map<int, Week>)
    requires Keyed(m)
    ensures StrictlySorted(Timeline(m))
  {
    var order := Arrange(IntLeq, m.Keys);
    KeysInOrder(m);
    hide Arrange;
    forall i, j | 0 <= i < j < |order| ensures Timeline(m)[i].monday < Timeline(m)[j].monday {
      assert IntLeq(order[i], order[j]) && order[i] != order[j];
    }
  }

  /** A dictionary and its timeline hold the same information. */
  lemma TimelineRoundTrip(m: map<int, Week>)
    requires Keyed(m)
    ensures ByWeek(Timeline(m)) == m
  {
    var back := ByWeek(Timeline(m));
    ByWeekFiles(Timeline(m));
    TimelineHolds(m);
    hide Timeline, ByWeek;
    forall k ensures k in back <==> k in m {
      if k in back { assert back[k] in Timeline(m); }
      if k in m { assert m[k] in Timeline(m); }
    }
    forall k | k in back ensures back[k] == m[k] { assert back[k] in Timeline(m); }
  }

  lemma SortedHolds(a: seq<Week>, week: Week)
    requires StrictlySorted(a)
    ensures week in a <==> week.monday in ByWeek(a) && ByWeek(a)[week.monday] == week
  {
    ByWeekFiles(a);
    if week in a {
      assert ByWeek(a)[week.monday] in a;
    }
  }

  /** The last week of a sorted timeline is the latest; the others are those of other Mondays. */
  lemma LastIsLatest(a: seq<Week>)
    requires StrictlySorted(a) && a != []
    ensures var n := |a| - 1;
      && StrictlySorted(a[..n]) && a[n] in a
      && (forall week :: week in a ==> week.monday <= a[n].monday && (week.monday == a[n].monday ==> week == a[n]))
      && (forall week :: week in a[..n] <==> week in a && week.monday != a[n].monday)
  {
    var n := |a| - 1;
    assert a == a[..n] + [a[n]];
  }

  lemma {:induction false} SortedSameWeeks(a: seq<Week>, b: seq<Week>)
    requires StrictlySorted(a) && StrictlySorted(b) && forall week :: week in a <==> week in b
    ensures a == b
  {
    hide StrictlySorted;
    assert a != [] ==> a[0] in a;
    assert b != [] ==> b[0] in b;
    if a != [] && b != [] {
      var n, m := |a| - 1, |b| - 1;
      LastIsLatest(a);
      LastIsLatest(b);
      assert a[n] == b[m] by { assert a[n] in b && b[m] in a; }
      SortedSameWeeks(a[..n], b[..m]);
      assert a == a[..n] + [a[n]] && b == b[..m] + [b[m]];
    }
  }

  /** Two strictly sorted timelines of the same dictionary are the same. */
  lemma SortedTimelineUnique(a: seq<Week>, b: seq<Week>)
    requires StrictlySorted(a) && StrictlySorted(b) && ByWeek(a) == ByWeek(b)
    ensures a == b
  {
    forall week ensures week in a <==> week in b {
      SortedHolds(a, week);
      SortedHolds(b, week);
    }
    SortedSameWeeks(a, b);
  }

  lemma {:induction false} ByWeekConcat(a: seq<Week>, b: seq<Week>)
    ensures ByWeek(a + b) == ByWeek(a) + ByWeek(b)
  {
    if b == [] {
      assert a + b == a;
    } else {
      var n := |b| - 1;
      assert (a + b)[..|a + b| - 1] == a + b[..n];
      ByWeekConcat(a, b[..n]);
    }
  }

  /** Main result: the merge is strictly sorted and holds exactly the current weeks and the stored weeks that they do
      not replace. */
  lemma MergeIsRightBiased(stored: seq<Week>, current: seq<Week>)
    ensures StrictlySorted(Merged(stored, current))
    ensures ByWeek(Merged(stored, current)) == ByWeek(stored) + ByWeek(current)
  {
    ByWeekFiles(stored);
    ByWeekFiles(current);
    TimelineIsSorted(ByWeek(stored) + ByWeek(current));
    TimelineRoundTrip(ByWeek(stored) + ByWeek(current));
  }

  lemma MergeIsIdempotent(a: seq<Week>)
    requires StrictlySorted(a)
    ensures Merged(a, a) == a && Merged(a, []) == a && Merged([], a) == a
  {
    MergeIsRightBiased(a, []);
    SortedTimelineUnique(Merged(a, []), a);
    hide Timeline, StrictlySorted;
    assert ByWeek(a) + ByWeek(a) == ByWeek(a) == ByWeek(a) + ByWeek([]) == ByWeek([]) + ByWeek(a);
  }

  lemma UnionAssociates<K, V>(a: map<K, V>, b: map<K, V>, c: map<K, V>)
    ensures (a + b) + c == a + (b + c)
  {
  }

  lemma MergedIs(stored: seq<Week>, current: seq<Week>)
    ensures Merged(stored, current) == Timeline(ByWeek(stored) + ByWeek(current))
  {
  }

  /** Main result: merging is associative on all inputs, and on timelines idempotent with the empty one neutral. */
  lemma MergeLaws(a: seq<Week>, b: seq<Week>, c: seq<Week>)
    ensures Merged(Merged(a, b), c) == Merged(a, Merged(b, c))
    ensures StrictlySorted(a) ==> Merged(a, a) == a && Merged(a, []) == a && Merged([], a) == a
  {
    hide *;
    calc {
      Merged(Merged(a, b), c);
      { MergedIs(Merged(a, b), c); MergeIsRightBiased(a, b); }
      Timeline((ByWeek(a) + ByWeek(b)) + ByWeek(c));
      { UnionAssociates(ByWeek(a), ByWeek(b), ByWeek(c)); }
      Timeline(ByWeek(a) + (ByWeek(b) + ByWeek(c)));
      { MergedIs(a, Merged(b, c)); MergeIsRightBiased(b, c); }
      Merged(a, Merged(b, c));
    }
    if StrictlySorted(a) { MergeIsIdempotent(a); }
  }

  /** A listing of a dictionary of weeks, key by key. */
  ghost predicate Lists(order: seq<int>, m: map<int, Week>, values: seq<Week>) {
    && multiset(order) == multiset(m.Keys)
    && |values| == |order|
    && forall i :: 0 <= i < |order| ==> order[i] in m && values[i] == m[order[i]]
  }

  lemma ListedOnce(order: seq<int>, m: map<int, Week>, values: seq<Week>)
    requires Keyed(m) && Lists(order, m, values)
    ensures Distinct(values)
    ensures forall week: Week :: week in values <==> week.monday in m && m[week.monday] == week
  {
    DistinctMultiset(order);
    assert forall k :: multiset(m.Keys)[k] <= 1;
    assert forall i :: 0 <= i < |values| ==> values[i].monday == order[i];
    forall week: Week | week.monday in m && m[week.monday] == week ensures week in values {
      assert week.monday in multiset(order);
      var i :| 0 <= i < |order| && order[i] == week.monday;
      assert week == values[i];
    }
  }

  lemma ValuesAreSorted(m: map<int, Week>, values: seq<Week>)
    requires Keyed(m) && Distinct(values)
    requires forall week: Week :: week in values <==> week.monday in m && m[week.monday] == week
    ensures SortBy(WeekLeq, values) == Timeline(m)
  {
    hide SortBy, Timeline;
    var r := SortBy(WeekLeq, values);
    SortBySorts(WeekLeq, values);
    DistinctMultiset(values);
    DistinctMultiset(r);
    forall i, j | 0 <= i < j < |r| ensures r[i].monday < r[j].monday {
      assert r[i] in values && r[j] in values && r[i] != r[j];
      assert WeekLeq(r[i], r[j]);
    }
    TimelineIsSorted(m);
    TimelineHolds(m);
    SortedSameWeeks(r, Timeline(m));
  }

  /** The weeks of a dictionary, each once, in some order. */
  method ValuesOf(m: map<int, Week>) returns (values: seq<Week>)
    requires Keyed(m)
    ensures Distinct(values)
    ensures forall week: Week :: week in values <==> week.monday in m && m[week.monday] == week
  {
    var keys := Listing(m.Keys);
    forall i | 0 <= i < |keys| ensures keys[i] in m { assert keys[i] in multiset(keys); }
    values := [];
    for n := 0 to |keys|
      invariant |values| == n
      invariant forall i :: 0 <= i < n ==> values[i] == m[keys[i]]
    {
      values := values + [m[keys[n]]];
    }
    ListedOnce(keys, m, values);
  }

  /** `merge_weeks`: a dictionary by Monday, filled from the stored and then from the current weeks, and sorted. */
  method MergeWeeks(stored: seq<Week>, current: seq<Week>) returns (r: seq<Week>)
    ensures r == Merged(stored, current)
  {
    hide SortBy, Timeline;
    var byWeek: map<int, Week> := map[];
    for i := 0 to |stored|
      invariant byWeek == ByWeek(stored[..i])
    {
      assert stored[..i + 1][..i] == stored[..i];
      byWeek := byWeek[stored[i].monday := stored[i]];
    }
    assert stored[..|stored|] == stored;
    for i := 0 to |current|
      invariant byWeek == ByWeek(stored) + ByWeek(current[..i])
    {
      assert current[..i + 1][..i] == current[..i];
      byWeek := byWeek[current[i].monday := current[i]];
    }
    assert current[..|current|] == current;
    ByWeekFiles(stored);
    ByWeekFiles(current);
    var values := ValuesOf(byWeek);
    ValuesAreSorted(byWeek, values);
    r := SortBy(WeekLeq, values);
  }

  // ---- Extraction ----

  predicate InWeek(student: string, monday: int, e: LearningEvent) {
    e.student == student && MondayOf(e.day) == monday
  }

  function WeekEvents(events: seq<LearningEvent>, student: string, monday: int): seq<LearningEvent> {
    Select(e => InWeek(student, monday, e), events)
  }

  function Mondays(events: seq<LearningEvent>, student: string): set<int> {
    set e | e in events && e.student == student :: MondayOf(e.day)
  }

  ghost function WeekMap(events: seq<LearningEvent>, student: string): map<int, Week> {
    map m | m in Mondays(events, student) :: WeekOf(m, WeekEvents(events, student, m))
  }

  /** The weeks extracted for one student: one for each Monday with an event, from past to recent. */
  ghost function WeeksOf(events: seq<LearningEvent>, student: string): seq<Week> {
    Timeline(WeekMap(events, student))
  }

  /** No week of a student has events in both batches. */
  ghost predicate ShareNoWeek(a: seq<LearningEvent>, b: seq<LearningEvent>) {
    forall e, f :: e in a && f in b ==> !(e.student == f.student && MondayOf(e.day) == MondayOf(f.day))
  }

  lemma WeekIsInOneBatch(
    whole: seq<LearningEvent>, a: seq<LearningEvent>, b: seq<LearningEvent>, student: string, m: int)
    requires multiset(whole) == multiset(a) + multiset(b) && ShareNoWeek(a, b)
    ensures m in Mondays(b, student) ==>
              WeekOf(m, WeekEvents(whole, student, m)) == WeekOf(m, WeekEvents(b, student, m))
    ensures m in Mondays(a, student) ==> m !in Mondays(b, student)
    ensures m in Mondays(a, student) ==>
              WeekOf(m, WeekEvents(whole, student, m)) == WeekOf(m, WeekEvents(a, student, m))
  {
    hide WeekOf, Select;
    var p := e => InWeek(student, m, e);
    SelectUnion(p, whole, a, b);
    if m in Mondays(b, student) {
      SelectNone(p, a);
      WeekPermutes(m, WeekEvents(whole, student, m), WeekEvents(b, student, m));
    }
    if m in Mondays(a, student) {
      SelectNone(p, b);
      WeekPermutes(m, WeekEvents(whole, student, m), WeekEvents(a, student, m));
    }
  }

  lemma BatchMaps(whole: seq<LearningEvent>, a: seq<LearningEvent>, b: seq<LearningEvent>, student: string)
    requires multiset(whole) == multiset(a) + multiset(b) && ShareNoWeek(a, b)
    ensures WeekMap(whole, student) == WeekMap(a, student) + WeekMap(b, student)
  {
    hide WeekOf, WeekEvents, ShareNoWeek;
    assert Mondays(whole, student) == Mondays(a, student) + Mondays(b, student) by {
      assert forall e :: e in whole <==> e in multiset(whole);
      assert forall e :: e in a <==> e in multiset(a);
      assert forall e :: e in b <==> e in multiset(b);
    }
    forall m ensures m in WeekMap(whole, student) ==>
                       WeekMap(whole, student)[m] == (WeekMap(a, student) + WeekMap(b, student))[m]
    {
      WeekIsInOneBatch(whole, a, b, student, m);
    }
  }

  lemma WeeksRoundTrip(events: seq<LearningEvent>, student: string)
    ensures ByWeek(WeeksOf(events, student)) == WeekMap(events, student)
    ensures StrictlySorted(WeeksOf(events, student))
  {
    hide Mondays, WeekEvents, Timeline;
    TimelineRoundTrip(WeekMap(events, student));
    TimelineIsSorted(WeekMap(events, student));
  }

  /** Main result: two batches without a common week, extracted apart and merged, give the weeks of the whole, whatever
      the order of the events. */
  lemma IncrementalEqualsBulk(
    whole: seq<LearningEvent>, a: seq<LearningEvent>, b: seq<LearningEvent>, student: string)
    requires multiset(whole) == multiset(a) + multiset(b) && ShareNoWeek(a, b)
    ensures Merged(WeeksOf(a, student), WeeksOf(b, student)) == WeeksOf(whole, student)
  {
    hide *;
    WeeksRoundTrip(a, student);
    WeeksRoundTrip(b, student);
    BatchMaps(whole, a, b, student);
    MergedIs(WeeksOf(a, student), WeeksOf(b, student));
    WeeksAre(whole, student);
  }

  lemma WeeksAre(events: seq<LearningEvent>, student: string)
    ensures WeeksOf(events, student) == Timeline(WeekMap(events, student))
  {
  }

  function Flatten(batches: seq<seq<LearningEvent>>): seq<LearningEvent> {
    if batches == [] then [] else Flatten(batches[..|batches| - 1]) + batches[|batches| - 1]
  }

  /** Batches extracted and merged one after another into what was stored before. */
  ghost function MergedBatches(batches: seq<seq<LearningEvent>>, student: string): seq<Week> {
    if batches == [] then []
    else Merged(MergedBatches(batches[..|batches| - 1], student), WeeksOf(batches[|batches| - 1], student))
  }

  lemma {:induction false} FlattenHolds(batches: seq<seq<LearningEvent>>, e: LearningEvent)
    requires e in Flatten(batches)
    ensures exists i :: 0 <= i < |batches| && e in batches[i]
  {
    var n := |batches| - 1;
    if e !in batches[n] {
      FlattenHolds(batches[..n], e);
      var i :| 0 <= i < n && e in batches[..n][i];
      assert e in batches[i];
    }
  }

  lemma LastSharesNoWeek(batches: seq<seq<LearningEvent>>)
    requires batches != []
    requires forall i, j :: 0 <= i < j < |batches| ==> ShareNoWeek(batches[i], batches[j])
    ensures ShareNoWeek(Flatten(batches[..|batches| - 1]), batches[|batches| - 1])
  {
    hide MondayOf, Flatten;
    var n := |batches| - 1;
    forall e, f | e in Flatten(batches[..n]) && f in batches[n]
      ensures !(e.student == f.student && MondayOf(e.day) == MondayOf(f.day))
    {
      FlattenHolds(batches[..n], e);
      var i :| 0 <= i < n && e in batches[..n][i];
      assert ShareNoWeek(batches[i], batches[n]);
    }
  }

  /** Main result: the same for any number of batches. */
  lemma {:induction false} ManyBatches(batches: seq<seq<LearningEvent>>, student: string)
    requires forall i, j :: 0 <= i < j < |batches| ==> ShareNoWeek(batches[i], batches[j])
    ensures MergedBatches(batches, student) == WeeksOf(Flatten(batches), student)
  {
    if batches == [] {
      assert WeekMap([], student) == map[];
      TimelineHolds(map[]);
    } else {
      var n := |batches| - 1;
      var front := batches[..n];
      assert Flatten(batches) == Flatten(front) + batches[n];
      assert MergedBatches(batches, student) == Merged(MergedBatches(front, student), WeeksOf(batches[n], student));
      LastSharesNoWeek(batches);
      hide *;
      ManyBatches(front, student);
      IncrementalEqualsBulk(Flatten(batches), Flatten(front), batches[n], student);
    }
  }

  // ---- Stored weeks keep only part of a week ----

  /** What a stored week can give back: cells, sample sizes and the expected accuracy are not stored. */
  function Restore(week: Week): Week {
    week.(cells := [], timed := None, graded := None, expectedAccuracy := None)
  }

  function RestoreAll(weeks: seq<Week>): seq<Week> {
    seq(|weeks|, i requires 0 <= i < |weeks| => Restore(weeks[i]))
  }

  function RestoreMap(m: map<int, Week>): map<int, Week> {
    map k | k in m :: Restore(m[k])
  }

  lemma {:induction false} RestoreFiles(weeks: seq<Week>)
    ensures ByWeek(RestoreAll(weeks)) == RestoreMap(ByWeek(weeks))
  {
    if weeks != [] {
      var n := |weeks| - 1;
      assert RestoreAll(weeks)[..n] == RestoreAll(weeks[..n]);
      RestoreFiles(weeks[..n]);
    }
  }

  lemma RestoreTwice(a: map<int, Week>, b: map<int, Week>)
    ensures RestoreMap(RestoreMap(a) + b) == RestoreMap(a + b)
  {
    var left, right := RestoreMap(RestoreMap(a) + b), RestoreMap(a + b);
    assert left.Keys == right.Keys;
    forall k | k in left ensures left[k] == right[k] {
      if k !in b { assert left[k] == Restore(Restore(a[k])); }
    }
  }

  /** Merging into restored weeks loses nothing but what storing had lost. */
  lemma MergeRestored(stored: seq<Week>, current: seq<Week>)
    ensures RestoreAll(Merged(RestoreAll(stored), current)) == RestoreAll(Merged(stored, current))
  {
    var a, b := Merged(RestoreAll(stored), current), Merged(stored, current);
    MergeIsRightBiased(RestoreAll(stored), current);
    MergeIsRightBiased(stored, current);
    RestoreFiles(stored);
    RestoreFiles(a);
    RestoreFiles(b);
    hide Merged, ByWeek;
    RestoreTwice(ByWeek(stored), ByWeek(current));
    SortedTimelineUnique(RestoreAll(a), RestoreAll(b));
  }

  /** Main result: a stored past and a new batch give, in all that is stored, the weeks of the whole. */
  lemma StoredIncrementEqualsBulk(
    whole: seq<LearningEvent>, past: seq<LearningEvent>, batch: seq<LearningEvent>, student: string)
    requires multiset(whole) == multiset(past) + multiset(batch) && ShareNoWeek(past, batch)
    ensures RestoreAll(Merged(RestoreAll(WeeksOf(past, student)), WeeksOf(batch, student)))
         == RestoreAll(WeeksOf(whole, student))
  {
    hide *;
    MergeRestored(WeeksOf(past, student), WeeksOf(batch, student));
    IncrementalEqualsBulk(whole, past, batch, student);
  }

  // ---- `extract_features` ----

  /** The events of one student, grouped by Monday. */
  ghost predicate Groups(weeks: map<int, seq<LearningEvent>>, events: seq<LearningEvent>, student: string) {
    && weeks.Keys == Mondays(events, student)
    && forall m :: m in weeks ==> weeks[m] == WeekEvents(events, student, m)
  }

  function Lookup<K, V>(m: map<K, map<int, V>>, k: K): map<int, V> {
    if k in m then m[k] else map[]
  }

  lemma NextEvent(events: seq<LearningEvent>, i: nat, student: string)
    requires i < |events|
    ensures var e := events[i];
      && Mondays(events[..i + 1], student)
         == Mondays(events[..i], student) + (if e.student == student then {MondayOf(e.day)} else {})
      && (forall m :: WeekEvents(events[..i + 1], student, m)
                      == WeekEvents(events[..i], student, m) + if InWeek(student, m, e) then [e] else [])
      && (forall m :: m !in Mondays(events[..i], student) ==> WeekEvents(events[..i], student, m) == [])
  {
    hide MondayOf;
    var e := events[i];
    assert events[..i + 1] == events[..i] + [e];
    assert forall x :: x in events[..i + 1] <==> x in events[..i] || x == e;
    forall m ensures WeekEvents(events[..i + 1], student, m)
                     == WeekEvents(events[..i], student, m) + if InWeek(student, m, e) then [e] else []
    {
      SelectAppend(x => InWeek(student, m, x), events[..i], e);
    }
    forall m | m !in Mondays(events[..i], student) ensures WeekEvents(events[..i], student, m) == [] {
      SelectNone(x => InWeek(student, m, x), events[..i]);
    }
  }

  lemma OthersStayGrouped(weeks: map<int, seq<LearningEvent>>, events: seq<LearningEvent>, i: nat, student: string)
    requires i < |events| && events[i].student != student && Groups(weeks, events[..i], student)
    ensures Groups(weeks, events[..i + 1], student)
  {
    hide MondayOf, Mondays, WeekEvents;
    NextEvent(events, i, student);
    forall m | m in weeks ensures weeks[m] == WeekEvents(events[..i + 1], student, m) {
      assert WeekEvents(events[..i], student, m) + [] == WeekEvents(events[..i], student, m);
    }
  }

  lemma EventJoinsGroup(weeks: map<int, seq<LearningEvent>>, events: seq<LearningEvent>, i: nat)
    requires i < |events| && Groups(weeks, events[..i], events[i].student)
    ensures var monday := MondayOf(events[i].day);
      Groups(weeks[monday := (if monday in weeks then weeks[monday] else []) + [events[i]]],
             events[..i + 1], events[i].student)
  {
    hide MondayOf, Mondays, WeekEvents;
    var student, monday := events[i].student, MondayOf(events[i].day);
    NextEvent(events, i, student);
    forall m ensures WeekEvents(events[..i], student, m) + [] == WeekEvents(events[..i], student, m) {}
  }

  /** Events grouped by student and Monday. */
  method GroupByWeek(events: seq<LearningEvent>) returns (grouped: map<string, map<int, seq<LearningEvent>>>)
    ensures forall student :: Groups(Lookup(grouped, student), events, student)
  {
    hide MondayOf, Groups;
    grouped := map[];
    forall student ensures Groups(map[], events[..0], student) { NothingGrouped(events, student); }
    for i := 0 to |events|
      invariant forall student :: Groups(Lookup(grouped, student), events[..i], student)
    {
      var e := events[i];
      var weeks := Lookup(grouped, e.student);
      forall student | student != e.student ensures Groups(Lookup(grouped, student), events[..i + 1], student) {
        OthersStayGrouped(Lookup(grouped, student), events, i, student);
      }
      EventJoinsGroup(weeks, events, i);
      var monday := MondayOf(e.day);
      ghost var before := grouped;
      grouped := grouped[e.student := weeks[monday := (if monday in weeks then weeks[monday] else []) + [e]]];
      assert forall student :: student != e.student ==> Lookup(grouped, student) == Lookup(before, student);
    }
    assert events[..|events|] == events;
  }

  lemma NothingGrouped(events: seq<LearningEvent>, student: string)
    ensures Groups(map[], events[..0], student)
  {
  }

  method WeeksInOrder(events: seq<LearningEvent>, student: string, grouped: map<int, seq<LearningEvent>>)
    returns (weeks: seq<Week>)
    requires Groups(grouped, events, student)
    ensures weeks == WeeksOf(events, student)
  {
    hide WeekOf, WeekEvents, Mondays, Arrange;
    var order := SortedListing(IntLeq, grouped.Keys);
    ArrangeSorts(IntLeq, grouped.Keys);
    weeks := [];
    for i := 0 to |order|
      invariant |weeks| == i
      invariant forall j :: 0 <= j < i ==> order[j] in grouped && weeks[j] == WeekOf(order[j], grouped[order[j]])
    {
      assert order[i] in grouped;
      var week := WeekFeatures(order[i], grouped[order[i]]);
      weeks := weeks + [week];
    }
    assert WeekMap(events, student).Keys == grouped.Keys;
    assert weeks == WeeksOf(events, student);
  }

  /** Of several entries with one reference, the last. */
  function LastWith(students: seq<Student>, ref: string): Option<Student> {
    if students == [] then None
    else
      var last := students[|students| - 1];
      if last.ref == ref then Some(last) else LastWith(students[..|students| - 1], ref)
  }

  /** Every student of the request gets the weeks of its events; of two entries with one reference the later counts. */
  method ExtractFeatures(students: seq<Student>, events: seq<LearningEvent>)
    returns (features: map<string, StudentFeatures>)
    ensures forall ref :: ref in features <==> LastWith(students, ref).Some?
    ensures forall ref :: ref in features ==>
              features[ref] == StudentFeatures(LastWith(students, ref).value, WeeksOf(events, ref))
  {
    hide WeeksOf, Groups;
    var grouped := GroupByWeek(events);
    features := map[];
    for n := 0 to |students|
      invariant forall ref :: ref in features <==> LastWith(students[..n], ref).Some?
      invariant forall ref :: ref in features ==>
                  features[ref] == StudentFeatures(LastWith(students[..n], ref).value, WeeksOf(events, ref))
    {
      var student := students[n];
      assert students[..n + 1][..n] == students[..n];
      var weeks := WeeksInOrder(events, student.ref, Lookup(grouped, student.ref));
      features := features[student.ref := StudentFeatures(student, weeks)];
    }
    assert students[..|students|] == students;
  }

  // ---- What a week tells, read off the events ----

  /** The bucket of a day is the one Monday that the day follows by less than a week. */
  lemma MondayIs(day: int, monday: int)
    ensures MondayOf(day) == monday <==> monday <= day < monday + 7 && monday % 7 == 1
  {
  }

  /** Solved, with an answer that was graded as this. */
  function GradedAs(right: bool): LearningEvent -> bool {
    (e: LearningEvent) => e.kind.Solve? && e.correct == Some(right)
  }

  /** Solved with both tags, these if they are given. */
  function TaggedAs(tags: Option<Tags>): LearningEvent -> bool {
    (e: LearningEvent) => e.kind.Solve? && e.area.Some? && e.typeTag.Some?
                          && (tags.Some? ==> tags.value == Tags(e.area.value, e.typeTag.value))
  }

  /** Solved in some time on a passage of some length. */
  function Clocked(): LearningEvent -> bool {
    (e: LearningEvent) => e.kind.Solve? && e.durationSec.Some? && e.durationSec.value > 0
                          && e.passageWords.Some? && e.passageWords.value > 0
  }

  function SecondsPerWord(): LearningEvent -> real {
    (e: LearningEvent) => if Clocked()(e) then e.durationSec.value as real / e.passageWords.value as real else 0.0
  }

  function HowMany(p: LearningEvent -> bool, events: seq<LearningEvent>): nat {
    |Select(p, events)|
  }

  /** The mean of a total over a number of events, absent if there are none. */
  predicate IsMean(mean: Option<real>, total: real, n: nat) {
    if n == 0 then mean.None? else mean.Some? && mean.value * n as real == total
  }

  lemma {:induction false} GradedSplit(events: seq<LearningEvent>)
    ensures Count(IsGraded, events) == HowMany(GradedAs(true), events) + HowMany(GradedAs(false), events)
  {
    if events != [] {
      GradedSplit(events[1..]);
      SelectTail(IsGraded, events);
      SelectTail(GradedAs(true), events);
      SelectTail(GradedAs(false), events);
      hide Select;
      var e := events[0];
      assert e.correct.Some? ==> e.correct == Some(true) || e.correct == Some(false) by {
        if e.correct.Some? {
          if e.correct.value { assert e.correct == Some(true); } else { assert e.correct == Some(false); }
        }
      }
      assert IsGraded(e) <==> GradedAs(true)(e) || GradedAs(false)(e);
      assert !(GradedAs(true)(e) && GradedAs(false)(e));
    }
  }

  lemma MeanIs(total: real, n: nat)
    ensures IsMean(Mean(total, n), total, n)
  {
  }

  /** The numbers of a week: solves, right answers over graded ones, seconds per word over clocked solves, tagged solves
      over all of them. */
  lemma WeekTells(monday: int, events: seq<LearningEvent>)
    ensures var week := WeekOf(monday, events);
      var solves, clocked := HowMany((e: LearningEvent) => e.kind.Solve?, events), HowMany(Clocked(), events);
      var graded := HowMany(GradedAs(true), events) + HowMany(GradedAs(false), events);
      && week.monday == monday && week.events == |events| && week.solves == solves
      && week.graded == Some(graded)
      && IsMean(week.accuracy, HowMany(GradedAs(true), events) as real, graded)
      && (week.submitted <==> exists e :: e in events && e.kind.Submit?)
      && week.timed == Some(clocked)
      && IsMean(week.normTime, SumOver(SecondsPerWord(), events), clocked)
      && (if solves == 0 then week.taggingRate == 0.0
          else IsMean(Some(week.taggingRate), HowMany(TaggedAs(None), events) as real, solves))
      && week.expectedAccuracy.None?
  {
    hide Select, SumOver, CellsOf, IsMean, Mean;
    SameCounts(events);
    GradedSplit(events);
    SubmittedIs(events);
    SumAgrees(RatioOf, SecondsPerWord(), events);
    MeanIs(Count(IsRight, events) as real, Count(IsGraded, events));
    MeanIs(SumOver(RatioOf, events), Count(IsTimed, events));
    MeanIs(Count(IsTagged, events) as real, Count(IsSolve, events));
    TaggingIs(events);
  }

  lemma SameCounts(events: seq<LearningEvent>)
    ensures Count(IsSolve, events) == HowMany((e: LearningEvent) => e.kind.Solve?, events)
    ensures Count(IsRight, events) == HowMany(GradedAs(true), events)
    ensures Count(IsTimed, events) == HowMany(Clocked(), events)
    ensures Count(IsTagged, events) == HowMany(TaggedAs(None), events)
  {
    hide Select;
    SelectAgrees(IsSolve, (e: LearningEvent) => e.kind.Solve?, events);
    SelectAgrees(IsRight, GradedAs(true), events);
    SelectAgrees(IsTimed, Clocked(), events);
    SelectAgrees(IsTagged, TaggedAs(None), events);
  }

  lemma SubmittedIs(events: seq<LearningEvent>)
    ensures Count(IsSubmit, events) > 0 <==> exists e :: e in events && e.kind.Submit?
  {
    hide Select;
    SelectIn(IsSubmit, events);
    if Count(IsSubmit, events) > 0 { assert Select(IsSubmit, events)[0] in Select(IsSubmit, events); }
    forall e | e in events && e.kind.Submit? ensures Count(IsSubmit, events) > 0 {
      assert e in Select(IsSubmit, events);
    }
  }

  lemma TaggingIs(events: seq<LearningEvent>)
    ensures var solves := Count(IsSolve, events);
      solves > 0 ==>
        IsMean(Some(Count(IsTagged, events) as real / solves as real), Count(IsTagged, events) as real, solves)
  {
    hide Count;
  }

  predicate TagsBefore(a: Tags, b: Tags) {
    StrLess(a.area, b.area) || (a.area == b.area && StrLess(a.typeTag, b.typeTag))
  }

  ghost predicate HasCell(cells: seq<CellStat>, tags: Tags) {
    exists i :: 0 <= i < |cells| && cells[i].tags == tags
  }

  /** The cells of a week: one for every pair of tags some solve has, in the order of the tags, with the solves that
      have them and the wrong answers among these. */
  lemma CellsTell(monday: int, events: seq<LearningEvent>)
    ensures var cells := WeekOf(monday, events).cells;
      && (forall i, j :: 0 <= i < j < |cells| ==> TagsBefore(cells[i].tags, cells[j].tags))
      && (forall tags :: HasCell(cells, tags) <==> HowMany(TaggedAs(Some(tags)), events) > 0)
      && (forall i :: 0 <= i < |cells| ==>
            && cells[i].n == HowMany(TaggedAs(Some(cells[i].tags)), events)
            && cells[i].wrong == HowMany(WrongAs(cells[i].tags), events))
  {
    hide Arrange, CellAt, TagsIn, HowMany, TagsBefore, HasCell, Count, SumOver;
    var cells := CellsOf(events);
    CellsOrdered(events);
    forall tags ensures HasCell(cells, tags) <==> HowMany(TaggedAs(Some(tags)), events) > 0 {
      TagsOccur(events, tags);
    }
    forall i | 0 <= i < |cells|
      ensures cells[i].n == HowMany(TaggedAs(Some(cells[i].tags)), events)
      ensures cells[i].wrong == HowMany(WrongAs(cells[i].tags), events)
    {
      CellCounts(events, cells[i].tags);
    }
  }

  /** The places of the cells are those of their tags in order. */
  lemma CellsOrdered(events: seq<LearningEvent>)
    ensures var cells := CellsOf(events);
      && (forall i, j :: 0 <= i < j < |cells| ==> TagsBefore(cells[i].tags, cells[j].tags))
      && (forall tags :: HasCell(cells, tags) <==> tags in TagsIn(events))
      && (forall i :: 0 <= i < |cells| ==> cells[i] == CellAt(events, cells[i].tags))
  {
    hide *;
    var cells, order := CellsOf(events), Arrange(TagsLeq, TagsIn(events));
    TagsOrder();
    ArrangeSorts(TagsLeq, TagsIn(events));
    CellPlaces(events);
    forall i, j | 0 <= i < j < |cells| ensures TagsBefore(cells[i].tags, cells[j].tags) {
      TagsApart(order, i, j);
    }
    forall tags ensures HasCell(cells, tags) <==> tags in TagsIn(events) { CellHas(cells, order, tags); }
  }

  lemma CellPlaces(events: seq<LearningEvent>)
    ensures var cells, order := CellsOf(events), Arrange(TagsLeq, TagsIn(events));
      && |cells| == |order|
      && forall i :: 0 <= i < |cells| ==> cells[i].tags == order[i] && cells[i] == CellAt(events, order[i])
  {
    hide Arrange, TagsIn, Count;
  }

  lemma TagsApart(order: seq<Tags>, i: nat, j: nat)
    requires Sorted(TagsLeq, order) && Distinct(order) && i < j < |order|
    ensures TagsBefore(order[i], order[j])
  {
    assert TagsLeq(order[i], order[j]) && order[i] != order[j];
  }

  lemma CellHas(cells: seq<CellStat>, order: seq<Tags>, tags: Tags)
    requires |cells| == |order| && forall i :: 0 <= i < |cells| ==> cells[i].tags == order[i]
    ensures HasCell(cells, tags) <==> tags in order
  {
    if tags in order {
      var i :| 0 <= i < |order| && order[i] == tags;
      assert cells[i].tags == tags;
    }
  }

  /** Solved with these tags and wrong. */
  function WrongAs(tags: Tags): LearningEvent -> bool {
    (e: LearningEvent) => e.kind.Solve? && e.area == Some(tags.area) && e.typeTag == Some(tags.typeTag)
                          && e.correct == Some(false)
  }

  lemma CellCounts(events: seq<LearningEvent>, tags: Tags)
    ensures CellAt(events, tags).tags == tags
    ensures CellAt(events, tags).n == HowMany(TaggedAs(Some(tags)), events)
    ensures CellAt(events, tags).wrong == HowMany(WrongAs(tags), events)
  {
    SelectAgrees(e => IsAt(tags, e), TaggedAs(Some(tags)), events);
    SelectAgrees(e => IsWrongAt(tags, e), WrongAs(tags), events);
    hide Select;
  }

  lemma TagsOccur(events: seq<LearningEvent>, tags: Tags)
    ensures tags in TagsIn(events) <==> HowMany(TaggedAs(Some(tags)), events) > 0
  {
    var p := TaggedAs(Some(tags));
    SelectIn(p, events);
    if HowMany(p, events) > 0 {
      assert Select(p, events)[0] in Select(p, events);
    }
    if tags in TagsIn(events) {
      var e :| e in events && IsTagged(e) && TagsOf(e) == tags;
      assert e in Select(p, events);
    }
  }

  /** The student has an event in the week of this Monday. */
  ghost predicate HasEventIn(events: seq<LearningEvent>, student: string, m: int) {
    m % 7 == 1 && exists e :: e in events && e.student == student && m <= e.day < m + 7
  }

  /** The weeks of a student: one for every Monday in whose week the student has an event, from past to recent, each
      made of exactly the student's events of that week. */
  lemma WeeksTell(events: seq<LearningEvent>, student: string)
    ensures var weeks := WeeksOf(events, student);
      && (forall i, j :: 0 <= i < j < |weeks| ==> weeks[i].monday < weeks[j].monday)
      && (forall m :: (exists i :: 0 <= i < |weeks| && weeks[i].monday == m) <==> HasEventIn(events, student, m))
      && (forall i :: 0 <= i < |weeks| ==>
            weeks[i] == WeekOf(weeks[i].monday, Select(InWeekFrom(student, weeks[i].monday), events)))
  {
    hide *;
    var weeks := WeeksOf(events, student);
    WeeksAreSorted(events, student);
    forall i | 0 <= i < |weeks|
      ensures weeks[i] == WeekOf(weeks[i].monday, Select(InWeekFrom(student, weeks[i].monday), events))
      ensures HasEventIn(events, student, weeks[i].monday)
    {
      assert weeks[i] in weeks;
      WeekTold(events, student, weeks[i]);
      WeekSelects(events, student, weeks[i].monday);
    }
    forall m | HasEventIn(events, student, m) ensures exists i :: 0 <= i < |weeks| && weeks[i].monday == m {
      WeekSelects(events, student, m);
      var week := WeekAt(events, student, m);
      var i :| 0 <= i < |weeks| && weeks[i] == week;
    }
  }

  lemma WeeksAreSorted(events: seq<LearningEvent>, student: string)
    ensures forall i, j :: 0 <= i < j < |WeeksOf(events, student)| ==>
              WeeksOf(events, student)[i].monday < WeeksOf(events, student)[j].monday
  {
    hide Timeline, WeekEvents, Mondays;
    TimelineIsSorted(WeekMap(events, student));
  }

  lemma WeekTold(events: seq<LearningEvent>, student: string, week: Week)
    requires week in WeeksOf(events, student)
    ensures week.monday in Mondays(events, student)
    ensures week == WeekOf(week.monday, WeekEvents(events, student, week.monday))
  {
    hide Timeline, WeekEvents, Mondays;
    TimelineHolds(WeekMap(events, student));
    var m :| m in WeekMap(events, student) && WeekMap(events, student)[m] == week;
    WeekHasMonday(m, WeekEvents(events, student, m));
  }

  lemma WeekAt(events: seq<LearningEvent>, student: string, m: int) returns (week: Week)
    requires m in Mondays(events, student)
    ensures week in WeeksOf(events, student) && week.monday == m
  {
    hide Timeline, WeekEvents, Mondays;
    TimelineHolds(WeekMap(events, student));
    week := WeekMap(events, student)[m];
  }

  lemma WeekHasMonday(monday: int, events: seq<LearningEvent>)
    ensures WeekOf(monday, events).monday == monday
  {
  }

  /** An event of the student in the seven days from this one. */
  function InWeekFrom(student: string, m: int): LearningEvent -> bool {
    (e: LearningEvent) => e.student == student && m <= e.day < m + 7
  }

  lemma WeekSelects(events: seq<LearningEvent>, student: string, m: int)
    ensures m in Mondays(events, student) <==> HasEventIn(events, student, m)
    ensures m in Mondays(events, student) ==>
              WeekEvents(events, student, m) == Select(InWeekFrom(student, m), events)
  {
    forall e: LearningEvent ensures MondayOf(e.day) == m <==> m <= e.day < m + 7 && m % 7 == 1 { MondayIs(e.day, m); }
    hide MondayOf;
    if m % 7 == 1 { SelectAgrees(e => InWeek(student, m, e), InWeekFrom(student, m), events); }
  }

  /** Storing forgets the cells, the sample sizes and the expected accuracy, and nothing else. */
  lemma StoringForgets(a: Week, b: Week)
    ensures Restore(a) == Restore(b) <==>
            && a.monday == b.monday && a.solves == b.solves && a.accuracy == b.accuracy && a.submitted == b.submitted
            && a.normTime == b.normTime && a.events == b.events && a.taggingRate == b.taggingRate
    ensures Restore(a).monday == a.monday && Restore(a).accuracy == a.accuracy && Restore(a).normTime == a.normTime
    ensures Restore(a).cells == [] && Restore(a).timed.None? && Restore(a).graded.None?
    ensures Restore(Restore(a)) == Restore(a)
  {
  }
}
