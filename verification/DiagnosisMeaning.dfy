/** The diagnosis as a function of the set of events: counts, verdicts and errors written out over the event fields. */
module DiagnosisMeaning {
  import opened Prelude
  import opened Ordering
  import opened Selections
  import opened Sums
  import opened SkillGraph
  import opened DiagnosisTypes
  import opened Misconceptions
  import opened Propagation
  import opened Diagnosis

  // The scale of severities.

  /** A target is weak exactly if it lies below the overall accuracy by the cut, given in percentage points. */
  lemma BelowExactly(overall: real, target: real, config: Config)
    ensures Below(overall, target, config) <==> target <= overall + config.relativeCutPp / 100.0
  {
  }

  /** Severity grows linearly with the gap, from 0 at the overall accuracy to 1 at the saturation, and stays there. */
  lemma SeverityIsLinear(overall: real, target: real, config: Config)
    requires config.severitySaturation > 0.0
    ensures var gap := overall - target;
      Severity(overall, target, config)
      == if gap <= 0.0 then 0.0 else if gap >= config.severitySaturation then 1.0 else gap / config.severitySaturation
  {
    var gap := overall - target;
    if gap > 0.0 {
      var ratio := gap / config.severitySaturation;
      CancelDivision(gap, config.severitySaturation);
      AtLeastOne(ratio, config.severitySaturation);
      assert Severity(overall, target, config) == if ratio < 1.0 then ratio else 1.0;
    } else {
      assert 0.0 / config.severitySaturation == 0.0;
    }
  }

  lemma CancelDivision(part: real, whole: real)
    requires whole > 0.0
    ensures part / whole * whole == part
  {
  }

  lemma AtLeastOne(ratio: real, saturation: real)
    requires saturation > 0.0
    ensures ratio >= 1.0 <==> ratio * saturation >= saturation
  {
    if ratio < 1.0 {
      assert (1.0 - ratio) * saturation > 0.0;
      assert (1.0 - ratio) * saturation == saturation - ratio * saturation;
    } else {
      assert (ratio - 1.0) * saturation >= 0.0;
      assert (ratio - 1.0) * saturation == ratio * saturation - saturation;
    }
  }

  // Sets of events.

  function ConfirmedIn(events: set<Event>): set<Event> {
    set e | e in events && e.confirmed
  }

  function CellEvents(events: set<Event>, c: Coordinate): set<Event> {
    set e | e in events && e.confirmed && e.area == c.area && e.typeTag == c.typeTag
  }

  function NodeEvents(events: set<Event>, v: string): set<Event> {
    set e | e in events && e.confirmed && e.nodeId == Some(v)
  }

  function RightIn(events: set<Event>): set<Event> {
    set e | e in events && e.correct
  }

  /** The part of right answers. */
  function Rate(events: set<Event>): real
    requires events != {}
  {
    |RightIn(events)| as real / |events| as real
  }

  /** A list of exactly these events, each once. */
  ghost predicate ListsOnce(list: seq<Event>, events: set<Event>) {
    Distinct(list) && forall e :: e in list <==> e in events
  }

  lemma {:induction false} ListCounts(list: seq<Event>, events: set<Event>)
    requires ListsOnce(list, events)
    ensures |list| == |events| && Correct(list) == |RightIn(events)|
  {
    if list == [] {
      assert events == {} && RightIn(events) == {};
    } else {
      var front, last := list[..|list| - 1], list[|list| - 1];
      assert list == front + [last];
      forall e ensures e in front <==> e in events - {last} {
        if e in front { var i :| 0 <= i < |front| && front[i] == e; assert list[i] != list[|list| - 1]; }
      }
      ListCounts(front, events - {last});
      assert last in events;
      assert RightIn(events - {last}) == RightIn(events) - {last};
      assert last in RightIn(events) <==> last.correct;
    }
  }

  lemma SelectOnce(p: Event -> bool, list: seq<Event>, events: set<Event>)
    requires ListsOnce(list, events)
    ensures ListsOnce(Select(p, list), set e | e in events && p(e))
  {
    SelectIn(p, list);
    DistinctMultiset(list);
    DistinctMultiset(Select(p, list));
    forall x ensures multiset(Select(p, list))[x] <= 1 { SelectCounts(p, list, x); }
  }

  lemma {:induction false} ConfirmedSelects(events: seq<Event>)
    ensures Confirmed(events) == Select((e: Event) => e.confirmed, events)
  {
    if events != [] {
      var front, last := events[..|events| - 1], events[|events| - 1];
      ConfirmedSelects(front);
      assert events == front + [last];
      SelectAppend((e: Event) => e.confirmed, front, last);
    }
  }

  function ByCell(c: Coordinate): Event -> bool {
    (e: Event) => e.area == c.area && e.typeTag == c.typeTag
  }

  function ByNode(v: string): Event -> bool {
    (e: Event) => e.nodeId == Some(v)
  }

  lemma {:induction false} InCellSelects(events: seq<Event>, c: Coordinate)
    ensures InCell(events, c) == Select(ByCell(c), events)
  {
    if events != [] {
      var front, last := events[..|events| - 1], events[|events| - 1];
      InCellSelects(front, c);
      assert events == front + [last];
      SelectAppend(ByCell(c), front, last);
      assert ByCell(c)(last) <==> CoordinateOf(last) == c;
    }
  }

  lemma {:induction false} EventsAtSelects(events: seq<Event>, v: string)
    ensures EventsAt(events, v) == Select(ByNode(v), events)
  {
    if events != [] {
      var front, last := events[..|events| - 1], events[|events| - 1];
      EventsAtSelects(front, v);
      assert events == front + [last];
      SelectAppend(ByNode(v), front, last);
    }
  }

  /** The confirmed events in the order in which they are judged. */
  ghost function Judged(events: set<Event>): seq<Event> {
    Confirmed(Arrange(EventLeq, events))
  }

  lemma ArrangedOnce(events: set<Event>)
    ensures ListsOnce(Arrange(EventLeq, events), events)
  {
    hide Arrange;
    StrOrder();
    ArrangeSorts(EventLeq, events);
  }

  lemma ConfirmedSet(events: set<Event>)
    ensures ConfirmedIn(events) == set e | e in events && ((e: Event) => e.confirmed)(e)
  {
  }

  lemma JudgedIs(events: set<Event>)
    ensures Judged(events) == Select((e: Event) => e.confirmed, Arrange(EventLeq, events))
  {
    hide Arrange, Select, Confirmed;
    ConfirmedSelects(Arrange(EventLeq, events));
  }

  lemma JudgedOnce(events: set<Event>)
    ensures ListsOnce(Judged(events), ConfirmedIn(events))
  {
    hide *;
    ArrangedOnce(events);
    JudgedIs(events);
    SelectOnce((e: Event) => e.confirmed, Arrange(EventLeq, events), events);
    ConfirmedSet(events);
  }

  lemma CellOnce(events: set<Event>, c: Coordinate)
    ensures ListsOnce(InCell(Judged(events), c), CellEvents(events, c))
  {
    JudgedOnce(events);
    hide Judged, InCell, Select;
    InCellSelects(Judged(events), c);
    SelectOnce(ByCell(c), Judged(events), ConfirmedIn(events));
    assert CellEvents(events, c) == set e | e in ConfirmedIn(events) && ByCell(c)(e);
  }

  lemma NodeOnce(events: set<Event>, v: string)
    ensures ListsOnce(EventsAt(Judged(events), v), NodeEvents(events, v))
  {
    JudgedOnce(events);
    hide Judged, EventsAt, Select;
    EventsAtSelects(Judged(events), v);
    SelectOnce(ByNode(v), Judged(events), ConfirmedIn(events));
    assert NodeEvents(events, v) == set e | e in ConfirmedIn(events) && ByNode(v)(e);
  }

  lemma SameRate(list: seq<Event>, events: set<Event>)
    requires ListsOnce(list, events) && list != []
    ensures events != {} && Accuracy(list) == Rate(events)
  {
    ListCounts(list, events);
    assert list[0] in events;
  }

  // Cells.

  /** Far enough below the overall rate. */
  predicate Weak(rate: real, overall: real, config: Config) {
    rate <= overall + config.relativeCutPp / 100.0
  }

  /** The part of the saturation that a gap makes up, at most 1. */
  function SeverityOfGap(gap: real, config: Config): real
    requires config.severitySaturation > 0.0
  {
    if gap >= config.severitySaturation then 1.0 else gap / config.severitySaturation
  }

  /** The cell that these events make up. */
  function CellAs(events: set<Event>, overall: real, config: Config): Cell
    requires events != {} && config.Valid()
  {
    var n, rate := |events|, Rate(events);
    if n < config.cellMinItems then Cell(rate, n, UnknownCell, None)
    else if Weak(rate, overall, config) then Cell(rate, n, WeakCell, Some(SeverityOfGap(overall - rate, config)))
    else Cell(rate, n, OkCell, None)
  }

  lemma CellIs(list: seq<Event>, events: set<Event>, overall: real, config: Config)
    requires ListsOnce(list, events) && list != [] && config.Valid()
    ensures events != {} && CellOf(list, overall, config) == CellAs(events, overall, config)
  {
    SameRate(list, events);
    ListCounts(list, events);
    BelowExactly(overall, Accuracy(list), config);
    SeverityIsLinear(overall, Accuracy(list), config);
    hide ListsOnce, Accuracy, Severity, Rate, Below;
  }

  lemma CellsAre(events: set<Event>, config: Config, c: Coordinate)
    requires Judged(events) != [] && config.Valid()
    ensures var cells := CellsOf(Judged(events), Accuracy(Judged(events)), config);
      && ConfirmedIn(events) != {}
      && (c in cells <==> CellEvents(events, c) != {})
      && (c in cells ==> cells[c] == CellAs(CellEvents(events, c), Rate(ConfirmedIn(events)), config))
  {
    var list := Judged(events);
    JudgedOnce(events);
    SameRate(list, ConfirmedIn(events));
    CellOnce(events, c);
    InCellOccupied(list, c);
    hide Judged, Rate, Accuracy, CellAs, CellOf, InCell;
    if InCell(list, c) != [] {
      CellIs(InCell(list, c), CellEvents(events, c), Accuracy(list), config);
    }
    assert InCell(list, c) != [] ==> InCell(list, c)[0] in CellEvents(events, c);
  }

  /** What is answered for a set of events, when it is answered. */
  lemma AnswerIs(events: set<Event>, setting: Setting, r: Result<Outcome, DiagnosisError>)
    requires setting.Valid() && Answers(events, setting, r) && r.Ok?
    ensures IsDiagnosis(Judged(events), setting.graph, setting.config, r.value.diagnosis)
    ensures UnknownIds(Judged(events), setting.graph) == {}
  {
    hide IsDiagnosis, Arrange, Confirmed, IsReport;
  }

  /** The student is not diagnosed exactly if no area and type has enough confirmed events. */
  lemma InsufficientExactly(events: set<Event>, setting: Setting, r: Result<Outcome, DiagnosisError>)
    requires setting.Valid() && Answers(events, setting, r) && r.Ok?
    ensures r.value.diagnosis.Insufficient? <==>
            forall c :: |CellEvents(events, c)| < setting.config.cellMinItems
  {
    AnswerIs(events, setting, r);
    JudgedOnce(events);
    hide Answers, Judged;
    var list, config := Judged(events), setting.config;
    if list == [] {
      forall c ensures |CellEvents(events, c)| < config.cellMinItems {
        forall e ensures e !in CellEvents(events, c) { assert e in ConfirmedIn(events) <==> e in list; }
        assert CellEvents(events, c) == {};
      }
    } else {
      var cells := CellsOf(list, Accuracy(list), config);
      forall c
        ensures c in cells && !cells[c].verdict.UnknownCell? <==> |CellEvents(events, c)| >= config.cellMinItems
      {
        CellsAre(events, config, c);
      }
      hide CellsOf, CellEvents;
    }
  }

  /** The cells of a diagnosis: for each area and type with confirmed events, their number, the part of right answers,
      and the verdict against the part of right answers among all confirmed events. */
  lemma CellsExactly(events: set<Event>, setting: Setting, r: Result<Outcome, DiagnosisError>, c: Coordinate)
    requires setting.Valid() && Answers(events, setting, r) && r.Ok? && r.value.diagnosis.Generated?
    ensures ConfirmedIn(events) != {}
    ensures c in r.value.diagnosis.cells <==> CellEvents(events, c) != {}
    ensures c in r.value.diagnosis.cells ==>
              r.value.diagnosis.cells[c] == CellAs(CellEvents(events, c), Rate(ConfirmedIn(events)), setting.config)
  {
    AnswerIs(events, setting, r);
    hide Answers, Judged, CellsOf, CellAs, Rate, CellEvents, ConfirmedIn;
    CellsAre(events, setting.config, c);
  }

  function SizeAt(cells: map<Coordinate, Cell>): Coordinate -> real {
    (c: Coordinate) => if c in cells then cells[c].n as real else 0.0
  }

  /** The sizes of the cells sum to the number of confirmed events. */
  lemma SizesSum(events: set<Event>, setting: Setting, r: Result<Outcome, DiagnosisError>, list: seq<Coordinate>)
    requires setting.Valid() && Answers(events, setting, r) && r.Ok? && r.value.diagnosis.Generated?
    requires Distinct(list) && forall c :: c in list <==> c in r.value.diagnosis.cells
    ensures SumOver(SizeAt(r.value.diagnosis.cells), list) == |ConfirmedIn(events)| as real
  {
    var cells := r.value.diagnosis.cells;
    AnswerIs(events, setting, r);
    JudgedOnce(events);
    ListCounts(Judged(events), ConfirmedIn(events));
    hide Answers, Judged, ConfirmedIn, CellOf, ListsOnce;
    CellsPartition(Judged(events), list);
    forall c | c in list ensures SizeAt(cells)(c) == SizeIn(Judged(events))(c) {
      CellsWellFormed(Judged(events), setting.config, c);
    }
    SumAgrees(SizeAt(cells), SizeIn(Judged(events)), list);
  }

  // Nothing but the confirmed events counts.

  lemma SelectKeepsOrder(events: set<Event>)
    ensures Sorted(EventLeq, Judged(events))
  {
    hide Arrange, Select, Confirmed, Judged;
    StrOrder();
    ArrangeSorts(EventLeq, events);
    JudgedIs(events);
    SelectSorted(EventLeq, (e: Event) => e.confirmed, Arrange(EventLeq, events));
  }

  lemma SameJudged(a: set<Event>, b: set<Event>)
    requires Consistent(a) && ConfirmedIn(a) == ConfirmedIn(b)
    ensures Judged(a) == Judged(b)
  {
    JudgedOnce(a);
    JudgedOnce(b);
    SelectKeepsOrder(a);
    SelectKeepsOrder(b);
    hide Judged;
    DistinctIsSet(Judged(a), ConfirmedIn(a));
    DistinctIsSet(Judged(b), ConfirmedIn(b));
    forall x, y | x in Judged(a) && y in Judged(a) && EventLeq(x, y) && EventLeq(y, x) ensures x == y {
      assert x in a && y in a;
      if x.id != y.id { StrLessTransitive(x.id, y.id, x.id); StrLessIrreflexive(x.id); }
    }
    SortedUnique(EventLeq, Judged(a), Judged(b));
  }

  /** Adding or removing events that are not confirmed changes nothing, as long as no two events conflict. */
  lemma UnconfirmedNeverCount(a: set<Event>, b: set<Event>, setting: Setting, ra: Result<Outcome, DiagnosisError>,
                              rb: Result<Outcome, DiagnosisError>)
    requires setting.Valid() && Consistent(a) && Consistent(b) && ConfirmedIn(a) == ConfirmedIn(b)
    requires Answers(a, setting, ra) && Answers(b, setting, rb)
    ensures ra == rb
  {
    SameJudged(a, b);
    hide Consistent, ConfirmedIn, Arrange, Confirmed, IsOutcome, ReferenceFault;
    if ra.Ok? && rb.Ok? { OutcomeUnique(Judged(a), setting, ra.value, rb.value); }
  }

  // Node states.

  /** The name by which a type tag is sorted and printed. */
  function TagName(tag: TypeTag): string {
    match tag
    case Fact => "fact"
    case Infer => "infer"
    case Critic => "critic"
    case Concept => "concept"
    case ApplyTag => "apply"
  }

  lemma TagsByName(a: Coordinate, b: Coordinate)
    ensures NameLeq(a, b) <==> StrLeq(TagName(a.typeTag), TagName(b.typeTag))
  {
    hide StrLess;
    StrLessAt("apply", "concept", 0);
    StrLessAt("apply", "critic", 0);
    StrLessAt("apply", "fact", 0);
    StrLessAt("apply", "infer", 0);
    StrLessAt("concept", "critic", 1);
    StrLessAt("concept", "fact", 0);
    StrLessAt("concept", "infer", 0);
    StrLessAt("critic", "fact", 0);
    StrLessAt("critic", "infer", 0);
    StrLessAt("fact", "infer", 0);
  }

  /** The weak cells of the area and the type tags of a node. */
  function WeakAt(g: Graph, cells: map<Coordinate, Cell>, v: string): set<Coordinate> {
    set node, tag | node in g.nodes && node.id == v && tag in node.affinity
                    && Coordinate(node.area, tag) in cells && cells[Coordinate(node.area, tag)].verdict.WeakCell?
      :: Coordinate(node.area, tag)
  }

  /** Judged by the events tagged with the node; they are the basis, in the order of their identifiers. */
  ghost predicate JudgedDirectly(state: NodeState, mine: set<Event>, overall: real, config: Config)
    requires mine != {} && config.Valid()
  {
    && (if Weak(Rate(mine), overall, config)
        then state.verdict.WeakConfirmed? && state.severity == Some(SeverityOfGap(overall - Rate(mine), config))
        else state.verdict.OkNode? && state.severity.None?)
    && |state.basis| == |mine|
    && (forall basis :: basis in state.basis <==> exists e :: e in mine && basis == EventBasis(e.id))
    && (forall i, j :: 0 <= i < j < |state.basis| ==>
          state.basis[i].EventBasis? && state.basis[j].EventBasis? && StrLeq(state.basis[i].id, state.basis[j].id))
  }

  /** Suspected for its weak cells: the strongest severity among them, and all of them as basis, in name order. */
  ghost predicate SuspectedFor(state: NodeState, weak: set<Coordinate>, cells: map<Coordinate, Cell>) {
    && state.verdict.Suspect?
    && (exists c :: c in weak && c in cells && state.severity == cells[c].severity)
    && state.severity.Some?
    && (forall c :: c in weak && c in cells && cells[c].severity.Some? ==>
          cells[c].severity.value <= state.severity.value)
    && (forall basis :: basis in state.basis <==> exists c :: c in weak && basis == CellBasis(c))
    && (forall i, j :: 0 <= i < j < |state.basis| ==>
          && state.basis[i].CellBasis? && state.basis[j].CellBasis?
          && StrLeq(TagName(state.basis[i].coordinate.typeTag), TagName(state.basis[j].coordinate.typeTag)))
  }

  lemma {:induction false} EventsAtSorted(events: seq<Event>, v: string)
    requires Sorted(EventLeq, events)
    ensures Sorted(EventLeq, EventsAt(events, v))
  {
    EventsAtSelects(events, v);
    SelectSorted(EventLeq, ByNode(v), events);
  }

  lemma DirectIs(list: seq<Event>, mine: set<Event>, overall: real, config: Config)
    requires ListsOnce(list, mine) && Sorted(EventLeq, list) && list != [] && config.Valid()
    ensures mine != {} && JudgedDirectly(DirectState(list, overall, config), mine, overall, config)
  {
    SameRate(list, mine);
    ListCounts(list, mine);
    BelowExactly(overall, Accuracy(list), config);
    SeverityIsLinear(overall, Accuracy(list), config);
    DirectBasis(list, overall, config);
    hide DirectState, Accuracy, Severity, Rate, Below, ListsOnce, RightIn;
    BasisListsEvents(DirectState(list, overall, config).basis, list, mine);
  }

  lemma BasisListsEvents(basis: seq<Basis>, list: seq<Event>, mine: set<Event>)
    requires ListsOnce(list, mine) && Sorted(EventLeq, list)
    requires |basis| == |list| && forall i :: 0 <= i < |list| ==> basis[i] == EventBasis(list[i].id)
    ensures forall b :: b in basis <==> exists e :: e in mine && b == EventBasis(e.id)
    ensures forall i, j :: 0 <= i < j < |basis| ==>
              basis[i].EventBasis? && basis[j].EventBasis? && StrLeq(basis[i].id, basis[j].id)
  {
    hide StrLeq;
    forall i | 0 <= i < |basis| ensures exists e :: e in mine && basis[i] == EventBasis(e.id) {
      assert list[i] in mine;
    }
    forall e | e in mine ensures EventBasis(e.id) in basis {
      var i :| 0 <= i < |list| && list[i] == e;
      assert basis[i] == EventBasis(e.id);
    }
    forall i, j | 0 <= i < j < |basis| ensures StrLeq(basis[i].id, basis[j].id) { assert EventLeq(list[i], list[j]); }
  }

  lemma DirectBasis(list: seq<Event>, overall: real, config: Config)
    requires list != [] && config.Valid()
    ensures var state := DirectState(list, overall, config);
      && |state.basis| == |list| && (forall i :: 0 <= i < |list| ==> state.basis[i] == EventBasis(list[i].id))
      && (if Below(overall, Accuracy(list), config)
          then state.verdict.WeakConfirmed? && state.severity == Some(Severity(overall, Accuracy(list), config))
          else state.verdict.OkNode? && state.severity.None?)
  {
    hide Accuracy, Severity, Below;
  }

  lemma {:induction false} WeakCellsHold(node: Node, affinity: seq<TypeTag>, cells: map<Coordinate, Cell>)
    ensures forall c :: c in WeakCells(node, affinity, cells) <==>
                        c.area == node.area && c.typeTag in affinity && c in cells && cells[c].verdict.WeakCell?
  {
    if affinity != [] {
      var front, last := affinity[..|affinity| - 1], affinity[|affinity| - 1];
      WeakCellsHold(node, front, cells);
      assert affinity == front + [last];
    }
  }

  lemma WeakAtNode(g: Graph, node: Node, cells: map<Coordinate, Cell>)
    requires UniqueIds(g.nodes) && node in g.nodes
    ensures forall c :: c in WeakCells(node, node.affinity, cells) <==> c in WeakAt(g, cells, node.id)
  {
    WeakCellsHold(node, node.affinity, cells);
    forall other | other in g.nodes && other.id == node.id ensures other == node {
      var i, j :| 0 <= i < |g.nodes| && 0 <= j < |g.nodes| && g.nodes[i] == node && g.nodes[j] == other;
      assert i == j;
    }
    hide WeakCells, UniqueIds;
  }

  lemma SuspectIs(weak: seq<Coordinate>, all: set<Coordinate>, cells: map<Coordinate, Cell>)
    requires weak != [] && forall c :: c in weak <==> c in all
    requires forall c :: c in weak ==> c in cells && InUnit(cells[c].severity)
    ensures SuspectedFor(SuspectState(weak, cells), all, cells)
  {
    hide SortBy, MaxSeverity, NameLeq, TagName, StrLeq, SuspectState, InUnit, SeverityAt;
    SuspectUnfold(weak, cells);
    StrongestIs(weak, all, cells);
    BasisListsCells(SuspectState(weak, cells).basis, SortBy(NameLeq, weak), all);
  }

  lemma SuspectUnfold(weak: seq<Coordinate>, cells: map<Coordinate, Cell>)
    requires weak != []
    ensures var named, state := SortBy(NameLeq, weak), SuspectState(weak, cells);
      && state.verdict.Suspect? && state.severity == Some(MaxSeverity(weak, cells))
      && |state.basis| == |named| && (forall i :: 0 <= i < |named| ==> state.basis[i] == CellBasis(named[i]))
      && Sorted(NameLeq, named) && forall c :: c in named <==> c in weak
  {
    hide SortBy, MaxSeverity;
    SortBySorts(NameLeq, weak);
  }

  lemma StrongestIs(weak: seq<Coordinate>, all: set<Coordinate>, cells: map<Coordinate, Cell>)
    requires weak != [] && forall c :: c in weak <==> c in all
    requires forall c :: c in weak ==> c in cells && InUnit(cells[c].severity)
    ensures exists c :: c in all && c in cells && Some(MaxSeverity(weak, cells)) == cells[c].severity
    ensures forall c :: c in all && c in cells && cells[c].severity.Some? ==>
                          cells[c].severity.value <= MaxSeverity(weak, cells)
  {
    hide MaxSeverity;
    MaxInUnit(weak, cells);
    var c :| c in weak && MaxSeverity(weak, cells) == SeverityAt(cells, c);
    assert c in all && Some(MaxSeverity(weak, cells)) == cells[c].severity;
  }

  lemma BasisListsCells(basis: seq<Basis>, named: seq<Coordinate>, all: set<Coordinate>)
    requires Sorted(NameLeq, named) && forall c :: c in named <==> c in all
    requires |basis| == |named| && forall i :: 0 <= i < |named| ==> basis[i] == CellBasis(named[i])
    ensures forall b :: b in basis <==> exists c :: c in all && b == CellBasis(c)
    ensures forall i, j :: 0 <= i < j < |basis| ==>
              && basis[i].CellBasis? && basis[j].CellBasis?
              && StrLeq(TagName(basis[i].coordinate.typeTag), TagName(basis[j].coordinate.typeTag))
  {
    hide StrLeq, TagName, NameLeq;
    forall i | 0 <= i < |basis| ensures exists c :: c in all && basis[i] == CellBasis(c) { assert named[i] in all; }
    forall c | c in all ensures CellBasis(c) in basis {
      var i :| 0 <= i < |named| && named[i] == c;
      assert basis[i] == CellBasis(c);
    }
    forall i, j | 0 <= i < j < |basis|
      ensures StrLeq(TagName(basis[i].coordinate.typeTag), TagName(basis[j].coordinate.typeTag))
    {
      assert NameLeq(named[i], named[j]);
      TagsByName(named[i], named[j]);
    }
  }

  /** The state of a node: judged by its own confirmed events if there are enough of them, else suspected exactly if it
      belongs to a weak cell, else none. */
  lemma NodesExactly(events: set<Event>, setting: Setting, r: Result<Outcome, DiagnosisError>, v: string)
    requires setting.Valid() && Answers(events, setting, r) && r.Ok? && r.value.diagnosis.Generated?
    ensures ConfirmedIn(events) != {}
    ensures var d, mine := r.value.diagnosis, NodeEvents(events, v);
      if |mine| >= setting.config.nodeMinItems then
        mine != {} && v in d.nodes && JudgedDirectly(d.nodes[v], mine, Rate(ConfirmedIn(events)), setting.config)
      else
        && (v in d.nodes <==> WeakAt(setting.graph, d.cells, v) != {})
        && (v in d.nodes ==> SuspectedFor(d.nodes[v], WeakAt(setting.graph, d.cells, v), d.cells))
  {
    var list, d, config := Judged(events), r.value.diagnosis, setting.config;
    AnswerIs(events, setting, r);
    JudgedOnce(events);
    SelectKeepsOrder(events);
    assert UniqueIds(setting.graph.nodes) by { LoadedIsUnique(setting.graph); }
    hide Answers, Judged, Loaded, IsPropagation, IsReport, OverallLow;
    var overall := Accuracy(list);
    SameRate(list, ConfirmedIn(events));
    var indirect: map<string, NodeState> :| IsIndirect(setting.graph.nodes, d.cells, indirect)
                    && IsMerged(indirect, list, overall, config, d.nodes);
    NodeOnce(events, v);
    ListCounts(EventsAt(list, v), NodeEvents(events, v));
    EventsAtSorted(list, v);
    hide Accuracy, Rate, CellsOf, IsIndirect, DirectState, ConfirmedIn, ListsOnce, EventsAt;
    if |NodeEvents(events, v)| >= config.nodeMinItems {
      DirectIs(EventsAt(list, v), NodeEvents(events, v), overall, config);
    } else {
      IndirectIs(events, setting, d.cells, indirect, v);
    }
  }

  lemma IndirectIs(events: set<Event>, setting: Setting, cells: map<Coordinate, Cell>,
                   indirect: map<string, NodeState>, v: string)
    requires setting.Valid() && UniqueIds(setting.graph.nodes) && Judged(events) != []
    requires cells == CellsOf(Judged(events), Accuracy(Judged(events)), setting.config)
    requires IsIndirect(setting.graph.nodes, cells, indirect)
    ensures v in indirect <==> WeakAt(setting.graph, cells, v) != {}
    ensures v in indirect ==> SuspectedFor(indirect[v], WeakAt(setting.graph, cells, v), cells)
  {
    hide CellsOf, Accuracy, Judged, Loaded, SuspectState, WeakCells, SuspectedFor, InUnit;
    if node :| node in setting.graph.nodes && node.id == v {
      var weak := WeakCells(node, node.affinity, cells);
      assert FollowsFrom(cells, node, indirect);
      WeakAtNode(setting.graph, node, cells);
      if weak != [] {
        assert weak[0] in WeakAt(setting.graph, cells, v);
        WeakCellsAreWeak(node, node.affinity, cells);
        forall c | c in weak ensures c in cells && InUnit(cells[c].severity) {
          CellsWellFormed(Judged(events), setting.config, c);
        }
        SuspectIs(weak, WeakAt(setting.graph, cells, v), cells);
      }
    }
  }

  /** The nodes that the diagnosis calls fine. */
  function Fine(nodes: map<string, NodeState>): set<string> {
    set v | v in nodes && nodes[v].verdict.OkNode?
  }

  lemma FineAreDirectOk(events: seq<Event>, g: Graph, cells: map<Coordinate, Cell>, indirect: map<string, NodeState>,
                        overall: real, config: Config, states: map<string, NodeState>)
    requires config.Valid() && IsIndirect(g.nodes, cells, indirect)
    requires IsMerged(indirect, events, overall, config, states)
    ensures Fine(states) == DirectOkNodes(events, overall, config)
  {
    hide Direct;
    DirectIsTagged(events, overall, config);
    forall v | v in indirect ensures indirect[v].verdict.Suspect? {
      var node :| node in g.nodes && node.id == v;
      assert FollowsFrom(cells, node, indirect);
    }
  }

  /** The overall verdict and the propagated nodes, in terms of the cells and nodes of the same diagnosis: the nodes it
      calls fine block, the others that are judged are the sources. */
  lemma RestExactly(events: set<Event>, setting: Setting, r: Result<Outcome, DiagnosisError>, v: string)
    requires setting.Valid() && Answers(events, setting, r) && r.Ok? && r.value.diagnosis.Generated?
    ensures var d := r.value.diagnosis;
      var score, origins := Total(setting.graph, Fine(d.nodes), d.nodes, setting.config, v),
                            Origins(setting.graph, Fine(d.nodes), d.nodes, v);
      && (d.overallLow <==> forall c :: c in d.cells ==> !d.cells[c].verdict.OkCell?)
      && (v in d.propagated <==> origins != {} && score >= setting.config.propagateThreshold)
      && (v in d.propagated ==> d.propagated[v] == PropagatedNode(score, Arrange(StrLeq, origins)))
  {
    var list, d, config := Judged(events), r.value.diagnosis, setting.config;
    AnswerIs(events, setting, r);
    hide Answers, Judged, Loaded, IsReport, Accuracy, CellsOf, Origins, Total, Arrange, Direct, IsIndirect, IsMerged;
    hide DirectOkNodes, Fine;
    var indirect: map<string, NodeState> :| IsIndirect(setting.graph.nodes, d.cells, indirect)
                                            && IsMerged(indirect, list, Accuracy(list), config, d.nodes);
    FineAreDirectOk(list, setting.graph, d.cells, indirect, Accuracy(list), config, d.nodes);
  }

  // Errors.

  predicate NamesUnknownNode(e: Event, g: Graph) {
    e.confirmed && e.nodeId.Some? && forall node <- g.nodes :: node.id != e.nodeId.value
  }

  /** A wrong answer's misconception is filed at a node of another area than the event's. */
  predicate NamesOtherArea(e: Event, g: Graph) {
    && e.confirmed && e.misconception.Some? && e.nodeId.Some?
    && exists node <- g.nodes :: node.id == e.nodeId.value && node.area != e.area
  }

  /** The vocabulary of the event's area, if there is one, does not hold the event's misconception. */
  predicate NamesUnlistedTag(e: Event, vocabulary: Vocabulary) {
    && e.confirmed && e.misconception.Some?
    && (e.area in vocabulary ==> e.misconception.value !in vocabulary[e.area])
  }

  /** Exactly these strings, in increasing order without repetition. */
  ghost predicate ListsInOrder(list: seq<string>, all: set<string>) {
    && (forall x :: x in list <==> x in all)
    && forall i, j :: 0 <= i < j < |list| ==> StrLess(list[i], list[j])
  }

  lemma ArrangedInOrder(all: set<string>)
    ensures ListsInOrder(Arrange(StrLeq, all), all)
  {
    StrLeqIsTotal();
    ArrangeSorts(StrLeq, all);
  }

  /** The errors over the confirmed events of a set without conflicts. */
  ghost predicate FaultRead(events: set<Event>, setting: Setting, fault: Option<DiagnosisError>) {
    var unknown := set e | e in events && NamesUnknownNode(e, setting.graph) :: e.nodeId.value;
    var otherArea := set e | e in events && NamesOtherArea(e, setting.graph) :: e.id;
    var unlisted := set e | e in events && NamesUnlistedTag(e, setting.vocabulary) :: e.id;
    if unknown != {} then fault.Some? && fault.value.UnknownNodes? && ListsInOrder(fault.value.ids, unknown)
    else if otherArea != {} then
      fault.Some? && fault.value.AreaMismatch? && ListsInOrder(fault.value.eventIds, otherArea)
    else if unlisted != {} then
      fault.Some? && fault.value.InvalidTags? && ListsInOrder(fault.value.eventIds, unlisted)
    else fault.None?
  }

  lemma FaultIsRead(events: set<Event>, setting: Setting)
    ensures FaultRead(events, setting, ReferenceFault(Judged(events), setting))
  {
    var list := Judged(events);
    JudgedOnce(events);
    hide Judged, Arrange, ListsInOrder;
    ArrangedInOrder(UnknownIds(list, setting.graph));
    ArrangedInOrder(OffAreaIds(list, setting.graph.nodes));
    ArrangedInOrder(OffVocabularyIds(list, setting.vocabulary));
    UnknownAre(events, setting.graph, list);
    OffAre(events, setting, list);
    hide UnknownIds, OffAreaIds, OffVocabularyIds, NamesUnknownNode, NamesOtherArea, NamesUnlistedTag, ListsOnce;
  }

  lemma UnknownAre(events: set<Event>, g: Graph, list: seq<Event>)
    requires ListsOnce(list, ConfirmedIn(events))
    ensures UnknownIds(list, g) == set e | e in events && NamesUnknownNode(e, g) :: e.nodeId.value
  {
    forall e | e in events ensures NamesUnknownNode(e, g) <==>
        e in list && e.nodeId.Some? && e.nodeId.value !in NodeIds(g.nodes)
    {
    }
  }

  lemma OffAre(events: set<Event>, setting: Setting, list: seq<Event>)
    requires ListsOnce(list, ConfirmedIn(events))
    ensures OffAreaIds(list, setting.graph.nodes) == set e | e in events && NamesOtherArea(e, setting.graph) :: e.id
    ensures OffVocabularyIds(list, setting.vocabulary)
            == set e | e in events && NamesUnlistedTag(e, setting.vocabulary) :: e.id
  {
    forall e ensures e in list <==> e in events && e.confirmed {}
    hide ListsOnce;
    forall e | e in events
      ensures NamesOtherArea(e, setting.graph) <==> e in list && OffArea(e, setting.graph.nodes)
      ensures NamesUnlistedTag(e, setting.vocabulary) <==> e in list && OffVocabulary(e, setting.vocabulary)
    {
    }
    hide OffArea, OffVocabulary, NamesOtherArea, NamesUnlistedTag;
  }

  lemma FaultKinds(list: seq<Event>, setting: Setting)
    ensures var fault := ReferenceFault(list, setting);
      fault.Some? ==> fault.value.UnknownNodes? || fault.value.AreaMismatch? || fault.value.InvalidTags?
  {
  }

  ghost predicate NoConflict(events: set<Event>) {
    forall a, b :: a in events && b in events && a != b ==> a.id != b.id
  }

  /** Which error is answered, and when none is: versions first, then conflicts, then what the confirmed events name. */
  lemma ErrorsExactly(events: set<Event>, setting: Setting, r: Result<Outcome, DiagnosisError>)
    requires setting.Valid() && Answers(events, setting, r)
    ensures r == Err(GraphVersionDiffers) <==> setting.versions.graph != setting.graph.graphVersion
    ensures r == Err(TaxonomyVersionDiffers) <==>
              setting.versions.graph == setting.graph.graphVersion
              && setting.versions.taxonomy != setting.graph.taxonomyVersion
    ensures r == Err(ConfigVersionEmpty) <==>
              setting.versions.graph == setting.graph.graphVersion
              && setting.versions.taxonomy == setting.graph.taxonomyVersion && setting.versions.config == ""
    ensures setting.versions == Versions(setting.graph.graphVersion, setting.graph.taxonomyVersion,
                                         setting.versions.config) && setting.versions.config != "" ==>
              if !NoConflict(events) then r.Err? && r.error.Conflict?
              else FaultRead(events, setting, if r.Err? then Some(r.error) else None)
    ensures r.Err? && r.error.Conflict? ==>
              exists a, b :: a in events && b in events && a != b && a.id == b.id == r.error.eventId
    ensures r.Ok? ==> r.value.versions == setting.versions && r.value.snapshotHash == setting.snapshotHash
  {
    FaultIsRead(events, setting);
    FaultKinds(Judged(events), setting);
    hide IsDiagnosis, IsReport, Confirmed, Arrange, FaultRead, ReferenceFault, Loaded;
  }
}
