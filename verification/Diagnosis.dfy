/** The diagnosis: duplicate events removed, cells judged, node states merged, weakness propagated. */
module Diagnosis {
  import opened Prelude
  import opened Ordering
  import opened Sums
  import opened SkillGraph
  import opened GraphLoading
  import opened DiagnosisTypes
  import opened Misconceptions
  import opened Propagation
  import opened PropagationLaws

  datatype DiagnosisError =
    | GraphVersionDiffers | TaxonomyVersionDiffers | ConfigVersionEmpty
    | Conflict(eventId: string)
    | UnknownNodes(ids: seq<string>)
    | AreaMismatch(eventIds: seq<string>)
    | InvalidTags(eventIds: seq<string>)

  datatype Diagnosis =
    | Insufficient
    | Generated(cells: map<Coordinate, Cell>, nodes: map<string, NodeState>,
                propagated: map<string, PropagatedNode>, overallLow: bool)

  /** What one call answers: the diagnosis with its versions and snapshot, and the misconception report beside it. */
  datatype Outcome = Outcome(versions: Versions, snapshotHash: string, diagnosis: Diagnosis, report: Report)

  /** The arguments of a call besides the events. */
  datatype Setting = Setting(
    graph: Graph, config: Config, versions: Versions, snapshotHash: string, vocabulary: Vocabulary)
  {
    ghost predicate Valid() {
      Loaded(graph) && config.Valid()
    }
  }

  // Duplicate events.

  predicate EventLeq(a: Event, b: Event) {
    StrLeq(a.id, b.id)
  }

  function EventSet(events: seq<Event>): set<Event> {
    set event | event in events
  }

  /** No two different events share an identifier. */
  ghost predicate Consistent(events: set<Event>) {
    forall a, b :: a in events && b in events && a.id == b.id ==> a == b
  }

  /** Each event once, in the order of the identifiers. */
  method Deduplicate(events: seq<Event>) returns (r: Result<seq<Event>, DiagnosisError>)
    ensures r.Ok? <==> Consistent(EventSet(events))
    ensures r.Ok? ==> r.value == Arrange(EventLeq, EventSet(events))
    ensures r.Err? ==> r.error.Conflict? && exists a, b :: a in events && b in events && a != b
                                                            && a.id == b.id == r.error.eventId
  {
    var byId: map<string, Event> := map[];
    for i := 0 to |events|
      invariant forall id :: id in byId ==> byId[id].id == id && byId[id] in events[..i]
      invariant forall event :: event in events[..i] ==> event.id in byId && byId[event.id] == event
    {
      var event := events[i];
      assert events[..i + 1] == events[..i] + [event];
      if event.id in byId && byId[event.id] != event {
        assert byId[event.id] in events && event in events;
        return Err(Conflict(event.id));
      }
      byId := byId[event.id := event];
    }
    assert events[..|events|] == events;
    var listing: seq<Event> := [];
    var rest := byId.Keys;
    ghost var seen: set<Event> := {};
    while rest != {}
      invariant rest <= byId.Keys
      invariant multiset(listing) == multiset(seen)
      invariant forall event :: event in seen <==> event in events && event.id !in rest
      decreases |rest|
    {
      var id :| id in rest;
      assert byId[id] !in seen;
      listing, rest, seen := listing + [byId[id]], rest - {id}, seen + {byId[id]};
    }
    assert seen == EventSet(events);
    EventOrder(EventSet(events), listing);
    SortIsArrangeOn(EventLeq, listing, EventSet(events));
    r := Ok(SortBy(EventLeq, listing));
  }

  lemma EventOrder(events: set<Event>, listing: seq<Event>)
    requires Consistent(events) && multiset(listing) == multiset(events)
    ensures TotalPreorder(EventLeq) && AntisymmetricOn(EventLeq, listing)
  {
    StrOrder();
    forall a, b | a in listing && b in listing && EventLeq(a, b) && EventLeq(b, a) ensures a == b {
      assert a in multiset(listing) && b in multiset(listing);
      assert a.id == b.id;
    }
  }

  // Counting.

  function Correct(events: seq<Event>): nat {
    if events == [] then 0
    else Correct(events[..|events| - 1]) + if events[|events| - 1].correct then 1 else 0
  }

  lemma {:induction false} CorrectBounded(events: seq<Event>)
    ensures Correct(events) <= |events|
  {
    if events != [] { CorrectBounded(events[..|events| - 1]); }
  }

  function Accuracy(events: seq<Event>): real
    requires events != []
  {
    Correct(events) as real / |events| as real
  }

  function Severity(overall: real, target: real, config: Config): real
    requires config.severitySaturation > 0.0
  {
    var gap := if overall - target > 0.0 then overall - target else 0.0;
    var ratio := gap / config.severitySaturation;
    if ratio < 1.0 then ratio else 1.0
  }

  /** The accuracy lies below the overall accuracy by at least the configured cut, in percentage points. */
  predicate Below(overall: real, target: real, config: Config) {
    (target - overall) * 100.0 <= config.relativeCutPp
  }

  lemma SeverityOfWeak(overall: real, target: real, config: Config)
    requires config.Valid() && Below(overall, target, config)
    ensures target < overall && 0.0 < Severity(overall, target, config) <= 1.0
  {
    var gap := overall - target;
    assert gap > 0.0;
    assert gap / config.severitySaturation > 0.0;
  }

  // Cells.

  function CoordinateOf(event: Event): Coordinate {
    Coordinate(event.area, event.typeTag)
  }

  function Coordinates(events: seq<Event>): set<Coordinate> {
    set event | event in events :: CoordinateOf(event)
  }

  function InCell(events: seq<Event>, c: Coordinate): seq<Event> {
    if events == [] then []
    else
      var last := events[|events| - 1];
      InCell(events[..|events| - 1], c) + if CoordinateOf(last) == c then [last] else []
  }

  lemma {:induction false} InCellOccupied(events: seq<Event>, c: Coordinate)
    ensures InCell(events, c) != [] <==> c in Coordinates(events)
  {
    if events != [] {
      var front, last := events[..|events| - 1], events[|events| - 1];
      InCellOccupied(front, c);
      assert events == front + [last];
      assert forall event :: event in events <==> event in front || event == last;
    }
  }

  function CellOf(events: seq<Event>, overall: real, config: Config): Cell
    requires events != [] && config.severitySaturation > 0.0
  {
    var accuracy := Accuracy(events);
    if |events| < config.cellMinItems then Cell(accuracy, |events|, UnknownCell, None)
    else if Below(overall, accuracy, config) then
      Cell(accuracy, |events|, WeakCell, Some(Severity(overall, accuracy, config)))
    else Cell(accuracy, |events|, OkCell, None)
  }

  ghost function CellsOf(events: seq<Event>, overall: real, config: Config): map<Coordinate, Cell>
    requires config.severitySaturation > 0.0
  {
    map c | c in Coordinates(events) ::
      InCellOccupied(events, c);
      CellOf(InCell(events, c), overall, config)
  }

  lemma NextInCell(events: seq<Event>, i: nat)
    requires i < |events|
    ensures Coordinates(events[..i + 1]) == Coordinates(events[..i]) + {CoordinateOf(events[i])}
    ensures forall c :: c != CoordinateOf(events[i]) ==> InCell(events[..i + 1], c) == InCell(events[..i], c)
    ensures var c := CoordinateOf(events[i]);
            InCell(events[..i + 1], c)
            == (if c in Coordinates(events[..i]) then InCell(events[..i], c) else []) + [events[i]]
  {
    assert events[..i + 1][..i] == events[..i];
    assert events[..i + 1] == events[..i] + [events[i]];
    assert forall e :: e in events[..i + 1] <==> e in events[..i] || e == events[i];
    forall c ensures InCell(events[..i], c) != [] <==> c in Coordinates(events[..i]) { InCellOccupied(events[..i], c); }
    forall c ensures InCell(events[..i], c) + [] == InCell(events[..i], c) {}
  }

  /** Events grouped by area and type. */
  method GroupByCell(events: seq<Event>) returns (grouped: map<Coordinate, seq<Event>>)
    ensures grouped.Keys == Coordinates(events)
    ensures forall c :: c in grouped ==> grouped[c] == InCell(events, c) && grouped[c] != []
  {
    grouped := map[];
    for i := 0 to |events|
      invariant grouped.Keys == Coordinates(events[..i])
      invariant forall c :: c in grouped ==> grouped[c] == InCell(events[..i], c) && grouped[c] != []
    {
      hide Coordinates, InCell, CoordinateOf;
      var event := events[i];
      var c := CoordinateOf(event);
      NextInCell(events, i);
      grouped := grouped[c := (if c in grouped then grouped[c] else []) + [event]];
    }
    assert events[..|events|] == events;
  }

  method BuildCells(events: seq<Event>, overall: real, config: Config) returns (cells: map<Coordinate, Cell>)
    requires config.Valid()
    ensures cells == CellsOf(events, overall, config)
  {
    var grouped := GroupByCell(events);
    cells := map[];
    var rest := grouped.Keys;
    while rest != {}
      invariant rest <= grouped.Keys && cells.Keys == grouped.Keys - rest
      invariant forall c :: c in cells ==> cells[c] == CellOf(grouped[c], overall, config)
      decreases |rest|
    {
      var c :| c in rest;
      cells := cells[c := CellOf(grouped[c], overall, config)];
      rest := rest - {c};
    }
  }

  /** The number of correct answers splits over the cells. */
  ghost function CorrectIn(events: seq<Event>): Coordinate -> real {
    c => Correct(InCell(events, c)) as real
  }

  ghost function SizeIn(events: seq<Event>): Coordinate -> real {
    c => |InCell(events, c)| as real
  }

  lemma LastEvent(events: seq<Event>, c: Coordinate)
    requires events != []
    ensures var front, last := events[..|events| - 1], events[|events| - 1];
            var mine := CoordinateOf(last) == c;
            && |InCell(events, c)| == |InCell(front, c)| + (if mine then 1 else 0)
            && Correct(InCell(events, c)) == Correct(InCell(front, c)) + (if mine && last.correct then 1 else 0)
  {
    var front, last := events[..|events| - 1], events[|events| - 1];
    var longer := InCell(front, c) + [last];
    assert longer[..|longer| - 1] == InCell(front, c) == InCell(front, c) + [];
    assert Correct(longer) == Correct(InCell(front, c)) + if last.correct then 1 else 0;
  }

  lemma {:induction false} CellsPartition(events: seq<Event>, list: seq<Coordinate>)
    requires Distinct(list) && forall c :: c in Coordinates(events) ==> c in list
    ensures SumOver(CorrectIn(events), list) == Correct(events) as real
    ensures SumOver(SizeIn(events), list) == |events| as real
  {
    if events == [] {
      SumZero(CorrectIn(events), list);
      SumZero(SizeIn(events), list);
    } else {
      var front, last := events[..|events| - 1], events[|events| - 1];
      assert Correct(events) == Correct(front) + if last.correct then 1 else 0;
      hide Correct, InCell, SumOver, CoordinateOf;
      assert events == front + [last];
      assert forall event :: event in events <==> event in front || event == last;
      CellsPartition(front, list);
      forall c
        ensures CorrectIn(events)(c)
                == CorrectIn(front)(c) + (if CoordinateOf(last) == c && last.correct then 1.0 else 0.0)
        ensures SizeIn(events)(c) == SizeIn(front)(c) + (if CoordinateOf(last) == c then 1.0 else 0.0)
      {
        LastEvent(events, c);
      }
      SumBumps(CorrectIn(front), CorrectIn(events), list, CoordinateOf(last), if last.correct then 1.0 else 0.0);
      SumBumps(SizeIn(front), SizeIn(events), list, CoordinateOf(last), 1.0);
    }
  }

  lemma CellsWeigh(events: seq<Event>, config: Config)
    requires events != [] && config.Valid()
    ensures var cells := CellsOf(events, Accuracy(events), config);
            && SumSet(SizeIn(events), cells.Keys) == |events| as real
            && SumSet(Weighted(cells), cells.Keys) == Correct(events) as real
  {
    var cells := CellsOf(events, Accuracy(events), config);
    var list := Enumerate(cells.Keys);
    KeysListed(cells.Keys);
    CellsPartition(events, list);
    forall c | c in list ensures Weighted(cells)(c) == CorrectIn(events)(c) { WeightedCell(events, config, c); }
    SumAgrees(Weighted(cells), CorrectIn(events), list);
  }

  /** The overall accuracy is the mean of the cell accuracies, weighted by the sizes of the cells. */
  lemma OverallIsWeightedMean(events: seq<Event>, config: Config)
    requires events != [] && config.Valid()
    ensures var cells := CellsOf(events, Accuracy(events), config);
            Accuracy(events) * SumSet(SizeIn(events), cells.Keys) == SumSet(Weighted(cells), cells.Keys)
  {
    hide *;
    CellsWeigh(events, config);
    AccuracyTimesSize(events);
  }

  lemma AccuracyTimesSize(events: seq<Event>)
    requires events != []
    ensures Accuracy(events) * |events| as real == Correct(events) as real
    ensures 0.0 <= Accuracy(events) <= 1.0
  {
    CorrectBounded(events);
    DivisionBounds(Correct(events), |events|);
  }

  /** The accuracy of a cell, counted once for each of its events. */
  function WeightOf(cell: Cell): real {
    cell.accuracy * cell.n as real
  }

  lemma WeightedCell(events: seq<Event>, config: Config, c: Coordinate)
    requires events != [] && config.Valid() && c in Coordinates(events)
    ensures Weighted(CellsOf(events, Accuracy(events), config))(c) == CorrectIn(events)(c)
  {
    InCellOccupied(events, c);
    CellAccuracy(InCell(events, c), Accuracy(events), config);
    hide Accuracy, Correct, InCell, CellOf, WeightOf;
  }

  ghost function Weighted(cells: map<Coordinate, Cell>): Coordinate -> real {
    c => if c in cells then WeightOf(cells[c]) else 0.0
  }

  lemma KeysListed(keys: set<Coordinate>)
    ensures Distinct(Enumerate(keys)) && forall c :: c in Enumerate(keys) <==> c in keys
  {
    assert forall c :: c in Enumerate(keys) <==> c in multiset(Enumerate(keys));
    DistinctMultiset(Enumerate(keys));
  }

  lemma CellAccuracy(events: seq<Event>, overall: real, config: Config)
    requires events != [] && config.Valid()
    ensures WeightOf(CellOf(events, overall, config)) == Correct(events) as real
    ensures 0.0 <= CellOf(events, overall, config).accuracy <= 1.0
    ensures CellOf(events, overall, config).n == |events| >= 1
  {
    CorrectBounded(events);
    DivisionBounds(Correct(events), |events|);
  }

  lemma DivisionBounds(part: nat, whole: nat)
    requires part <= whole && whole > 0
    ensures 0.0 <= part as real / whole as real <= 1.0
    ensures part as real / whole as real * whole as real == part as real
  {
  }

  // Node states.

  predicate IsWeak(cells: map<Coordinate, Cell>, c: Coordinate) {
    c in cells && cells[c].verdict.WeakCell?
  }

  /** The weak cells a node belongs to, in the order of its type tags. */
  function WeakCells(node: Node, affinity: seq<TypeTag>, cells: map<Coordinate, Cell>): seq<Coordinate> {
    if affinity == [] then []
    else
      var c := Coordinate(node.area, affinity[|affinity| - 1]);
      WeakCells(node, affinity[..|affinity| - 1], cells) + if IsWeak(cells, c) then [c] else []
  }

  function SeverityAt(cells: map<Coordinate, Cell>, c: Coordinate): real {
    if c in cells && cells[c].severity.Some? then cells[c].severity.value else 0.0
  }

  function MaxSeverity(list: seq<Coordinate>, cells: map<Coordinate, Cell>): real
    requires list != []
  {
    var last := SeverityAt(cells, list[|list| - 1]);
    if |list| == 1 then last
    else
      var before := MaxSeverity(list[..|list| - 1], cells);
      if before < last then last else before
  }

  /** The place of a type tag in the alphabetical order of the tags' names. */
  function TypeRank(tag: TypeTag): int {
    match tag
    case ApplyTag => 0
    case Concept => 1
    case Critic => 2
    case Fact => 3
    case Infer => 4
  }

  /** The order of the cells of one area by their names. */
  predicate NameLeq(a: Coordinate, b: Coordinate) {
    TypeRank(a.typeTag) <= TypeRank(b.typeTag)
  }

  /** The strongest severity counts; the basis lists the weak cells by name. */
  function SuspectState(weak: seq<Coordinate>, cells: map<Coordinate, Cell>): NodeState
    requires weak != []
  {
    var named := SortBy(NameLeq, weak);
    NodeState(Suspect, Some(MaxSeverity(weak, cells)),
              seq(|named|, i requires 0 <= i < |named| => CellBasis(named[i])))
  }

  /** A node has a state exactly if it belongs to a weak cell, and then that of its weak cells. */
  ghost predicate FollowsFrom(cells: map<Coordinate, Cell>, node: Node, states: map<string, NodeState>) {
    var weak := WeakCells(node, node.affinity, cells);
    (node.id in states <==> weak != []) && (weak != [] ==> states[node.id] == SuspectState(weak, cells))
  }

  /** The node states that follow from weak cells. */
  ghost predicate IsIndirect(nodes: seq<Node>, cells: map<Coordinate, Cell>, states: map<string, NodeState>) {
    && (forall v :: v in states ==> v in NodeIds(nodes))
    && (forall node :: node in nodes ==> FollowsFrom(cells, node, states))
  }

  method WeakCellsOf(node: Node, cells: map<Coordinate, Cell>) returns (weak: seq<Coordinate>)
    ensures weak == WeakCells(node, node.affinity, cells)
  {
    weak := [];
    for i := 0 to |node.affinity|
      invariant weak == WeakCells(node, node.affinity[..i], cells)
    {
      assert node.affinity[..i + 1][..i] == node.affinity[..i];
      var c := Coordinate(node.area, node.affinity[i]);
      if IsWeak(cells, c) { weak := weak + [c]; }
    }
    assert node.affinity[..|node.affinity|] == node.affinity;
  }

  function WithState(states: map<string, NodeState>, node: Node, cells: map<Coordinate, Cell>): map<string, NodeState> {
    var weak := WeakCells(node, node.affinity, cells);
    if weak == [] then states else states[node.id := SuspectState(weak, cells)]
  }

  lemma StateFollows(states: map<string, NodeState>, node: Node, other: Node, cells: map<Coordinate, Cell>)
    requires node.id !in states
    ensures FollowsFrom(cells, node, WithState(states, node, cells))
    ensures FollowsFrom(cells, other, states) && other.id != node.id ==>
              FollowsFrom(cells, other, WithState(states, node, cells))
    ensures forall v :: v in WithState(states, node, cells) ==> v in states || v == node.id
  {
    hide WeakCells, SuspectState;
  }

  lemma NextIndirect(nodes: seq<Node>, cells: map<Coordinate, Cell>, i: nat, states: map<string, NodeState>)
    requires UniqueIds(nodes) && i < |nodes| && IsIndirect(nodes[..i], cells, states)
    ensures IsIndirect(nodes[..i + 1], cells, WithState(states, nodes[i], cells))
  {
    var node := nodes[i];
    NextId(nodes, i);
    assert forall other :: other in nodes[..i] ==> other.id in NodeIds(nodes[..i]);
    hide WithState, FollowsFrom, UniqueIds, NodeIds;
    forall other | other in nodes[..i] ensures FollowsFrom(cells, other, WithState(states, node, cells)) {
      StateFollows(states, node, other, cells);
    }
    StateFollows(states, node, node, cells);
    assert nodes[..i + 1] == nodes[..i] + [node];
  }

  method BuildIndirectNodeStates(nodes: seq<Node>, cells: map<Coordinate, Cell>)
    returns (states: map<string, NodeState>)
    requires UniqueIds(nodes)
    ensures IsIndirect(nodes, cells, states)
  {
    states := map[];
    for i := 0 to |nodes|
      invariant IsIndirect(nodes[..i], cells, states)
    {
      hide SuspectState, IsIndirect, UniqueIds;
      var node := nodes[i];
      var weak := WeakCellsOf(node, cells);
      NextIndirect(nodes, cells, i, states);
      if weak != [] { states := states[node.id := SuspectState(weak, cells)]; }
    }
    assert nodes[..|nodes|] == nodes;
  }

  /** The events tagged with a node. */
  function EventsAt(events: seq<Event>, v: string): seq<Event> {
    if events == [] then []
    else
      var last := events[|events| - 1];
      EventsAt(events[..|events| - 1], v) + if last.nodeId == Some(v) then [last] else []
  }

  function TaggedNodes(events: seq<Event>): set<string> {
    set event | event in events && event.nodeId.Some? :: event.nodeId.value
  }

  function DirectState(events: seq<Event>, overall: real, config: Config): NodeState
    requires events != [] && config.severitySaturation > 0.0
  {
    var accuracy := Accuracy(events);
    var basis := seq(|events|, i requires 0 <= i < |events| => EventBasis(events[i].id));
    if Below(overall, accuracy, config) then NodeState(WeakConfirmed, Some(Severity(overall, accuracy, config)), basis)
    else NodeState(OkNode, None, basis)
  }

  /** The direct verdict on a node: none unless enough events are tagged with it. */
  function Direct(events: seq<Event>, v: string, overall: real, config: Config): Option<NodeState>
    requires config.Valid()
  {
    var tagged := EventsAt(events, v);
    if |tagged| < config.nodeMinItems then None else Some(DirectState(tagged, overall, config))
  }

  predicate IsDirectOk(events: seq<Event>, v: string, overall: real, config: Config)
    requires config.Valid()
  {
    Direct(events, v, overall, config).Some? && Direct(events, v, overall, config).value.verdict.OkNode?
  }

  /** Direct evidence overrides what follows from cells. */
  ghost predicate IsMerged(indirect: map<string, NodeState>, events: seq<Event>, overall: real, config: Config,
                           states: map<string, NodeState>)
    requires config.Valid()
  {
    && (forall v :: v in states <==> v in indirect || Direct(events, v, overall, config).Some?)
    && (forall v :: v in states ==> states[v] == if Direct(events, v, overall, config).Some?
                                                 then Direct(events, v, overall, config).value else indirect[v])
  }

  lemma NextTagged(events: seq<Event>, i: nat)
    requires i < |events|
    ensures TaggedNodes(events[..i + 1])
            == TaggedNodes(events[..i]) + if events[i].nodeId.Some? then {events[i].nodeId.value} else {}
    ensures forall v :: EventsAt(events[..i + 1], v)
                        == if events[i].nodeId == Some(v) then EventsAt(events[..i], v) + [events[i]]
                           else EventsAt(events[..i], v)
  {
    assert events[..i + 1][..i] == events[..i];
    assert events[..i + 1] == events[..i] + [events[i]];
    assert forall e :: e in events[..i + 1] <==> e in events[..i] || e == events[i];
    forall v ensures EventsAt(events[..i], v) + [] == EventsAt(events[..i], v) {}
  }

  /** The dictionary holds for each tagged node its events in order. */
  ghost predicate FilesTagged(grouped: map<string, seq<Event>>, events: seq<Event>) {
    && grouped.Keys == TaggedNodes(events)
    && forall v :: EventsAt(events, v) == if v in grouped then grouped[v] else []
  }

  lemma NextFiled(grouped: map<string, seq<Event>>, events: seq<Event>, i: nat)
    requires i < |events| && FilesTagged(grouped, events[..i])
    ensures events[i].nodeId.None? ==> FilesTagged(grouped, events[..i + 1])
    ensures events[i].nodeId.Some? ==>
              var v := events[i].nodeId.value;
              FilesTagged(grouped[v := (if v in grouped then grouped[v] else []) + [events[i]]], events[..i + 1])
  {
    hide TaggedNodes, EventsAt;
    NextTagged(events, i);
  }

  method GroupDirectEvents(events: seq<Event>) returns (grouped: map<string, seq<Event>>)
    ensures grouped.Keys == TaggedNodes(events)
    ensures forall v :: v in grouped ==> grouped[v] == EventsAt(events, v)
  {
    grouped := map[];
    for i := 0 to |events|
      invariant FilesTagged(grouped, events[..i])
    {
      hide FilesTagged;
      var event := events[i];
      NextFiled(grouped, events, i);
      if event.nodeId.Some? {
        var v := event.nodeId.value;
        grouped := grouped[v := (if v in grouped then grouped[v] else []) + [event]];
      }
    }
    assert events[..|events|] == events;
    hide TaggedNodes, EventsAt;
  }

  lemma {:induction false} EventsAtTagged(events: seq<Event>, v: string)
    ensures EventsAt(events, v) != [] ==> v in TaggedNodes(events)
  {
    if events != [] {
      EventsAtTagged(events[..|events| - 1], v);
      assert events == events[..|events| - 1] + [events[|events| - 1]];
    }
  }

  lemma DirectIsTagged(events: seq<Event>, overall: real, config: Config)
    requires config.Valid()
    ensures forall v :: Direct(events, v, overall, config).Some? ==> v in TaggedNodes(events)
  {
    hide DirectState, TaggedNodes;
    forall v ensures Direct(events, v, overall, config).Some? ==> v in TaggedNodes(events) {
      EventsAtTagged(events, v);
    }
  }

  method JudgeDirect(tagged: seq<Event>, ghost events: seq<Event>, ghost v: string, overall: real, config: Config)
    returns (verdict: Option<NodeState>)
    requires config.Valid() && tagged == EventsAt(events, v)
    ensures verdict == Direct(events, v, overall, config)
  {
    verdict := if |tagged| < config.nodeMinItems then None else Some(DirectState(tagged, overall, config));
  }

  method MergeDirectNodeStates(indirect: map<string, NodeState>, events: seq<Event>, overall: real, config: Config)
    returns (states: map<string, NodeState>, directOk: set<string>)
    requires config.Valid()
    ensures IsMerged(indirect, events, overall, config, states)
    ensures forall v :: v in directOk <==> IsDirectOk(events, v, overall, config)
  {
    hide Direct, EventsAt, TaggedNodes;
    var direct := GroupDirectEvents(events);
    DirectIsTagged(events, overall, config);
    states, directOk := indirect, {};
    var rest := direct.Keys;
    while rest != {}
      invariant rest <= direct.Keys
      invariant forall v :: v in states <==> v in indirect || (v !in rest && Direct(events, v, overall, config).Some?)
      invariant forall v :: v in states ==>
                              states[v] == if v !in rest && Direct(events, v, overall, config).Some?
                                           then Direct(events, v, overall, config).value else indirect[v]
      invariant forall v :: v in directOk <==> v !in rest && IsDirectOk(events, v, overall, config)
      decreases |rest|
    {
      var v :| v in rest;
      var verdict := JudgeDirect(direct[v], events, v, overall, config);
      rest := rest - {v};
      if verdict.Some? {
        states := states[v := verdict.value];
        if verdict.value.verdict.OkNode? { directOk := directOk + {v}; }
      }
    }
  }

  // The whole diagnosis.

  function Confirmed(events: seq<Event>): seq<Event> {
    if events == [] then []
    else
      var last := events[|events| - 1];
      Confirmed(events[..|events| - 1]) + if last.confirmed then [last] else []
  }

  ghost function UnknownIds(events: seq<Event>, g: Graph): set<string> {
    TaggedNodes(events) - NodeIds(g.nodes)
  }

  ghost function DirectOkNodes(events: seq<Event>, overall: real, config: Config): set<string>
    requires config.Valid()
  {
    set v | v in TaggedNodes(events) && IsDirectOk(events, v, overall, config)
  }

  predicate Judgeable(cells: map<Coordinate, Cell>) {
    exists c :: c in cells && !cells[c].verdict.UnknownCell?
  }

  /** Every cell that could be judged is weak. */
  predicate OverallLow(cells: map<Coordinate, Cell>) {
    forall c :: c in cells && !cells[c].verdict.UnknownCell? ==> cells[c].verdict.WeakCell?
  }

  ghost predicate IsPropagation(g: Graph, states: map<string, NodeState>, blocked: set<string>, config: Config,
                                propagated: map<string, PropagatedNode>)
    requires Loaded(g)
  {
    && (forall v :: v in propagated <==> Origins(g, blocked, states, v) != {}
                                         && Total(g, blocked, states, config, v) >= config.propagateThreshold)
    && (forall v :: v in propagated ==>
          propagated[v] == PropagatedNode(Total(g, blocked, states, config, v),
                                          Arrange(StrLeq, Origins(g, blocked, states, v))))
  }

  /** What the diagnosis of these confirmed events is. */
  ghost predicate IsDiagnosis(events: seq<Event>, g: Graph, config: Config, diagnosis: Diagnosis)
    requires Loaded(g) && config.Valid()
  {
    if events == [] || !Judgeable(CellsOf(events, Accuracy(events), config)) then diagnosis == Insufficient
    else
      && diagnosis.Generated?
      && diagnosis.cells == CellsOf(events, Accuracy(events), config)
      && (exists indirect :: IsIndirect(g.nodes, diagnosis.cells, indirect)
                             && IsMerged(indirect, events, Accuracy(events), config, diagnosis.nodes))
      && IsPropagation(g, diagnosis.nodes, DirectOkNodes(events, Accuracy(events), config), config,
                       diagnosis.propagated)
      && diagnosis.overallLow == OverallLow(diagnosis.cells)
  }

  /** The first version check that fails. */
  function VersionFault(setting: Setting): Option<DiagnosisError> {
    if setting.versions.graph != setting.graph.graphVersion then Some(GraphVersionDiffers)
    else if setting.versions.taxonomy != setting.graph.taxonomyVersion then Some(TaxonomyVersionDiffers)
    else if setting.versions.config == "" then Some(ConfigVersionEmpty)
    else None
  }

  /** The first check of the confirmed events that fails: unknown nodes, areas, misconception tags. */
  ghost function ReferenceFault(events: seq<Event>, setting: Setting): Option<DiagnosisError> {
    if UnknownIds(events, setting.graph) != {} then
      Some(UnknownNodes(Arrange(StrLeq, UnknownIds(events, setting.graph))))
    else if OffAreaIds(events, setting.graph.nodes) != {} then
      Some(AreaMismatch(Arrange(StrLeq, OffAreaIds(events, setting.graph.nodes))))
    else if OffVocabularyIds(events, setting.vocabulary) != {} then
      Some(InvalidTags(Arrange(StrLeq, OffVocabularyIds(events, setting.vocabulary))))
    else None
  }

  /** The outcome for these confirmed events. */
  ghost predicate IsOutcome(events: seq<Event>, setting: Setting, outcome: Outcome)
    requires setting.Valid()
  {
    && outcome.versions == setting.versions && outcome.snapshotHash == setting.snapshotHash
    && IsReport(outcome.report, events)
    && IsDiagnosis(events, setting.graph, setting.config, outcome.diagnosis)
  }

  /** The answer to a set of events: the first version check that fails, else a conflict if two events share an
      identifier, else the first check of the confirmed events that fails, else the outcome for the confirmed events. */
  ghost predicate Answers(events: set<Event>, setting: Setting, r: Result<Outcome, DiagnosisError>)
    requires setting.Valid()
  {
    if VersionFault(setting).Some? then r == Err(VersionFault(setting).value)
    else if !Consistent(events) then
      && r.Err? && r.error.Conflict?
      && exists a, b :: a in events && b in events && a != b && a.id == b.id == r.error.eventId
    else
      var confirmed := Confirmed(Arrange(EventLeq, events));
      var fault := ReferenceFault(confirmed, setting);
      if fault.Some? then r == Err(fault.value) else r.Ok? && IsOutcome(confirmed, setting, r.value)
  }

  method CheckReferences(events: seq<Event>, setting: Setting) returns (fault: Option<DiagnosisError>)
    ensures fault == ReferenceFault(events, setting)
  {
    hide Arrange, TaggedNodes, NodeIds, OffAreaIds, OffVocabularyIds;
    StrLeqIsTotal();
    var unknown := TaggedNodes(events) - NodeIds(setting.graph.nodes);
    if unknown != {} {
      var ids := SortedListing(StrLeq, unknown);
      return Some(UnknownNodes(ids));
    }
    if OffAreaIds(events, setting.graph.nodes) != {} {
      var ids := SortedListing(StrLeq, OffAreaIds(events, setting.graph.nodes));
      return Some(AreaMismatch(ids));
    }
    if OffVocabularyIds(events, setting.vocabulary) != {} {
      var ids := SortedListing(StrLeq, OffVocabularyIds(events, setting.vocabulary));
      return Some(InvalidTags(ids));
    }
    fault := None;
  }

  method DiagnoseConfirmed(events: seq<Event>, g: Graph, config: Config) returns (diagnosis: Diagnosis)
    requires Loaded(g) && config.Valid()
    ensures IsDiagnosis(events, g, config, diagnosis)
  {
    hide Loaded, CellsOf, IsIndirect, IsMerged, IsPropagation, Direct;
    if events == [] { return Insufficient; }
    var overall := Accuracy(events);
    var cells := BuildCells(events, overall, config);
    if !Judgeable(cells) { return Insufficient; }
    assert UniqueIds(g.nodes) by { LoadedIsUnique(g); }
    var indirect := BuildIndirectNodeStates(g.nodes, cells);
    var states, directOk := MergeDirectNodeStates(indirect, events, overall, config);
    assert directOk == DirectOkNodes(events, overall, config) by { DirectIsTagged(events, overall, config); }
    SeveritiesPositive(events, g.nodes, indirect, config, states);
    var propagated := Propagate(g, states, directOk, config);
    assert IsPropagation(g, states, directOk, config, propagated) by {
      PropagationIs(g, states, directOk, config, propagated);
    }
    diagnosis := Generated(cells, states, propagated, OverallLow(cells));
  }

  /** The diagnosis of a list of events, as they arrive. */
  method Diagnose(events: seq<Event>, setting: Setting) returns (r: Result<Outcome, DiagnosisError>)
    requires setting.Valid()
    ensures Answers(EventSet(events), setting, r)
  {
    hide IsDiagnosis, Loaded, Confirmed, IsReport, ReferenceFault, Arrange;
    if VersionFault(setting).Some? { return Err(VersionFault(setting).value); }
    var unique := Deduplicate(events);
    if unique.Err? { return Err(unique.error); }
    var confirmed := Confirmed(unique.value);
    var fault := CheckReferences(confirmed, setting);
    if fault.Some? { return Err(fault.value); }
    var report := BuildReport(confirmed);
    var diagnosis := DiagnoseConfirmed(confirmed, setting.graph, setting.config);
    r := Ok(Outcome(setting.versions, setting.snapshotHash, diagnosis, report));
  }

  lemma LoadedIsUnique(g: Graph)
    requires Loaded(g)
    ensures UniqueIds(g.nodes)
  {
  }

  lemma PropagationIs(g: Graph, states: map<string, NodeState>, blocked: set<string>, config: Config,
                      propagated: map<string, PropagatedNode>)
    requires Loaded(g)
    requires forall v :: v in propagated <==> Origins(g, blocked, states, v) != {}
                                              && Total(g, blocked, states, config, v) >= config.propagateThreshold
    requires forall v :: v in propagated ==>
                           propagated[v] == PropagatedNode(Total(g, blocked, states, config, v),
                                                           Arrange(StrLeq, Origins(g, blocked, states, v)))
    ensures IsPropagation(g, states, blocked, config, propagated)
  {
    hide Origins, Total, Arrange;
  }

  // What holds of every diagnosis.

  predicate InUnit(severity: Option<real>) {
    severity.Some? && 0.0 < severity.value <= 1.0
  }

  lemma CellsWellFormed(events: seq<Event>, config: Config, c: Coordinate)
    requires events != [] && config.Valid() && c in CellsOf(events, Accuracy(events), config)
    ensures var cell := CellsOf(events, Accuracy(events), config)[c];
            && cell.n == |InCell(events, c)| >= 1
            && 0.0 <= cell.accuracy <= 1.0
            && (cell.verdict.WeakCell? ==> InUnit(cell.severity) && cell.accuracy < Accuracy(events))
            && (!cell.verdict.WeakCell? ==> cell.severity.None?)
  {
    InCellOccupied(events, c);
    var mine, overall := InCell(events, c), Accuracy(events);
    CellAccuracy(mine, overall, config);
    if Below(overall, Accuracy(mine), config) { SeverityOfWeak(overall, Accuracy(mine), config); }
    hide Accuracy, Severity, WeightOf;
  }

  lemma {:induction false} MaxInUnit(list: seq<Coordinate>, cells: map<Coordinate, Cell>)
    requires list != [] && forall c :: c in list ==> c in cells && InUnit(cells[c].severity)
    ensures 0.0 < MaxSeverity(list, cells) <= 1.0
    ensures exists c :: c in list && MaxSeverity(list, cells) == SeverityAt(cells, c)
    ensures forall c :: c in list ==> SeverityAt(cells, c) <= MaxSeverity(list, cells)
  {
    var front, last := list[..|list| - 1], list[|list| - 1];
    assert list == front + [last];
    assert forall c :: c in list <==> c in front || c == last;
    if front != [] { MaxInUnit(front, cells); }
  }

  lemma {:induction false} WeakCellsAreWeak(node: Node, affinity: seq<TypeTag>, cells: map<Coordinate, Cell>)
    ensures forall c :: c in WeakCells(node, affinity, cells) ==> IsWeak(cells, c)
  {
    if affinity != [] { WeakCellsAreWeak(node, affinity[..|affinity| - 1], cells); }
  }

  /** Every suspected or confirmed weakness has a severity in (0, 1]. */
  lemma SeveritiesPositive(events: seq<Event>, nodes: seq<Node>, indirect: map<string, NodeState>, config: Config,
                           states: map<string, NodeState>)
    requires events != [] && config.Valid()
    requires IsIndirect(nodes, CellsOf(events, Accuracy(events), config), indirect)
    requires IsMerged(indirect, events, Accuracy(events), config, states)
    ensures forall v :: v in states && !states[v].verdict.OkNode? ==> InUnit(states[v].severity)
    ensures forall v :: v in states ==> states[v].basis != []
    ensures StatesHaveSeverity(states) && PositiveSeverity(states)
  {
    forall v | v in states
      ensures !states[v].verdict.OkNode? ==> InUnit(states[v].severity)
      ensures states[v].basis != []
    {
      if Direct(events, v, Accuracy(events), config).Some? {
        DirectInUnit(events, v, Accuracy(events), config);
      } else {
        IndirectInUnit(events, nodes, indirect, config, v);
      }
      hide Direct, IsIndirect, CellsOf;
    }
  }

  lemma DirectInUnit(events: seq<Event>, v: string, overall: real, config: Config)
    requires config.Valid() && Direct(events, v, overall, config).Some?
    ensures var state := Direct(events, v, overall, config).value;
            (!state.verdict.OkNode? ==> InUnit(state.severity)) && state.basis != [] && !state.verdict.Suspect?
  {
    var tagged := EventsAt(events, v);
    if Below(overall, Accuracy(tagged), config) { SeverityOfWeak(overall, Accuracy(tagged), config); }
  }

  lemma IndirectInUnit(events: seq<Event>, nodes: seq<Node>, indirect: map<string, NodeState>, config: Config,
                       v: string)
    requires events != [] && config.Valid() && v in indirect
    requires IsIndirect(nodes, CellsOf(events, Accuracy(events), config), indirect)
    ensures InUnit(indirect[v].severity) && indirect[v].basis != [] && indirect[v].verdict.Suspect?
  {
    var cells := CellsOf(events, Accuracy(events), config);
    var node :| node in nodes && node.id == v;
    var weak := WeakCells(node, node.affinity, cells);
    WeakCellsAreWeak(node, node.affinity, cells);
    forall c | c in weak ensures c in cells && InUnit(cells[c].severity) { CellsWellFormed(events, config, c); }
    hide CellsOf, WeakCells;
    MaxInUnit(weak, cells);
    SortBySorts(NameLeq, weak);
  }

  /** All judgeable cells can be weak only if some cell had too few events to be judged. */
  lemma OverallLowNeedsUnknown(events: seq<Event>, config: Config)
    requires events != [] && config.Valid() && OverallLow(CellsOf(events, Accuracy(events), config))
    ensures exists c :: c in CellsOf(events, Accuracy(events), config)
                        && CellsOf(events, Accuracy(events), config)[c].verdict.UnknownCell?
  {
    if NoneUnknown(CellsOf(events, Accuracy(events), config)) {
      hide *;
      AllWeakFallShort(events, config);
      ExpectedIsCorrect(events, config);
      assert false;
    }
  }

  ghost predicate NoneUnknown(cells: map<Coordinate, Cell>) {
    forall c :: c in cells ==> !cells[c].verdict.UnknownCell?
  }

  lemma AllWeakFallShort(events: seq<Event>, config: Config)
    requires events != [] && config.Valid()
    requires OverallLow(CellsOf(events, Accuracy(events), config))
    requires NoneUnknown(CellsOf(events, Accuracy(events), config))
    ensures var cells := CellsOf(events, Accuracy(events), config);
            SumSet(CorrectIn(events), cells.Keys) < SumSet(Expected(events), cells.Keys)
  {
    hide CellsOf, CorrectIn, Expected, Accuracy;
    var cells := CellsOf(events, Accuracy(events), config);
    var list := Enumerate(cells.Keys);
    KeysListed(cells.Keys);
    SomeCell(events, config);
    forall c | c in list ensures CorrectIn(events)(c) < Expected(events)(c) { WeakFallsShort(events, config, c); }
    SumLess(CorrectIn(events), Expected(events), list);
  }

  lemma ExpectedIsCorrect(events: seq<Event>, config: Config)
    requires events != [] && config.Valid()
    ensures var cells := CellsOf(events, Accuracy(events), config);
            SumSet(CorrectIn(events), cells.Keys) == SumSet(Expected(events), cells.Keys)
  {
    hide *;
    ValidSaturation(config);
    var cells := CellsOf(events, Accuracy(events), config);
    var list := Enumerate(cells.Keys);
    KeysListed(cells.Keys);
    CellsCover(events, config, list);
    ExpectedSum(events, list);
    AccuracyTimesSize(events);
    SumSetIs(CorrectIn(events), cells.Keys);
    SumSetIs(Expected(events), cells.Keys);
  }

  lemma ValidSaturation(config: Config)
    requires config.Valid()
    ensures config.severitySaturation > 0.0
  {
  }

  lemma SumSetIs(f: Coordinate -> real, s: set<Coordinate>)
    ensures SumSet(f, s) == SumOver(f, Enumerate(s))
  {
  }

  lemma SomeCell(events: seq<Event>, config: Config)
    requires events != [] && config.Valid()
    ensures CellsOf(events, Accuracy(events), config).Keys != {}
  {
    assert CoordinateOf(events[0]) in CellsOf(events, Accuracy(events), config);
  }

  lemma CellsCover(events: seq<Event>, config: Config, list: seq<Coordinate>)
    requires events != [] && config.Valid() && Distinct(list)
    requires forall c :: c in list <==> c in CellsOf(events, Accuracy(events), config)
    ensures SumOver(CorrectIn(events), list) == Correct(events) as real
    ensures SumOver(SizeIn(events), list) == |events| as real
  {
    hide SumOver, Correct, InCell, CellOf, CorrectIn, SizeIn, Distinct;
    CellsPartition(events, list);
  }

  /** What a cell would contribute at the overall accuracy. */
  ghost function Expected(events: seq<Event>): Coordinate -> real
    requires events != []
  {
    var overall := Accuracy(events);
    c => Portion(overall, |InCell(events, c)|)
  }

  lemma ExpectedSum(events: seq<Event>, list: seq<Coordinate>)
    requires events != []
    ensures SumOver(Expected(events), list) == Accuracy(events) * SumOver(SizeIn(events), list)
  {
    hide Accuracy, InCell, SumOver;
    forall c ensures Expected(events)(c) == Accuracy(events) * SizeIn(events)(c) {
      var n := |InCell(events, c)|;
      assert Portion(Accuracy(events), n) == Accuracy(events) * n as real;
    }
    SumScales(SizeIn(events), Expected(events), Accuracy(events), list);
  }

  lemma WeakFallsShort(events: seq<Event>, config: Config, c: Coordinate)
    requires events != [] && config.Valid() && c in CellsOf(events, Accuracy(events), config)
    requires CellsOf(events, Accuracy(events), config)[c].verdict.WeakCell?
    ensures CorrectIn(events)(c) < Expected(events)(c)
  {
    hide CellsOf, Accuracy, CorrectIn, Correct;
    CellsWellFormed(events, config, c);
    CellWeighs(events, config, c);
    var cell := CellsOf(events, Accuracy(events), config)[c];
    LessTimes(cell, Accuracy(events));
    assert CorrectIn(events)(c) == WeightOf(cell);
    assert Expected(events)(c) == Portion(Accuracy(events), cell.n);
  }

  lemma CellWeighs(events: seq<Event>, config: Config, c: Coordinate)
    requires events != [] && config.Valid() && c in CellsOf(events, Accuracy(events), config)
    ensures WeightOf(CellsOf(events, Accuracy(events), config)[c]) == CorrectIn(events)(c)
  {
    WeightedCell(events, config, c);
    hide WeightOf, Accuracy, CorrectIn, CellsOf;
  }

  function Portion(accuracy: real, n: nat): real {
    accuracy * n as real
  }

  lemma LessTimes(cell: Cell, b: real)
    requires cell.accuracy < b && cell.n >= 1
    ensures WeightOf(cell) < Portion(b, cell.n)
  {
    var n := cell.n as real;
    assert (b - cell.accuracy) * n > 0.0;
    assert (b - cell.accuracy) * n == b * n - cell.accuracy * n;
  }

  // The two main results about diagnoses.

  lemma IndirectUnique(nodes: seq<Node>, cells: map<Coordinate, Cell>,
                       a: map<string, NodeState>, b: map<string, NodeState>)
    requires IsIndirect(nodes, cells, a) && IsIndirect(nodes, cells, b)
    ensures a == b
  {
    hide WeakCells, SuspectState;
    forall v ensures v in a <==> v in b {
      if v in a { var node :| node in nodes && node.id == v; }
      if v in b { var node :| node in nodes && node.id == v; }
    }
    forall v | v in a ensures a[v] == b[v] { var node :| node in nodes && node.id == v; }
  }

  lemma MergedUnique(indirect: map<string, NodeState>, events: seq<Event>, overall: real, config: Config,
                     a: map<string, NodeState>, b: map<string, NodeState>)
    requires config.Valid()
    requires IsMerged(indirect, events, overall, config, a) && IsMerged(indirect, events, overall, config, b)
    ensures a == b
  {
    hide Direct;
  }

  lemma PropagationUnique(g: Graph, states: map<string, NodeState>, blocked: set<string>, config: Config,
                          a: map<string, PropagatedNode>, b: map<string, PropagatedNode>)
    requires Loaded(g) && IsPropagation(g, states, blocked, config, a) && IsPropagation(g, states, blocked, config, b)
    ensures a == b
  {
    hide Origins, Total, Arrange, Loaded;
  }

  lemma DiagnosisUnique(events: seq<Event>, g: Graph, config: Config, a: Diagnosis, b: Diagnosis)
    requires Loaded(g) && config.Valid() && IsDiagnosis(events, g, config, a) && IsDiagnosis(events, g, config, b)
    ensures a == b
  {
    hide Loaded, CellsOf, IsIndirect, IsMerged, IsPropagation, OverallLow;
    if a.Generated? && b.Generated? {
      var overall := Accuracy(events);
      var i :| IsIndirect(g.nodes, a.cells, i) && IsMerged(i, events, overall, config, a.nodes);
      var j :| IsIndirect(g.nodes, b.cells, j) && IsMerged(j, events, overall, config, b.nodes);
      IndirectUnique(g.nodes, a.cells, i, j);
      MergedUnique(i, events, overall, config, a.nodes, b.nodes);
      PropagationUnique(g, a.nodes, DirectOkNodes(events, overall, config), config, a.propagated, b.propagated);
    }
  }

  lemma OutcomeUnique(events: seq<Event>, setting: Setting, a: Outcome, b: Outcome)
    requires setting.Valid() && IsOutcome(events, setting, a) && IsOutcome(events, setting, b)
    ensures a == b
  {
    hide IsDiagnosis, Loaded, IsReport;
    DiagnosisUnique(events, setting.graph, setting.config, a.diagnosis, b.diagnosis);
    ReportUnique(events, events, a.report, b.report);
  }

  /** A diagnosis depends only on which events there are: listing them in another order or repeating some of them
      gives the same answer, except that a conflict may be reported for another of the conflicting identifiers. */
  lemma OnlyTheEventSetMatters(a: seq<Event>, b: seq<Event>, setting: Setting,
                               ra: Result<Outcome, DiagnosisError>, rb: Result<Outcome, DiagnosisError>)
    requires setting.Valid() && forall event :: event in a <==> event in b
    requires Answers(EventSet(a), setting, ra) && Answers(EventSet(b), setting, rb)
    ensures ra == rb || (ra.Err? && ra.error.Conflict? && rb.Err? && rb.error.Conflict?)
    ensures VersionFault(setting).None? ==>
              ((exists x, y :: x in a && y in a && x != y && x.id == y.id) <==> ra.Err? && ra.error.Conflict?)
  {
    assert EventSet(a) == EventSet(b);
    hide IsOutcome, Loaded, Arrange, Confirmed, UnknownIds, OffAreaIds, OffVocabularyIds;
    if VersionFault(setting).None? && Consistent(EventSet(a)) && ra.Ok? && rb.Ok? {
      OutcomeUnique(Confirmed(Arrange(EventLeq, EventSet(a))), setting, ra.value, rb.value);
    }
  }

  lemma DirectOkIsNoSource(indirect: map<string, NodeState>, events: seq<Event>, overall: real, config: Config,
                           states: map<string, NodeState>)
    requires config.Valid() && IsMerged(indirect, events, overall, config, states)
    ensures forall v :: v in DirectOkNodes(events, overall, config) ==> !IsSource(states, v)
  {
    hide Direct;
  }

  /** The basis of a state refers to weak cells of the diagnosis, or to events of the student. */
  ghost predicate GroundedIn(state: NodeState, cells: map<Coordinate, Cell>, events: seq<Event>) {
    && state.basis != []
    && forall basis <- state.basis ::
         match basis
         case CellBasis(c) => IsWeak(cells, c)
         case EventBasis(id) => exists e <- events :: e.id == id
  }

  lemma DirectIsGrounded(events: seq<Event>, v: string, overall: real, config: Config, cells: map<Coordinate, Cell>)
    requires config.Valid() && Direct(events, v, overall, config).Some?
    ensures GroundedIn(Direct(events, v, overall, config).value, cells, events)
  {
    var tagged, state := EventsAt(events, v), Direct(events, v, overall, config).value;
    EventsAtIn(events, v);
    hide Accuracy, Severity, EventsAt;
    assert |state.basis| == |tagged|;
    forall basis | basis in state.basis ensures basis.EventBasis? && exists e <- events :: e.id == basis.id {
      var i :| 0 <= i < |state.basis| && state.basis[i] == basis;
      assert tagged[i] in tagged;
    }
  }

  lemma {:induction false} EventsAtIn(events: seq<Event>, v: string)
    ensures forall e :: e in EventsAt(events, v) ==> e in events
  {
    if events != [] {
      var front, last := events[..|events| - 1], events[|events| - 1];
      EventsAtIn(front, v);
      assert events == front + [last];
    }
  }

  lemma SuspectIsGrounded(node: Node, cells: map<Coordinate, Cell>, events: seq<Event>)
    requires WeakCells(node, node.affinity, cells) != []
    ensures GroundedIn(SuspectState(WeakCells(node, node.affinity, cells), cells), cells, events)
  {
    var weak := WeakCells(node, node.affinity, cells);
    var named, state := SortBy(NameLeq, weak), SuspectState(weak, cells);
    WeakCellsAreWeak(node, node.affinity, cells);
    SortBySorts(NameLeq, weak);
    hide SortBy, WeakCells, MaxSeverity;
    assert |state.basis| == |named|;
    forall basis | basis in state.basis ensures basis.CellBasis? && IsWeak(cells, basis.coordinate) {
      var i :| 0 <= i < |state.basis| && state.basis[i] == basis;
      assert named[i] in named;
    }
  }

  /** Every judged node is a node of the graph and its state is grounded. */
  lemma StatesGrounded(events: seq<Event>, g: Graph, cells: map<Coordinate, Cell>, indirect: map<string, NodeState>,
                       overall: real, config: Config, states: map<string, NodeState>, v: string)
    requires config.Valid() && UnknownIds(events, g) == {}
    requires IsIndirect(g.nodes, cells, indirect) && IsMerged(indirect, events, overall, config, states) && v in states
    ensures v in NodeIds(g.nodes) && GroundedIn(states[v], cells, events)
  {
    hide Direct, TaggedNodes, SuspectState, WeakCells, GroundedIn;
    if Direct(events, v, overall, config).Some? {
      DirectIsTagged(events, overall, config);
      assert v in TaggedNodes(events) && v !in UnknownIds(events, g);
      DirectIsGrounded(events, v, overall, config, cells);
    } else {
      var node :| node in g.nodes && node.id == v;
      assert FollowsFrom(cells, node, indirect);
      SuspectIsGrounded(node, cells, events);
    }
  }

  /** Origins are judged nodes of the graph that are not fine; what they reach is a node of the graph, other than a
      directly good one, and has a positive score. */
  ghost predicate PropagatedFrom(propagated: PropagatedNode, nodes: map<string, NodeState>) {
    && propagated.score > 0.0 && propagated.origins != []
    && forall origin <- propagated.origins :: origin in nodes && !nodes[origin].verdict.OkNode?
  }

  /** Every generated diagnosis meets its own contract, and refers only to the graph, its own cells and its events. */
  lemma DiagnosisWellFormed(events: seq<Event>, g: Graph, config: Config, diagnosis: Diagnosis)
    requires Loaded(g) && PositiveWeights(g) && config.Valid() && UnknownIds(events, g) == {}
    requires IsDiagnosis(events, g, config, diagnosis) && diagnosis.Generated?
    ensures diagnosis.cells != map[]
    ensures forall c :: c in diagnosis.cells ==>
                          && 0.0 <= diagnosis.cells[c].accuracy <= 1.0
                          && (if diagnosis.cells[c].verdict.WeakCell? then InUnit(diagnosis.cells[c].severity)
                              else diagnosis.cells[c].severity.None?)
    ensures forall v :: v in diagnosis.nodes ==>
                          && v in NodeIds(g.nodes) && GroundedIn(diagnosis.nodes[v], diagnosis.cells, events)
                          && (!diagnosis.nodes[v].verdict.OkNode? ==> InUnit(diagnosis.nodes[v].severity))
    ensures forall v :: v in diagnosis.propagated ==>
                          && v in NodeIds(g.nodes) && PropagatedFrom(diagnosis.propagated[v], diagnosis.nodes)
                          && v !in DirectOkNodes(events, Accuracy(events), config)
    ensures diagnosis.overallLow ==> exists c :: c in diagnosis.cells && diagnosis.cells[c].verdict.UnknownCell?
  {
    var overall := Accuracy(events);
    var blocked := DirectOkNodes(events, overall, config);
    var indirect :| IsIndirect(g.nodes, diagnosis.cells, indirect)
                    && IsMerged(indirect, events, overall, config, diagnosis.nodes);
    forall c | c in diagnosis.cells
      ensures 0.0 <= diagnosis.cells[c].accuracy <= 1.0
              && (if diagnosis.cells[c].verdict.WeakCell? then InUnit(diagnosis.cells[c].severity)
                  else diagnosis.cells[c].severity.None?)
    {
      CellsWellFormed(events, config, c);
    }
    hide CellsOf, Accuracy, IsIndirect, IsMerged, DirectOkNodes, InUnit, Loaded, OverallLow, GroundedIn, UnknownIds;
    hide PropagatedFrom, NodeIds;
    SeveritiesPositive(events, g.nodes, indirect, config, diagnosis.nodes);
    if diagnosis.overallLow { OverallLowNeedsUnknown(events, config); }
    forall v | v in diagnosis.nodes
      ensures v in NodeIds(g.nodes) && GroundedIn(diagnosis.nodes[v], diagnosis.cells, events)
    {
      StatesGrounded(events, g, diagnosis.cells, indirect, overall, config, diagnosis.nodes, v);
    }
    forall v | v in diagnosis.propagated
      ensures v in NodeIds(g.nodes) && PropagatedFrom(diagnosis.propagated[v], diagnosis.nodes) && v !in blocked
    {
      PropagatedWellFormed(g, blocked, diagnosis.nodes, config, v, diagnosis.propagated);
    }
  }

  lemma PropagatedWellFormed(g: Graph, blocked: set<string>, states: map<string, NodeState>, config: Config, v: string,
                             propagated: map<string, PropagatedNode>)
    requires Loaded(g) && PositiveWeights(g) && config.Valid() && PositiveSeverity(states)
    requires IsPropagation(g, states, blocked, config, propagated) && v in propagated
    ensures v in NodeIds(g.nodes) && PropagatedFrom(propagated[v], states) && v !in blocked
  {
    hide Total, Arrange, Loaded, PositiveWeights, PositiveSeverity, NodeIds;
    var origins := Origins(g, blocked, states, v);
    ScoredExactlyIfReached(g, blocked, states, config, v);
    ListingEmpty(origins);
    StrLeqIsTotal();
    ArrangeSorts(StrLeq, origins);
    if v in blocked { BlockedHasNoOrigin(g, blocked, states, v); }
    var origin :| origin in origins;
    ReachedIsNode(g, blocked, origin, 0, v);
  }
}
