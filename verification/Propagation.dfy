/** Weakness propagation: the queue that walks backward paths, and the sum over paths it computes. */
module Propagation {
  import opened Ordering
  import opened SkillGraph
  import opened GraphLoading
  import opened Sums
  import opened DiagnosisTypes

  /** A graph as the loader hands it out. */
  ghost predicate Loaded(g: Graph) {
    UniqueIds(g.nodes) && EdgesResolve(g.nodes, g.edges) && Acyclic(NodeIds(g.nodes), LinksOf(g.edges))
  }

  /** The topological order of a loaded graph. */
  ghost function Layers(g: Graph): (order: seq<string>)
    requires Loaded(g)
    ensures IsTopological(order, NodeIds(g.nodes), LinksOf(g.edges))
  {
    OrderExactlyIfAcyclic(NodeIds(g.nodes), LinksOf(g.edges));
    TopologicalResult(NodeIds(g.nodes), LinksOf(g.edges)).value
  }

  ghost function Position(order: seq<string>, v: string): nat {
    if order == [] || order[0] == v then 0 else 1 + Position(order[1..], v)
  }

  lemma {:induction false} PositionIs(order: seq<string>, i: nat)
    requires Distinct(order) && i < |order|
    ensures Position(order, order[i]) == i
  {
    if i > 0 { PositionIs(order[1..], i - 1); }
  }

  /** How far down the order a node is; every link leads further down. */
  ghost function Layer(g: Graph, v: string): nat
    requires Loaded(g)
  {
    Position(Layers(g), v)
  }

  /** Edge `i` can be walked backward from `u` without entering a blocked node. */
  predicate Usable(g: Graph, blocked: set<string>, u: string, i: nat)
    requires i < |g.edges|
  {
    g.edges[i].to == u && !g.edges[i].kind.Related? && g.edges[i].from !in blocked
  }

  lemma WalkingBackClimbs(g: Graph, blocked: set<string>, u: string, i: nat)
    requires Loaded(g) && i < |g.edges| && Usable(g, blocked, u, i)
    ensures Layer(g, g.edges[i].from) < Layer(g, u)
  {
    var order, edge := Layers(g), g.edges[i];
    assert edge.from in order && edge.to in order;
    var j, k :| 0 <= j < |order| && 0 <= k < |order| && order[j] == edge.from && order[k] == edge.to;
    assert edge in g.edges;
    PositionIs(order, j);
    PositionIs(order, k);
  }

  // Backward paths, as sequences of edge indexes.

  ghost predicate IsPath(g: Graph, blocked: set<string>, u: string, path: seq<nat>)
    decreases |path|
  {
    && path != []
    && path[0] < |g.edges| && Usable(g, blocked, u, path[0])
    && (|path| > 1 ==> IsPath(g, blocked, g.edges[path[0]].from, path[1..]))
  }

  ghost predicate ArrivesAt(g: Graph, path: seq<nat>, v: string) {
    path != [] && path[|path| - 1] < |g.edges| && g.edges[path[|path| - 1]].from == v
  }

  /** The product of the weights along a path. */
  ghost function PathWeight(g: Graph, path: seq<nat>): real {
    if path == [] then 1.0
    else (if path[0] < |g.edges| then g.edges[path[0]].weight else 0.0) * PathWeight(g, path[1..])
  }

  function Power(base: real, n: nat): real {
    if n == 0 then 1.0 else base * Power(base, n - 1)
  }

  ghost function Prepend(i: nat, paths: seq<seq<nat>>): seq<seq<nat>> {
    if paths == [] then [] else [[i] + paths[0]] + Prepend(i, paths[1..])
  }

  /** All backward paths from `u` whose first edge has index `i` or more. */
  ghost function PathsFrom(g: Graph, blocked: set<string>, u: string, i: nat): seq<seq<nat>>
    requires Loaded(g) && i <= |g.edges|
    decreases Layer(g, u), |g.edges| - i
  {
    if i == |g.edges| then []
    else if !Usable(g, blocked, u, i) then PathsFrom(g, blocked, u, i + 1)
    else
      WalkingBackClimbs(g, blocked, u, i);
      [[i]] + Prepend(i, PathsFrom(g, blocked, g.edges[i].from, 0)) + PathsFrom(g, blocked, u, i + 1)
  }

  lemma {:induction false} PrependHas(i: nat, paths: seq<seq<nat>>, path: seq<nat>)
    ensures path in Prepend(i, paths) <==> path != [] && path[0] == i && path[1..] in paths
  {
    if paths != [] {
      PrependHas(i, paths[1..], path);
      assert path == [i] + paths[0] <==> path != [] && path[0] == i && path[1..] == paths[0] by {
        if path != [] { assert path == [path[0]] + path[1..]; }
      }
      assert paths == [paths[0]] + paths[1..];
    }
  }

  lemma NoPathsLeft(g: Graph, blocked: set<string>, u: string)
    requires Loaded(g)
    ensures PathsFrom(g, blocked, u, |g.edges|) == []
  {
  }

  lemma PathsUnfold(g: Graph, blocked: set<string>, u: string, i: nat)
    requires Loaded(g) && i < |g.edges|
    ensures var later := PathsFrom(g, blocked, u, i + 1);
            PathsFrom(g, blocked, u, i)
            == if Usable(g, blocked, u, i) then [[i]] + Prepend(i, PathsFrom(g, blocked, g.edges[i].from, 0)) + later
               else later
  {
  }

  /** A backward path from `u` whose first edge has index `i` or more. */
  ghost predicate IsPathFrom(g: Graph, blocked: set<string>, u: string, i: nat, path: seq<nat>) {
    IsPath(g, blocked, u, path) && path[0] >= i
  }

  lemma NoPathFromEnd(g: Graph, blocked: set<string>, u: string, path: seq<nat>)
    ensures !IsPathFrom(g, blocked, u, |g.edges|, path)
  {
  }

  /** A path starts with edge `i` and is that edge alone or goes on from its origin, or it starts later. */
  lemma IsPathUnfold(g: Graph, blocked: set<string>, u: string, i: nat, path: seq<nat>)
    requires i < |g.edges|
    ensures IsPathFrom(g, blocked, u, i, path) <==>
              || IsPathFrom(g, blocked, u, i + 1, path)
              || (&& Usable(g, blocked, u, i) && path != [] && path[0] == i
                  && (path == [i] || IsPathFrom(g, blocked, g.edges[i].from, 0, path[1..])))
  {
    hide Usable;
    if path != [] {
      assert path == [path[0]] + path[1..];
    }
  }

  lemma InUnfolded(i: nat, onward: seq<seq<nat>>, later: seq<seq<nat>>, path: seq<nat>)
    ensures path in [[i]] + Prepend(i, onward) + later <==>
              path in later || (path != [] && path[0] == i && (path == [i] || path[1..] in onward))
  {
    hide Prepend;
    PrependHas(i, onward, path);
    var first, through := [[i]], Prepend(i, onward);
    assert path in first <==> path == [i];
    assert path in first + through <==> path in first || path in through;
  }

  /** The enumeration contains every backward path, and nothing else. */
  lemma {:induction false} PathsAreExact(g: Graph, blocked: set<string>, u: string, i: nat, path: seq<nat>)
    requires Loaded(g) && i <= |g.edges|
    ensures path in PathsFrom(g, blocked, u, i) <==> IsPathFrom(g, blocked, u, i, path)
    decreases Layer(g, u), |g.edges| - i
  {
    hide *;
    if i == |g.edges| {
      NoPathsLeft(g, blocked, u);
      NoPathFromEnd(g, blocked, u, path);
    } else {
      PathsUnfold(g, blocked, u, i);
      IsPathUnfold(g, blocked, u, i, path);
      PathsAreExact(g, blocked, u, i + 1, path);
      if Usable(g, blocked, u, i) {
        WalkingBackClimbs(g, blocked, u, i);
        var from := g.edges[i].from;
        InUnfolded(i, PathsFrom(g, blocked, from, 0), PathsFrom(g, blocked, u, i + 1), path);
        if path != [] { PathsAreExact(g, blocked, from, 0, path[1..]); }
      }
    }
  }

  lemma {:induction false} PrependDistinct(i: nat, paths: seq<seq<nat>>)
    requires Distinct(paths)
    ensures Distinct(Prepend(i, paths)) && |Prepend(i, paths)| == |paths|
  {
    if paths != [] {
      PrependDistinct(i, paths[1..]);
      var rest := Prepend(i, paths[1..]);
      forall k | 0 <= k < |rest| ensures rest[k] != [i] + paths[0] {
        assert rest[k] in rest;
        PrependHas(i, paths[1..], rest[k]);
        assert ([i] + paths[0])[1..] == paths[0];
      }
    }
  }

  /** Every path starts with edge `i` or a later one. */
  predicate StartFrom(paths: seq<seq<nat>>, i: nat) {
    forall path :: path in paths ==> path != [] && path[0] >= i
  }

  lemma PrependStarts(i: nat, onward: seq<seq<nat>>, path: seq<nat>)
    requires path in [[i]] + Prepend(i, onward)
    ensures path != [] && path[0] == i
  {
    PrependHas(i, onward, path);
    if path !in Prepend(i, onward) { assert path in [[i]]; }
  }

  /** Paths through edge `i` and paths that start later are all different. */
  lemma DistinctByFirstEdge(i: nat, onward: seq<seq<nat>>, later: seq<seq<nat>>)
    requires Distinct(onward) && Distinct(later) && StartFrom(onward, 0) && StartFrom(later, i + 1)
    ensures Distinct([[i]] + Prepend(i, onward) + later)
  {
    PrependDistinct(i, onward);
    var first, through := [[i]], Prepend(i, onward);
    PrependHas(i, onward, [i]);
    OneIsDistinct([i]);
    hide Prepend, Distinct;
    assert [i][1..] == [];
    assert [i] !in through;
    forall path | path in first ensures path !in through { assert path == [i]; }
    ConcatDistinct(first, through);
    forall path | path in first + through ensures path !in later { PrependStarts(i, onward, path); }
    ConcatDistinct(first + through, later);
  }

  lemma NoneIsDistinct()
    ensures Distinct<seq<nat>>([])
  {
  }

  lemma OneIsDistinct<T>(x: T)
    ensures Distinct([x])
  {
  }

  lemma PathsStartAt(g: Graph, blocked: set<string>, u: string, i: nat)
    requires Loaded(g) && i <= |g.edges|
    ensures StartFrom(PathsFrom(g, blocked, u, i), i)
  {
    forall path | path in PathsFrom(g, blocked, u, i) ensures path != [] && path[0] >= i {
      PathsAreExact(g, blocked, u, i, path);
    }
  }

  /** The enumeration lists every backward path once. */
  lemma {:induction false} PathsAreDistinct(g: Graph, blocked: set<string>, u: string, i: nat)
    requires Loaded(g) && i <= |g.edges|
    ensures Distinct(PathsFrom(g, blocked, u, i))
    decreases Layer(g, u), |g.edges| - i
  {
    hide *;
    if i == |g.edges| {
      NoPathsLeft(g, blocked, u);
      NoneIsDistinct();
    } else {
      PathsUnfold(g, blocked, u, i);
      PathsAreDistinct(g, blocked, u, i + 1);
      if Usable(g, blocked, u, i) {
        WalkingBackClimbs(g, blocked, u, i);
        PathsAreDistinct(g, blocked, g.edges[i].from, 0);
        PathsStartAt(g, blocked, g.edges[i].from, 0);
        PathsStartAt(g, blocked, u, i + 1);
        DistinctByFirstEdge(i, PathsFrom(g, blocked, g.edges[i].from, 0), PathsFrom(g, blocked, u, i + 1));
      }
    }
  }

  lemma ConcatDistinct<T>(a: seq<T>, b: seq<T>)
    requires Distinct(a) && Distinct(b) && forall x :: x in a ==> x !in b
    ensures Distinct(a + b)
  {
    var s := a + b;
    forall i, j | 0 <= i < j < |s| ensures s[i] != s[j] {
      if i < |a| <= j { assert s[i] in a && s[j] == b[j - |a|] && s[j] in b; }
    }
  }

  // One source: what its queue still owes to each node.

  /** What stays fixed while one source is walked. */
  datatype Walk = Walk(g: Graph, blocked: set<string>, source: string, strength: real, decay: real)

  /** A queue entry: where a path has arrived, its length, and the product of its weights. */
  datatype Item = Item(node: string, distance: nat, weight: real)

  function Contribution(k: Walk, item: Item): real {
    k.strength * item.weight * Power(k.decay, item.distance)
  }

  function Extended(k: Walk, item: Item, i: nat): Item
    requires i < |k.g.edges|
  {
    Item(k.g.edges[i].from, item.distance + 1, item.weight * k.g.edges[i].weight)
  }

  /** What the paths that extend `item`, first by an edge of index `i` or more, will contribute to `v`. */
  ghost function Pending(k: Walk, item: Item, i: nat, v: string): real
    requires Loaded(k.g) && i <= |k.g.edges|
    decreases Layer(k.g, item.node), |k.g.edges| - i
  {
    if i == |k.g.edges| then 0.0
    else if !Usable(k.g, k.blocked, item.node, i) then Pending(k, item, i + 1, v)
    else
      WalkingBackClimbs(k.g, k.blocked, item.node, i);
      var next := Extended(k, item, i);
      (if next.node == v then Contribution(k, next) else 0.0) + Pending(k, next, 0, v) + Pending(k, item, i + 1, v)
  }

  /** Some path from `u`, first by an edge of index `i` or more, arrives at `v`. */
  ghost predicate Reaches(g: Graph, blocked: set<string>, u: string, i: nat, v: string)
    requires Loaded(g) && i <= |g.edges|
    decreases Layer(g, u), |g.edges| - i
  {
    i < |g.edges| && (
      || Reaches(g, blocked, u, i + 1, v)
      || (Usable(g, blocked, u, i) && (
            WalkingBackClimbs(g, blocked, u, i);
            g.edges[i].from == v || Reaches(g, blocked, g.edges[i].from, 0, v))))
  }

  ghost function QueuePending(k: Walk, queue: seq<Item>, v: string): real
    requires Loaded(k.g)
  {
    if queue == [] then 0.0
    else QueuePending(k, queue[..|queue| - 1], v) + Pending(k, queue[|queue| - 1], 0, v)
  }

  ghost predicate QueueReaches(k: Walk, queue: seq<Item>, v: string)
    requires Loaded(k.g)
  {
    exists item :: item in queue && Reaches(k.g, k.blocked, item.node, 0, v)
  }

  /** Entries that will still be taken from the queue. */
  ghost function QueueWork(k: Walk, queue: seq<Item>): nat
    requires Loaded(k.g)
  {
    if queue == [] then 0
    else QueueWork(k, queue[..|queue| - 1]) + 1 + |PathsFrom(k.g, k.blocked, queue[|queue| - 1].node, 0)|
  }

  lemma {:induction false} TakeFirst(k: Walk, queue: seq<Item>)
    requires Loaded(k.g) && queue != []
    ensures forall v :: QueuePending(k, queue, v) == Pending(k, queue[0], 0, v) + QueuePending(k, queue[1..], v)
    ensures forall v :: QueueReaches(k, queue, v) <==>
                        Reaches(k.g, k.blocked, queue[0].node, 0, v) || QueueReaches(k, queue[1..], v)
    ensures QueueWork(k, queue) == 1 + |PathsFrom(k.g, k.blocked, queue[0].node, 0)| + QueueWork(k, queue[1..])
    decreases |queue|
  {
    hide Pending, Reaches, PathsFrom, Loaded;
    var front, tail := queue[..|queue| - 1], queue[1..];
    assert queue == [queue[0]] + tail;
    assert forall item :: item in queue <==> item == queue[0] || item in tail;
    if |queue| > 1 {
      TakeFirst(k, front);
      assert front[1..] == tail[..|tail| - 1] && tail[|tail| - 1] == queue[|queue| - 1];
    }
  }

  lemma AddLast(k: Walk, queue: seq<Item>, item: Item)
    requires Loaded(k.g)
    ensures forall v :: QueuePending(k, queue + [item], v) == QueuePending(k, queue, v) + Pending(k, item, 0, v)
    ensures forall v :: QueueReaches(k, queue + [item], v) <==>
                        QueueReaches(k, queue, v) || Reaches(k.g, k.blocked, item.node, 0, v)
    ensures QueueWork(k, queue + [item]) == QueueWork(k, queue) + 1 + |PathsFrom(k.g, k.blocked, item.node, 0)|
  {
    hide Pending, Reaches, PathsFrom, Loaded;
    var longer := queue + [item];
    assert longer[..|longer| - 1] == queue;
    assert forall other :: other in longer <==> other in queue || other == item;
  }

  lemma {:induction false} PrependLength(i: nat, paths: seq<seq<nat>>)
    ensures |Prepend(i, paths)| == |paths|
  {
    if paths != [] { PrependLength(i, paths[1..]); }
  }

  lemma WorkSplits(k: Walk, u: string, i: nat)
    requires Loaded(k.g) && i < |k.g.edges|
    ensures |PathsFrom(k.g, k.blocked, u, i)| ==
            |PathsFrom(k.g, k.blocked, u, i + 1)| +
            if Usable(k.g, k.blocked, u, i) then 1 + |PathsFrom(k.g, k.blocked, k.g.edges[i].from, 0)| else 0
  {
    if Usable(k.g, k.blocked, u, i) {
      WalkingBackClimbs(k.g, k.blocked, u, i);
      PrependLength(i, PathsFrom(k.g, k.blocked, k.g.edges[i].from, 0));
    }
  }

  lemma NothingLeft(k: Walk, item: Item)
    requires Loaded(k.g)
    ensures PathsFrom(k.g, k.blocked, item.node, |k.g.edges|) == []
    ensures forall v :: Pending(k, item, |k.g.edges|, v) == 0.0
    ensures forall v :: !Reaches(k.g, k.blocked, item.node, |k.g.edges|, v)
  {
  }

  lemma EdgeSplits(k: Walk, item: Item, i: nat)
    requires Loaded(k.g) && i < |k.g.edges|
    ensures var usable := Usable(k.g, k.blocked, item.node, i);
            var next := Extended(k, item, i);
            && (forall v :: Pending(k, item, i, v) == Pending(k, item, i + 1, v) + if usable then
                  (if next.node == v then Contribution(k, next) else 0.0) + Pending(k, next, 0, v) else 0.0)
            && (forall v :: Reaches(k.g, k.blocked, item.node, i, v) <==>
                  Reaches(k.g, k.blocked, item.node, i + 1, v)
                  || (usable && (next.node == v || Reaches(k.g, k.blocked, next.node, 0, v))))
  {
  }

  // The tables the walk updates.

  function ScoreOf(scores: map<string, real>, v: string): real {
    if v in scores then scores[v] else 0.0
  }

  function OriginsOf(origins: map<string, set<string>>, v: string): set<string> {
    if v in origins then origins[v] else {}
  }

  /** The origins a node has, and the source of the walk if the walk still leads there. */
  function Covered(k: Walk, origins: map<string, set<string>>, v: string, stillReached: bool): set<string> {
    OriginsOf(origins, v) + if stillReached then {k.source} else {}
  }

  /** A node has a score exactly when it has an origin. */
  ghost predicate Tracks(scores: map<string, real>, origins: map<string, set<string>>) {
    scores.Keys == origins.Keys && forall v :: v in origins ==> origins[v] != {}
  }

  /** Extend one path by every usable edge: add the contributions, note the source, and queue the longer paths. */
  method Expand(k: Walk, item: Item, scores: map<string, real>, origins: map<string, set<string>>, queue: seq<Item>)
    returns (scores': map<string, real>, origins': map<string, set<string>>, queue': seq<Item>)
    requires Loaded(k.g) && Tracks(scores, origins)
    ensures Tracks(scores', origins')
    ensures forall v :: ScoreOf(scores', v) + QueuePending(k, queue', v)
                        == ScoreOf(scores, v) + QueuePending(k, queue, v) + Pending(k, item, 0, v)
    ensures forall v :: Covered(k, origins', v, QueueReaches(k, queue', v))
                        == Covered(k, origins, v, QueueReaches(k, queue, v) || Reaches(k.g, k.blocked, item.node, 0, v))
    ensures QueueWork(k, queue') == QueueWork(k, queue) + |PathsFrom(k.g, k.blocked, item.node, 0)|
  {
    hide Loaded, QueuePending, QueueReaches, QueueWork, PathsFrom, Usable, Power, Pending, Reaches;
    NothingLeft(k, item);
    scores', origins', queue' := scores, origins, queue;
    for i := 0 to |k.g.edges|
      invariant Tracks(scores', origins')
      invariant forall v :: ScoreOf(scores', v) + QueuePending(k, queue', v) + Pending(k, item, i, v)
                            == ScoreOf(scores, v) + QueuePending(k, queue, v) + Pending(k, item, 0, v)
      invariant forall v ::
        Covered(k, origins', v, QueueReaches(k, queue', v) || Reaches(k.g, k.blocked, item.node, i, v))
        == Covered(k, origins, v, QueueReaches(k, queue, v) || Reaches(k.g, k.blocked, item.node, 0, v))
      invariant QueueWork(k, queue') + |PathsFrom(k.g, k.blocked, item.node, i)|
                == QueueWork(k, queue) + |PathsFrom(k.g, k.blocked, item.node, 0)|
    {
      WorkSplits(k, item.node, i);
      EdgeSplits(k, item, i);
      if Usable(k.g, k.blocked, item.node, i) {
        var next := Extended(k, item, i);
        var parent := next.node;
        AddLast(k, queue', next);
        scores' := scores'[parent := ScoreOf(scores', parent) + Contribution(k, next)];
        origins' := origins'[parent := OriginsOf(origins', parent) + {k.source}];
        queue' := queue' + [next];
      }
    }
  }

  /** The queue loop for one source. It ends because every entry taken stands for one of finitely many paths. */
  method WalkFrom(k: Walk, scores: map<string, real>, origins: map<string, set<string>>)
    returns (scores': map<string, real>, origins': map<string, set<string>>)
    requires Loaded(k.g) && Tracks(scores, origins)
    ensures Tracks(scores', origins')
    ensures forall v :: ScoreOf(scores', v) == ScoreOf(scores, v) + Pending(k, Item(k.source, 0, 1.0), 0, v)
    ensures forall v, t :: t in OriginsOf(origins', v) <==>
                           t in OriginsOf(origins, v) || (t == k.source && Reaches(k.g, k.blocked, k.source, 0, v))
  {
    hide Pending, Reaches, PathsFrom, Loaded;
    scores', origins' := scores, origins;
    var queue := [Item(k.source, 0, 1.0)];
    TakeFirst(k, queue);
    while queue != []
      invariant Tracks(scores', origins')
      invariant forall v :: ScoreOf(scores', v) + QueuePending(k, queue, v)
                            == ScoreOf(scores, v) + Pending(k, Item(k.source, 0, 1.0), 0, v)
      invariant forall v :: Covered(k, origins', v, QueueReaches(k, queue, v))
                            == Covered(k, origins, v, Reaches(k.g, k.blocked, k.source, 0, v))
      decreases QueueWork(k, queue)
    {
      TakeFirst(k, queue);
      scores', origins', queue := Expand(k, queue[0], scores', origins', queue[1..]);
    }
    assert forall v :: OriginsOf(origins', v) == Covered(k, origins', v, QueueReaches(k, queue, v));
  }

  // What the walk computes, as a sum over paths.

  ghost function PathTerm(k: Walk, item: Item, path: seq<nat>, v: string): real {
    if ArrivesAt(k.g, path, v)
    then k.strength * (item.weight * PathWeight(k.g, path)) * Power(k.decay, item.distance + |path|)
    else 0.0
  }

  ghost function PathSum(k: Walk, item: Item, paths: seq<seq<nat>>, v: string): real {
    if paths == [] then 0.0 else PathTerm(k, item, paths[0], v) + PathSum(k, item, paths[1..], v)
  }

  lemma {:induction false} PathSumConcat(k: Walk, item: Item, a: seq<seq<nat>>, b: seq<seq<nat>>, v: string)
    ensures PathSum(k, item, a + b, v) == PathSum(k, item, a, v) + PathSum(k, item, b, v)
  {
    if a == [] {
      assert a + b == b;
    } else {
      assert (a + b)[1..] == a[1..] + b;
      PathSumConcat(k, item, a[1..], b, v);
    }
  }

  lemma MultiplyAssociates(a: real, b: real, c: real)
    ensures a * (b * c) == (a * b) * c
  {
  }

  lemma TermExtends(k: Walk, item: Item, i: nat, path: seq<nat>, v: string)
    requires i < |k.g.edges| && path != []
    ensures PathTerm(k, item, [i] + path, v) == PathTerm(k, Extended(k, item, i), path, v)
  {
    var longer := [i] + path;
    assert longer[1..] == path && longer[|longer| - 1] == path[|path| - 1];
    MultiplyAssociates(item.weight, k.g.edges[i].weight, PathWeight(k.g, path));
  }

  lemma {:induction false} PathSumPrepend(k: Walk, item: Item, i: nat, paths: seq<seq<nat>>, v: string)
    requires i < |k.g.edges| && forall path :: path in paths ==> path != []
    ensures PathSum(k, item, Prepend(i, paths), v) == PathSum(k, Extended(k, item, i), paths, v)
  {
    if paths != [] {
      assert paths[0] in paths && forall path :: path in paths[1..] ==> path in paths;
      TermExtends(k, item, i, paths[0], v);
      PathSumPrepend(k, item, i, paths[1..], v);
      hide PathTerm;
    }
  }

  lemma TermOfOneEdge(k: Walk, item: Item, i: nat, v: string)
    requires i < |k.g.edges|
    ensures PathTerm(k, item, [i], v)
            == if Extended(k, item, i).node == v then Contribution(k, Extended(k, item, i)) else 0.0
  {
    assert [i][1..] == [];
    assert PathWeight(k.g, [i]) == k.g.edges[i].weight * 1.0;
  }

  /** What is pending for an entry is the sum, over all paths that extend it, of their contributions. */
  lemma {:induction false} PendingIsPathSum(k: Walk, item: Item, i: nat, v: string)
    requires Loaded(k.g) && i <= |k.g.edges|
    ensures Pending(k, item, i, v) == PathSum(k, item, PathsFrom(k.g, k.blocked, item.node, i), v)
    decreases Layer(k.g, item.node), |k.g.edges| - i
  {
    hide Loaded, PathTerm, Contribution;
    if i < |k.g.edges| {
      PendingIsPathSum(k, item, i + 1, v);
      if Usable(k.g, k.blocked, item.node, i) {
        WalkingBackClimbs(k.g, k.blocked, item.node, i);
        var next := Extended(k, item, i);
        PendingIsPathSum(k, next, 0, v);
        var onward, later := PathsFrom(k.g, k.blocked, next.node, 0), PathsFrom(k.g, k.blocked, item.node, i + 1);
        forall path | path in onward ensures path != [] { PathsAreExact(k.g, k.blocked, next.node, 0, path); }
        PathSumPrepend(k, item, i, onward, v);
        TermOfOneEdge(k, item, i, v);
        PathSumConcat(k, item, [[i]] + Prepend(i, onward), later, v);
        PathSumConcat(k, item, [[i]], Prepend(i, onward), v);
        assert PathSum(k, item, [[i]], v) == PathTerm(k, item, [i], v) by { assert [[i]][1..] == []; }
      }
    }
  }

  lemma NothingReached(g: Graph, blocked: set<string>, u: string, v: string)
    requires Loaded(g)
    ensures !Reaches(g, blocked, u, |g.edges|, v)
    ensures PathsFrom(g, blocked, u, |g.edges|) == []
  {
  }

  lemma ReachesUnfold(g: Graph, blocked: set<string>, u: string, i: nat, v: string)
    requires Loaded(g) && i < |g.edges|
    ensures Reaches(g, blocked, u, i, v) <==>
              || Reaches(g, blocked, u, i + 1, v)
              || (Usable(g, blocked, u, i)
                  && (g.edges[i].from == v || Reaches(g, blocked, g.edges[i].from, 0, v)))
  {
  }

  /** Some path of the list arrives at the node. */
  ghost predicate SomeArrives(g: Graph, paths: seq<seq<nat>>, v: string) {
    exists path :: path in paths && ArrivesAt(g, path, v)
  }

  lemma SomeArrivesConcat(g: Graph, a: seq<seq<nat>>, b: seq<seq<nat>>, v: string)
    ensures SomeArrives(g, a + b, v) <==> SomeArrives(g, a, v) || SomeArrives(g, b, v)
  {
    hide ArrivesAt;
    forall path | path in a || path in b ensures path in a + b {}
  }

  lemma OneArrives(g: Graph, i: nat, v: string)
    requires i < |g.edges|
    ensures SomeArrives(g, [[i]], v) <==> g.edges[i].from == v
  {
    assert [i] in [[i]];
  }

  /** A path extended at its start arrives where it did. */
  lemma PrependArrives(g: Graph, i: nat, onward: seq<seq<nat>>, v: string)
    requires StartFrom(onward, 0)
    ensures SomeArrives(g, Prepend(i, onward), v) <==> SomeArrives(g, onward, v)
  {
    forall path | path in onward && ArrivesAt(g, path, v)
      ensures [i] + path in Prepend(i, onward) && ArrivesAt(g, [i] + path, v)
    {
      PrependHas(i, onward, [i] + path);
      assert ([i] + path)[1..] == path;
    }
    forall path | path in Prepend(i, onward) && ArrivesAt(g, path, v)
      ensures path[1..] in onward && ArrivesAt(g, path[1..], v)
    {
      PrependHas(i, onward, path);
    }
  }

  /** A source reaches a node exactly if some backward path leads there. */
  lemma {:induction false} ReachesByPath(g: Graph, blocked: set<string>, u: string, i: nat, v: string)
    requires Loaded(g) && i <= |g.edges|
    ensures Reaches(g, blocked, u, i, v) <==> SomeArrives(g, PathsFrom(g, blocked, u, i), v)
    decreases Layer(g, u), |g.edges| - i
  {
    hide *;
    if i == |g.edges| {
      NothingReached(g, blocked, u, v);
      NoneArrives(g, v);
    } else {
      ReachesUnfold(g, blocked, u, i, v);
      PathsUnfold(g, blocked, u, i);
      ReachesByPath(g, blocked, u, i + 1, v);
      if Usable(g, blocked, u, i) {
        WalkingBackClimbs(g, blocked, u, i);
        var from := g.edges[i].from;
        var onward, later := PathsFrom(g, blocked, from, 0), PathsFrom(g, blocked, u, i + 1);
        ReachesByPath(g, blocked, from, 0, v);
        PathsStartAt(g, blocked, from, 0);
        PrependArrives(g, i, onward, v);
        OneArrives(g, i, v);
        SomeArrivesConcat(g, [[i]] + Prepend(i, onward), later, v);
        SomeArrivesConcat(g, [[i]], Prepend(i, onward), v);
      }
    }
  }

  lemma NoneArrives(g: Graph, v: string)
    ensures !SomeArrives(g, [], v)
  {
  }

  /** What a walk reaches is a node of the graph. */
  lemma {:induction false} ReachedIsNode(g: Graph, blocked: set<string>, u: string, i: nat, v: string)
    requires Loaded(g) && i <= |g.edges| && Reaches(g, blocked, u, i, v)
    ensures v in NodeIds(g.nodes)
    decreases Layer(g, u), |g.edges| - i
  {
    hide *;
    if i == |g.edges| {
      NothingReached(g, blocked, u, v);
    } else {
      ReachesUnfold(g, blocked, u, i, v);
      if Reaches(g, blocked, u, i + 1, v) {
        ReachedIsNode(g, blocked, u, i + 1, v);
      } else {
        WalkingBackClimbs(g, blocked, u, i);
        EndsAreNodes(g, i);
        if g.edges[i].from != v { ReachedIsNode(g, blocked, g.edges[i].from, 0, v); }
      }
    }
  }

  lemma EndsAreNodes(g: Graph, i: nat)
    requires Loaded(g) && i < |g.edges|
    ensures g.edges[i].from in NodeIds(g.nodes) && g.edges[i].to in NodeIds(g.nodes)
  {
  }

  ghost predicate StatesHaveSeverity(states: map<string, NodeState>) {
    forall v :: v in states && !states[v].verdict.OkNode? ==> states[v].severity.Some?
  }

  predicate IsSource(states: map<string, NodeState>, v: string) {
    v in states && !states[v].verdict.OkNode?
  }

  function Sources(g: Graph, states: map<string, NodeState>): set<string> {
    set v | v in NodeIds(g.nodes) && IsSource(states, v)
  }

  function Strength(state: NodeState, config: Config): real
    requires state.severity.Some?
  {
    state.severity.value * if state.verdict.Suspect? then config.suspectDamping else 1.0
  }

  function WalkOf(g: Graph, blocked: set<string>, states: map<string, NodeState>, config: Config, source: string): Walk
  {
    Walk(g, blocked, source,
         if IsSource(states, source) && states[source].severity.Some? then Strength(states[source], config) else 0.0,
         config.decay)
  }

  /** What one source adds to the score of `v`: the sum over all backward paths from it to `v`. */
  ghost function Share(g: Graph, blocked: set<string>, states: map<string, NodeState>, config: Config,
                       source: string, v: string): real
    requires Loaded(g)
  {
    PathSum(WalkOf(g, blocked, states, config, source), Item(source, 0, 1.0), PathsFrom(g, blocked, source, 0), v)
  }

  /** The score of a node: the sum, over all sources and all backward paths from them to the node that avoid blocked
      nodes, of severity, damping, the product of the weights and the decay to the power of the length. */
  ghost function Total(g: Graph, blocked: set<string>, states: map<string, NodeState>, config: Config, v: string): real
    requires Loaded(g)
  {
    SumSet(ShareTo(g, blocked, states, config, v), Sources(g, states))
  }

  ghost function ShareTo(g: Graph, blocked: set<string>, states: map<string, NodeState>, config: Config, v: string)
    : string -> real
    requires Loaded(g)
  {
    source => if Loaded(g) then Share(g, blocked, states, config, source, v) else 0.0
  }

  /** The sources with some backward path to the node that avoids blocked nodes. */
  ghost function Origins(g: Graph, blocked: set<string>, states: map<string, NodeState>, v: string): set<string>
    requires Loaded(g)
  {
    set source | source in Sources(g, states) && Reaches(g, blocked, source, 0, v)
  }

  /** Walk from every source and keep the nodes whose score meets the threshold. */
  method Propagate(g: Graph, states: map<string, NodeState>, blocked: set<string>, config: Config)
    returns (propagated: map<string, PropagatedNode>)
    requires Loaded(g) && StatesHaveSeverity(states)
    ensures forall v :: v in propagated <==>
                        Origins(g, blocked, states, v) != {}
                        && Total(g, blocked, states, config, v) >= config.propagateThreshold
    ensures forall v :: v in propagated ==>
                          propagated[v] == PropagatedNode(Total(g, blocked, states, config, v),
                                                          Arrange(StrLeq, Origins(g, blocked, states, v)))
  {
    hide Pending, Reaches, PathSum, PathsFrom, NodeIds, LinksOf, IsTopological, Acyclic, TopologicalResult;
    var topological := TopologicalNodeIds(g.nodes, g.edges);
    OrderExactlyIfAcyclic(NodeIds(g.nodes), LinksOf(g.edges));
    var order := topological.value;
    OrderLists(g, order);
    var scores, origins := WalkAll(g, states, blocked, config, order);
    propagated := AboveThreshold(scores, origins, config.propagateThreshold);
    forall v
      ensures v in scores <==> Origins(g, blocked, states, v) != {}
      ensures v in scores ==> scores[v] == Total(g, blocked, states, config, v)
                              && origins[v] == Origins(g, blocked, states, v)
    {
      assert OriginsOf(origins, v) == Origins(g, blocked, states, v);
      assert ScoreOf(scores, v) == Total(g, blocked, states, config, v);
      hide Origins, Total;
    }
  }

  lemma OrderLists(g: Graph, order: seq<string>)
    requires IsTopological(order, NodeIds(g.nodes), LinksOf(g.edges))
    ensures Distinct(order) && forall v :: v in order <==> v in NodeIds(g.nodes)
  {
  }

  method AboveThreshold(scores: map<string, real>, origins: map<string, set<string>>, threshold: real)
    returns (propagated: map<string, PropagatedNode>)
    requires Tracks(scores, origins)
    ensures forall v :: v in propagated <==> v in scores && scores[v] >= threshold
    ensures forall v :: v in propagated ==> propagated[v] == PropagatedNode(scores[v], Arrange(StrLeq, origins[v]))
  {
    hide Arrange, StrLess;
    StrLeqIsTotal();
    propagated := map[];
    var rest := scores.Keys;
    while rest != {}
      invariant rest <= scores.Keys
      invariant forall v :: v in propagated <==> v in scores && v !in rest && scores[v] >= threshold
      invariant forall v :: v in propagated ==> propagated[v] == PropagatedNode(scores[v], Arrange(StrLeq, origins[v]))
      decreases |rest|
    {
      var v :| v in rest;
      if scores[v] >= threshold {
        var from := SortedListing(StrLeq, origins[v]);
        propagated := propagated[v := PropagatedNode(scores[v], from)];
      }
      rest := rest - {v};
    }
  }

  /** The walk from one source adds its share to every score. */
  method WalkOne(g: Graph, states: map<string, NodeState>, blocked: set<string>, config: Config, source: string,
                 scores: map<string, real>, origins: map<string, set<string>>)
    returns (scores': map<string, real>, origins': map<string, set<string>>)
    requires Loaded(g) && Tracks(scores, origins)
    ensures Tracks(scores', origins')
    ensures forall v :: ScoreOf(scores', v) == ScoreOf(scores, v) + ShareTo(g, blocked, states, config, v)(source)
    ensures forall v, t :: t in OriginsOf(origins', v) <==>
                           t in OriginsOf(origins, v) || (t == source && Reaches(g, blocked, source, 0, v))
  {
    hide Loaded, Pending, Reaches, PathsFrom, PathSum;
    var k := WalkOf(g, blocked, states, config, source);
    scores', origins' := WalkFrom(k, scores, origins);
    forall v ensures Pending(k, Item(source, 0, 1.0), 0, v) == ShareTo(g, blocked, states, config, v)(source) {
      PendingIsPathSum(k, Item(source, 0, 1.0), 0, v);
    }
  }

  /** The outer loop, over the sources in reverse topological order. */
  method WalkAll(g: Graph, states: map<string, NodeState>, blocked: set<string>, config: Config, order: seq<string>)
    returns (scores: map<string, real>, origins: map<string, set<string>>)
    requires Loaded(g) && StatesHaveSeverity(states)
    requires Distinct(order) && forall v :: v in order <==> v in NodeIds(g.nodes)
    ensures Tracks(scores, origins)
    ensures forall v :: ScoreOf(scores, v) == Total(g, blocked, states, config, v)
    ensures forall v, t :: t in OriginsOf(origins, v) <==> t in Origins(g, blocked, states, v)
  {
    hide Loaded, Reaches, NodeIds, ShareTo, IsSource;
    scores, origins := map[], map[];
    ghost var done: seq<string> := [];
    var i := |order|;
    while i > 0
      invariant 0 <= i <= |order| && Tracks(scores, origins)
      invariant Distinct(done) && forall v :: v in done <==> v in order[i..] && IsSource(states, v)
      invariant forall v :: ScoreOf(scores, v) == SumOver(ShareTo(g, blocked, states, config, v), done)
      invariant forall v, t :: t in OriginsOf(origins, v) <==> t in done && Reaches(g, blocked, t, 0, v)
    {
      i := i - 1;
      var source := order[i];
      assert order[i..] == [source] + order[i + 1..];
      assert source !in order[i + 1..];
      if IsSource(states, source) {
        scores, origins := WalkOne(g, states, blocked, config, source, scores, origins);
        SumGrows(done, source);
        done := done + [source];
      }
    }
    assert order[0..] == order;
    assert forall v :: v in done <==> v in Sources(g, states);
    DistinctIsSet(done, Sources(g, states));
    forall v ensures ScoreOf(scores, v) == Total(g, blocked, states, config, v) {
      SumPermutes(ShareTo(g, blocked, states, config, v), done, Enumerate(Sources(g, states)));
    }
  }
}
