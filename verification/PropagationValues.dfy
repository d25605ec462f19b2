/** What a propagated score is worth: who reaches whom, what a source contributes, and how weights and decay enter. */
module PropagationValues {
  import opened Ordering
  import opened SkillGraph
  import opened Sums
  import opened DiagnosisTypes
  import opened Propagation

  // The decay and the weight of a path.

  lemma {:induction false} PowerLaws(base: real, m: nat, n: nat)
    ensures Power(base, 0) == 1.0 && Power(base, 1) == base
    ensures Power(base, m + n) == Power(base, m) * Power(base, n)
  {
    if m > 0 {
      PowerLaws(base, m - 1, n);
      MultiplyAssociates(base, Power(base, m - 1), Power(base, n));
    }
  }

  /** The weight of a path is the product of the weights of its edges. */
  lemma {:induction false} PathWeightLaws(g: Graph, path: seq<nat>, more: seq<nat>, i: nat)
    requires i < |g.edges|
    ensures PathWeight(g, []) == 1.0 && PathWeight(g, [i]) == g.edges[i].weight
    ensures PathWeight(g, path + more) == PathWeight(g, path) * PathWeight(g, more)
  {
    assert [i][1..] == [];
    if path == [] {
      assert path + more == more;
    } else {
      assert (path + more)[1..] == path[1..] + more;
      PathWeightLaws(g, path[1..], more, i);
      var first := if path[0] < |g.edges| then g.edges[path[0]].weight else 0.0;
      MultiplyAssociates(first, PathWeight(g, path[1..]), PathWeight(g, more));
    }
  }

  // What a source contributes.

  /** Over all these paths that arrive at `v`: the product of the weights, decayed once for every edge. */
  ghost function DecayedWeights(g: Graph, decay: real, paths: seq<seq<nat>>, v: string): real {
    if paths == [] then 0.0
    else (if ArrivesAt(g, paths[0], v) then PathWeight(g, paths[0]) * Power(decay, |paths[0]|) else 0.0)
         + DecayedWeights(g, decay, paths[1..], v)
  }

  lemma TermFactors(k: Walk, path: seq<nat>, v: string)
    ensures PathTerm(k, Item(k.source, 0, 1.0), path, v)
            == k.strength * if ArrivesAt(k.g, path, v) then PathWeight(k.g, path) * Power(k.decay, |path|) else 0.0
  {
    MultiplyAssociates(k.strength, PathWeight(k.g, path), Power(k.decay, |path|));
  }

  lemma {:induction false} PathSumFactors(k: Walk, paths: seq<seq<nat>>, v: string)
    ensures PathSum(k, Item(k.source, 0, 1.0), paths, v) == k.strength * DecayedWeights(k.g, k.decay, paths, v)
  {
    if paths != [] {
      hide PathTerm, ArrivesAt, PathWeight, Power;
      var first := if ArrivesAt(k.g, paths[0], v) then PathWeight(k.g, paths[0]) * Power(k.decay, |paths[0]|) else 0.0;
      TermFactors(k, paths[0], v);
      PathSumFactors(k, paths[1..], v);
      Distributes(k.strength, first, DecayedWeights(k.g, k.decay, paths[1..], v));
    }
  }

  lemma Distributes(a: real, b: real, c: real)
    ensures a * (b + c) == a * b + a * c
  {
  }

  /** What a node contributes to `v`: a confirmed weakness its severity for every decayed path weight, a suspected one
      that times the damping, any other node nothing. */
  lemma ShareOfSource(g: Graph, blocked: set<string>, states: map<string, NodeState>, config: Config, source: string,
                      v: string)
    requires Loaded(g) && source in states && states[source].severity.Some?
    ensures var severity := states[source].severity.value;
      var reached := DecayedWeights(g, config.decay, PathsFrom(g, blocked, source, 0), v);
      Share(g, blocked, states, config, source, v)
      == match states[source].verdict
         case WeakConfirmed => severity * reached
         case Suspect => (severity * config.suspectDamping) * reached
         case OkNode => 0.0
  {
    hide PathsFrom, PathSum, DecayedWeights;
    PathSumFactors(WalkOf(g, blocked, states, config, source), PathsFrom(g, blocked, source, 0), v);
  }

  /** Suspecting a source instead of confirming it damps its share. */
  lemma SuspicionIsDamped(g: Graph, blocked: set<string>, states: map<string, NodeState>, config: Config,
                          source: string, v: string)
    requires Loaded(g) && source in states && states[source].severity.Some? && states[source].verdict.WeakConfirmed?
    ensures var suspected := states[source := states[source].(verdict := Suspect)];
      Share(g, blocked, suspected, config, source, v)
      == config.suspectDamping * Share(g, blocked, states, config, source, v)
  {
    var suspected := states[source := states[source].(verdict := Suspect)];
    hide PathsFrom, DecayedWeights, Share;
    ShareOfSource(g, blocked, states, config, source, v);
    ShareOfSource(g, blocked, suspected, config, source, v);
    var reached := DecayedWeights(g, config.decay, PathsFrom(g, blocked, source, 0), v);
    MultiplyAssociates(config.suspectDamping, states[source].severity.value, reached);
  }

  /** Only judged nodes of the graph that are not fine count, each once. */
  lemma TotalIsOverSources(g: Graph, blocked: set<string>, states: map<string, NodeState>, config: Config, v: string,
                           sources: seq<string>)
    requires Loaded(g) && Distinct(sources)
    requires forall u :: u in sources <==> u in NodeIds(g.nodes) && u in states
                                           && (states[u].verdict.Suspect? || states[u].verdict.WeakConfirmed?)
    ensures Total(g, blocked, states, config, v) == SumOver(ShareTo(g, blocked, states, config, v), sources)
  {
    assert forall u :: u in sources <==> u in Sources(g, states);
    DistinctIsSet(sources, Sources(g, states));
    SumPermutes(ShareTo(g, blocked, states, config, v), sources, Enumerate(Sources(g, states)));
  }

  // One edge, and two in a row, in closed form.

  lemma NoWayBack(g: Graph, blocked: set<string>, u: string, i: nat)
    requires Loaded(g) && i <= |g.edges| && forall j :: i <= j < |g.edges| ==> g.edges[j].to != u
    ensures PathsFrom(g, blocked, u, i) == []
    decreases |g.edges| - i
  {
    if i < |g.edges| { NoWayBack(g, blocked, u, i + 1); }
  }

  lemma OneEdgePaths(g: Graph, blocked: set<string>, edge: Edge)
    requires Loaded(g) && g.edges == [edge] && (edge.kind.Requires? || edge.kind.BuildsOn?) && edge.from !in blocked
    ensures PathsFrom(g, blocked, edge.to, 0) == [[0]]
  {
    assert Usable(g, blocked, edge.to, 0);
    WalkingBackClimbs(g, blocked, edge.to, 0);
    NoWayBack(g, blocked, edge.from, 0);
    NoWayBack(g, blocked, edge.to, 1);
    PathsUnfold(g, blocked, edge.to, 0);
  }

  /** The graph of one edge: its origin's score is severity, damping, weight and decay, each once. */
  lemma OneEdgeScore(g: Graph, blocked: set<string>, states: map<string, NodeState>, config: Config, edge: Edge)
    requires Loaded(g) && g.edges == [edge] && (edge.kind.Requires? || edge.kind.BuildsOn?) && edge.from !in blocked
    requires states.Keys == {edge.to} && states[edge.to].severity.Some? && !states[edge.to].verdict.OkNode?
    ensures Total(g, blocked, states, config, edge.from)
            == states[edge.to].severity.value
               * (if states[edge.to].verdict.Suspect? then config.suspectDamping else 1.0)
               * (edge.weight * config.decay)
  {
    hide Loaded, Share, Power, PathWeight, PathsFrom, PathSum;
    OneEdgePaths(g, blocked, edge);
    EndsAreNodes(g, 0);
    TotalIsOverSources(g, blocked, states, config, edge.from, [edge.to]);
    SumOfOne(ShareTo(g, blocked, states, config, edge.from), edge.to);
    ShareOfSource(g, blocked, states, config, edge.to, edge.from);
    OnePath(g, config.decay, edge.from);
    hide Total, SumOver, DecayedWeights;
  }

  lemma SumOfOne(f: string -> real, x: string)
    ensures SumOver(f, [x]) == f(x)
  {
    SumAppend(f, [], x);
    assert [] + [x] == [x];
  }

  lemma OnePath(g: Graph, decay: real, v: string)
    requires |g.edges| > 0 && g.edges[0].from == v
    ensures DecayedWeights(g, decay, [[0]], v) == g.edges[0].weight * decay
  {
    PathWeightLaws(g, [], [], 0);
    PowerLaws(decay, 0, 0);
    assert [[0]][1..] == [];
  }

  // Who reaches whom.

  /** Some edge says that `w` requires `u` or builds on it. */
  predicate Leads(g: Graph, u: string, w: string) {
    exists edge :: edge in g.edges && edge.from == u && edge.to == w && (edge.kind.Requires? || edge.kind.BuildsOn?)
  }

  /** From `v` up to the source along edges, every node before the source open. */
  ghost predicate IsRoute(g: Graph, blocked: set<string>, route: seq<string>, v: string, source: string) {
    && |route| >= 2 && route[0] == v && route[|route| - 1] == source
    && forall k :: 0 <= k < |route| - 1 ==> route[k] !in blocked && Leads(g, route[k], route[k + 1])
  }

  lemma {:induction false} ReachesFirstEdge(g: Graph, blocked: set<string>, u: string, i: nat, v: string)
    requires Loaded(g) && i <= |g.edges|
    ensures Reaches(g, blocked, u, i, v) <==>
            exists j :: i <= j < |g.edges| && Usable(g, blocked, u, j)
                        && (g.edges[j].from == v || Reaches(g, blocked, g.edges[j].from, 0, v))
    decreases |g.edges| - i
  {
    hide Usable, Loaded;
    if i == |g.edges| {
      NothingReached(g, blocked, u, v);
    } else {
      ReachesUnfold(g, blocked, u, i, v);
      ReachesFirstEdge(g, blocked, u, i + 1, v);
    }
  }

  lemma {:induction false} RouteOf(g: Graph, blocked: set<string>, u: string, v: string) returns (route: seq<string>)
    requires Loaded(g) && Reaches(g, blocked, u, 0, v)
    ensures IsRoute(g, blocked, route, v, u)
    decreases Layer(g, u)
  {
    hide Reaches, Loaded;
    ReachesFirstEdge(g, blocked, u, 0, v);
    var j :| 0 <= j < |g.edges| && Usable(g, blocked, u, j)
             && (g.edges[j].from == v || Reaches(g, blocked, g.edges[j].from, 0, v));
    var edge := g.edges[j];
    assert edge in g.edges;
    if edge.from == v {
      route := [v, u];
    } else {
      WalkingBackClimbs(g, blocked, u, j);
      var front := RouteOf(g, blocked, edge.from, v);
      route := front + [u];
      forall k | 0 <= k < |route| - 1 ensures route[k] !in blocked && Leads(g, route[k], route[k + 1]) {
        if k < |front| - 1 { assert Leads(g, front[k], front[k + 1]); }
      }
    }
  }

  lemma {:induction false} RouteReaches(g: Graph, blocked: set<string>, route: seq<string>, v: string, u: string)
    requires Loaded(g) && IsRoute(g, blocked, route, v, u)
    ensures Reaches(g, blocked, u, 0, v)
    decreases |route|
  {
    hide Reaches, Loaded;
    var n := |route| - 2;
    assert Leads(g, route[n], route[n + 1]);
    var edge :| edge in g.edges && edge.from == route[n] && edge.to == u
                && (edge.kind.Requires? || edge.kind.BuildsOn?);
    var j :| 0 <= j < |g.edges| && g.edges[j] == edge;
    if n > 0 {
      var front := route[..n + 1];
      forall k | 0 <= k < |front| - 1 ensures front[k] !in blocked && Leads(g, front[k], front[k + 1]) {
        assert Leads(g, route[k], route[k + 1]);
      }
      RouteReaches(g, blocked, front, v, edge.from);
    }
    ReachesFirstEdge(g, blocked, u, 0, v);
  }

  /** A source is an origin of a node exactly if a chain of `requires` and `builds_on` edges leads from the node to it
      on which every node before the source is open; `related` edges carry nothing. */
  lemma OriginsAreDependents(g: Graph, blocked: set<string>, states: map<string, NodeState>, v: string, source: string)
    requires Loaded(g)
    ensures source in Origins(g, blocked, states, v) <==>
            && source in NodeIds(g.nodes) && source in states
            && (states[source].verdict.Suspect? || states[source].verdict.WeakConfirmed?)
            && exists route :: IsRoute(g, blocked, route, v, source)
  {
    hide Loaded, Reaches, IsRoute;
    if Reaches(g, blocked, source, 0, v) { var route := RouteOf(g, blocked, source, v); }
    forall route | IsRoute(g, blocked, route, v, source) ensures Reaches(g, blocked, source, 0, v) {
      RouteReaches(g, blocked, route, v, source);
    }
  }
}
