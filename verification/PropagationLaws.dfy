/** Laws of propagation: blocked nodes might as well be deleted, are never reached, and scores are never negative. */
module PropagationLaws {
  import opened Ordering
  import opened Selections
  import opened SkillGraph
  import opened Sums
  import opened DiagnosisTypes
  import opened Propagation

  function KeepNodes(nodes: seq<Node>, gone: set<string>): seq<Node> {
    Select((node: Node) => node.id !in gone, nodes)
  }

  predicate Keeps(edge: Edge, gone: set<string>) {
    edge.from !in gone && edge.to !in gone
  }

  function KeepEdges(edges: seq<Edge>, gone: set<string>): seq<Edge> {
    Select((edge: Edge) => Keeps(edge, gone), edges)
  }

  /** The graph without some nodes and without the edges at them. */
  function Without(g: Graph, gone: set<string>): Graph {
    g.(nodes := KeepNodes(g.nodes, gone), edges := KeepEdges(g.edges, gone))
  }

  lemma KeptNodes(nodes: seq<Node>, gone: set<string>)
    ensures forall node :: node in KeepNodes(nodes, gone) <==> node in nodes && node.id !in gone
  {
    SelectIn((node: Node) => node.id !in gone, nodes);
  }

  lemma KeptEdges(edges: seq<Edge>, gone: set<string>)
    ensures forall edge :: edge in KeepEdges(edges, gone) <==> edge in edges && Keeps(edge, gone)
  {
    SelectIn((edge: Edge) => Keeps(edge, gone), edges);
  }

  lemma UniqueTail(nodes: seq<Node>)
    requires UniqueIds(nodes) && nodes != []
    ensures UniqueIds(nodes[1..]) && forall node :: node in nodes[1..] ==> node.id != nodes[0].id
  {
  }

  lemma UniqueFrom(nodes: seq<Node>)
    requires nodes != [] && UniqueIds(nodes[1..]) && forall node :: node in nodes[1..] ==> node.id != nodes[0].id
    ensures UniqueIds(nodes)
  {
    forall i, j | 0 <= i < j < |nodes| ensures nodes[i].id != nodes[j].id {
      assert nodes[j] == nodes[1..][j - 1] && nodes[j] in nodes[1..];
      if i > 0 { assert nodes[i] == nodes[1..][i - 1]; }
    }
  }

  lemma {:induction false} KeptUnique(nodes: seq<Node>, gone: set<string>)
    requires UniqueIds(nodes)
    ensures UniqueIds(KeepNodes(nodes, gone))
  {
    if nodes != [] {
      UniqueTail(nodes);
      KeptUnique(nodes[1..], gone);
      KeptNodes(nodes[1..], gone);
      var kept := KeepNodes(nodes, gone);
      hide UniqueIds;
      if nodes[0].id !in gone {
        assert kept[1..] == KeepNodes(nodes[1..], gone);
        UniqueFrom(kept);
      }
    }
  }

  lemma KeptPrefix(edges: seq<Edge>, gone: set<string>, i: nat)
    requires i <= |edges|
    ensures KeepEdges(edges[..i], gone) <= KeepEdges(edges, gone)
  {
    SelectConcat((edge: Edge) => Keeps(edge, gone), edges[..i], edges[i..]);
    hide Select;
    assert edges == edges[..i] + edges[i..];
  }

  /** Where edge `i` sits among the edges that are kept. */
  lemma KeptAt(edges: seq<Edge>, gone: set<string>, i: nat)
    requires i < |edges|
    ensures var j := |KeepEdges(edges[..i], gone)|;
            && |KeepEdges(edges[..i + 1], gone)| == (if Keeps(edges[i], gone) then j + 1 else j)
            && (Keeps(edges[i], gone) ==> j < |KeepEdges(edges, gone)| && KeepEdges(edges, gone)[j] == edges[i])
            && j <= |KeepEdges(edges, gone)|
  {
    assert edges[..i + 1] == edges[..i] + [edges[i]];
    SelectAppend((edge: Edge) => Keeps(edge, gone), edges[..i], edges[i]);
    hide Select;
    KeptPrefix(edges, gone, i);
    KeptPrefix(edges, gone, i + 1);
  }

  lemma WithoutIsLoaded(g: Graph, gone: set<string>)
    requires Loaded(g)
    ensures Loaded(Without(g, gone))
    ensures NodeIds(Without(g, gone).nodes) == NodeIds(g.nodes) - gone
  {
    var h := Without(g, gone);
    KeptNodes(g.nodes, gone);
    KeptUnique(g.nodes, gone);
    KeptEdges(g.edges, gone);
    hide KeepNodes, KeepEdges;
    forall i | 0 <= i < |h.edges| ensures h.edges[i].from in NodeIds(h.nodes) && h.edges[i].to in NodeIds(h.nodes) {
      assert h.edges[i] in h.edges && h.edges[i] in g.edges;
    }
    forall walk ensures !IsCycle(walk, NodeIds(h.nodes), LinksOf(h.edges)) {
      assert !IsCycle(walk, NodeIds(g.nodes), LinksOf(g.edges));
    }
  }

  lemma NothingKept(edges: seq<Edge>, gone: set<string>)
    ensures |KeepEdges(edges[..0], gone)| == 0
  {
  }

  lemma SameContribution(k: Walk, h: Walk, item: Item)
    requires k.strength == h.strength && k.decay == h.decay
    ensures Contribution(k, item) == Contribution(h, item)
  {
  }

  /** Walking with blocked nodes and walking in the graph without them owe the same and reach the same. */
  lemma {:induction false} SameWithout(k: Walk, h: Walk, item: Item, i: nat, v: string)
    requires Loaded(k.g) && h.g == Without(k.g, k.blocked) && Loaded(h.g)
    requires h == k.(g := h.g, blocked := {})
    requires i <= |k.g.edges| && item.node !in k.blocked
    ensures var j := |KeepEdges(k.g.edges[..i], k.blocked)|;
            && j <= |h.g.edges|
            && Pending(k, item, i, v) == Pending(h, item, j, v)
            && (Reaches(k.g, k.blocked, item.node, i, v) <==> Reaches(h.g, {}, item.node, j, v))
    decreases Layer(k.g, item.node), |k.g.edges| - i
  {
    hide Loaded, Pending, Reaches, Layer, KeepEdges, Contribution;
    var j := |KeepEdges(k.g.edges[..i], k.blocked)|;
    if i == |k.g.edges| {
      assert k.g.edges[..i] == k.g.edges;
      NothingLeft(k, item);
      NothingLeft(h, item);
    } else {
      KeptAt(k.g.edges, k.blocked, i);
      EdgeSplits(k, item, i);
      SameWithout(k, h, item, i + 1, v);
      if Keeps(k.g.edges[i], k.blocked) {
        EdgeSplits(h, item, j);
        if Usable(k.g, k.blocked, item.node, i) {
          WalkingBackClimbs(k.g, k.blocked, item.node, i);
          SameWithout(k, h, Extended(k, item, i), 0, v);
          NothingKept(k.g.edges, k.blocked);
          assert Extended(k, item, i) == Extended(h, item, j);
          assert Contribution(k, Extended(k, item, i)) == Contribution(h, Extended(k, item, i)) by {
            SameContribution(k, h, Extended(k, item, i));
          }
        }
      }
    }
  }

  lemma ShareIsPending(g: Graph, blocked: set<string>, states: map<string, NodeState>, config: Config,
                       source: string, v: string)
    requires Loaded(g)
    ensures ShareTo(g, blocked, states, config, v)(source)
            == Pending(WalkOf(g, blocked, states, config, source), Item(source, 0, 1.0), 0, v)
  {
    PendingIsPathSum(WalkOf(g, blocked, states, config, source), Item(source, 0, 1.0), 0, v);
  }

  lemma SameFromSource(g: Graph, blocked: set<string>, states: map<string, NodeState>, config: Config,
                       source: string, v: string)
    requires Loaded(g) && Loaded(Without(g, blocked)) && source !in blocked
    ensures ShareTo(g, blocked, states, config, v)(source)
            == ShareTo(Without(g, blocked), {}, states, config, v)(source)
    ensures Reaches(g, blocked, source, 0, v) <==> Reaches(Without(g, blocked), {}, source, 0, v)
  {
    hide Loaded, Pending, Reaches, PathSum, PathsFrom, KeepEdges, KeepNodes, ShareTo;
    var h := Without(g, blocked);
    ShareIsPending(g, blocked, states, config, source, v);
    ShareIsPending(h, {}, states, config, source, v);
    NothingKept(g.edges, blocked);
    SameWithout(WalkOf(g, blocked, states, config, source), WalkOf(h, {}, states, config, source),
                Item(source, 0, 1.0), 0, v);
  }

  /** Deleting the blocked nodes, none of which is a source, changes no score and no origin. */
  lemma BlockedMightAsWellBeDeleted(g: Graph, blocked: set<string>, states: map<string, NodeState>, config: Config,
                                    v: string)
    requires Loaded(g) && forall u :: u in blocked ==> !IsSource(states, u)
    ensures Loaded(Without(g, blocked))
    ensures Total(g, blocked, states, config, v) == Total(Without(g, blocked), {}, states, config, v)
    ensures Origins(g, blocked, states, v) == Origins(Without(g, blocked), {}, states, v)
  {
    hide Loaded, Reaches, KeepEdges, KeepNodes, NodeIds, ShareTo;
    var h := Without(g, blocked);
    WithoutIsLoaded(g, blocked);
    var sources := Sources(g, states);
    assert sources == Sources(h, states);
    forall source | source in sources
      ensures ShareTo(g, blocked, states, config, v)(source) == ShareTo(h, {}, states, config, v)(source)
      ensures Reaches(g, blocked, source, 0, v) <==> Reaches(h, {}, source, 0, v)
    {
      SameFromSource(g, blocked, states, config, source, v);
    }
    assert forall source :: source in Enumerate(sources) ==> source in multiset(Enumerate(sources));
    SumAgrees(ShareTo(g, blocked, states, config, v), ShareTo(h, {}, states, config, v), Enumerate(sources));
  }

  /** No blocked node is ever reached. */
  lemma {:induction false} BlockedNeverReached(g: Graph, blocked: set<string>, u: string, i: nat, v: string)
    requires Loaded(g) && i <= |g.edges| && v in blocked
    ensures !Reaches(g, blocked, u, i, v)
    decreases Layer(g, u), |g.edges| - i
  {
    hide *;
    if i == |g.edges| {
      NothingReached(g, blocked, u, v);
    } else {
      ReachesUnfold(g, blocked, u, i, v);
      BlockedNeverReached(g, blocked, u, i + 1, v);
      if Usable(g, blocked, u, i) {
        WalkingBackClimbs(g, blocked, u, i);
        UsableFrom(g, blocked, u, i);
        BlockedNeverReached(g, blocked, g.edges[i].from, 0, v);
      }
    }
  }

  lemma UsableFrom(g: Graph, blocked: set<string>, u: string, i: nat)
    requires i < |g.edges| && Usable(g, blocked, u, i)
    ensures g.edges[i].from !in blocked
  {
  }

  lemma BlockedHasNoOrigin(g: Graph, blocked: set<string>, states: map<string, NodeState>, v: string)
    requires Loaded(g) && v in blocked
    ensures Origins(g, blocked, states, v) == {}
  {
    forall source ensures !Reaches(g, blocked, source, 0, v) { BlockedNeverReached(g, blocked, source, 0, v); }
  }

  ghost predicate PositiveWeights(g: Graph) {
    forall i :: 0 <= i < |g.edges| ==> 0.0 < g.edges[i].weight <= 1.0
  }

  lemma {:induction false} PowerPositive(base: real, n: nat)
    requires base > 0.0
    ensures Power(base, n) > 0.0
  {
    if n > 0 { PowerPositive(base, n - 1); }
  }

  lemma ProductPositive(a: real, b: real)
    requires a > 0.0 && b > 0.0
    ensures a * b > 0.0
  {
  }

  lemma ContributionPositive(k: Walk, item: Item)
    requires k.strength > 0.0 && item.weight > 0.0 && k.decay > 0.0
    ensures Contribution(k, item) > 0.0
  {
    PowerPositive(k.decay, item.distance);
    ProductPositive(k.strength, item.weight);
    ProductPositive(k.strength * item.weight, Power(k.decay, item.distance));
  }

  /** A walk from a source of positive strength owes a positive amount exactly to the nodes it reaches. */
  lemma {:induction false} PendingPositive(k: Walk, item: Item, i: nat, v: string)
    requires Loaded(k.g) && PositiveWeights(k.g) && k.decay > 0.0 && k.strength > 0.0 && item.weight > 0.0
    requires i <= |k.g.edges|
    ensures Pending(k, item, i, v) >= 0.0
    ensures Pending(k, item, i, v) > 0.0 <==> Reaches(k.g, k.blocked, item.node, i, v)
    decreases Layer(k.g, item.node), |k.g.edges| - i
  {
    hide Loaded, Pending, Reaches, Contribution, Layer;
    if i == |k.g.edges| {
      NothingLeft(k, item);
    } else {
      EdgeSplits(k, item, i);
      PendingPositive(k, item, i + 1, v);
      if Usable(k.g, k.blocked, item.node, i) {
        WalkingBackClimbs(k.g, k.blocked, item.node, i);
        var next := Extended(k, item, i);
        ProductPositive(item.weight, k.g.edges[i].weight);
        PendingPositive(k, next, 0, v);
        ContributionPositive(k, next);
      }
    }
  }

  ghost predicate PositiveSeverity(states: map<string, NodeState>) {
    forall v :: v in states && !states[v].verdict.OkNode? ==> states[v].severity.Some? && states[v].severity.value > 0.0
  }

  /** With positive severities, weights and decay, the nodes with a positive score are exactly those with an origin. */
  lemma ScoredExactlyIfReached(g: Graph, blocked: set<string>, states: map<string, NodeState>, config: Config,
                               v: string)
    requires Loaded(g) && PositiveWeights(g) && PositiveSeverity(states) && config.Valid()
    ensures Total(g, blocked, states, config, v) >= 0.0
    ensures Total(g, blocked, states, config, v) > 0.0 <==> Origins(g, blocked, states, v) != {}
  {
    hide Reaches, Loaded, ShareTo, SumOver, Enumerate, IsSource, PositiveWeights, PositiveSeverity;
    var list := Enumerate(Sources(g, states));
    EnumerationHolds(Sources(g, states));
    forall source | source in list
      ensures ShareTo(g, blocked, states, config, v)(source) >= 0.0
      ensures ShareTo(g, blocked, states, config, v)(source) > 0.0 <==> Reaches(g, blocked, source, 0, v)
    {
      SharePositive(g, blocked, states, config, source, v);
    }
    SumPositive(ShareTo(g, blocked, states, config, v), list);
    assert Total(g, blocked, states, config, v) == SumOver(ShareTo(g, blocked, states, config, v), list);
    var origins := Origins(g, blocked, states, v);
    assert forall source :: source in origins <==> source in list && Reaches(g, blocked, source, 0, v);
    assert origins != {} <==> exists source :: source in origins;
  }

  lemma EnumerationHolds(s: set<string>)
    ensures forall x :: x in Enumerate(s) <==> x in s
  {
    forall x ensures x in Enumerate(s) <==> x in s { assert x in Enumerate(s) <==> x in multiset(Enumerate(s)); }
  }

  lemma SharePositive(g: Graph, blocked: set<string>, states: map<string, NodeState>, config: Config, source: string,
                      v: string)
    requires Loaded(g) && PositiveWeights(g) && PositiveSeverity(states) && config.Valid()
    requires source in Sources(g, states)
    ensures ShareTo(g, blocked, states, config, v)(source) >= 0.0
    ensures ShareTo(g, blocked, states, config, v)(source) > 0.0 <==> Reaches(g, blocked, source, 0, v)
  {
    hide Loaded, Reaches, Pending, ShareTo;
    ShareIsPending(g, blocked, states, config, source, v);
    PendingPositive(WalkOf(g, blocked, states, config, source), Item(source, 0, 1.0), 0, v);
  }
}
