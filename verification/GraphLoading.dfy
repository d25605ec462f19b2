/** Kahn's algorithm in place, and the loader that validates a graph, orders it and puts it in canonical form. */
module GraphLoading {
  import opened Prelude
  import opened Ordering
  import opened SkillGraph

  /** How many link edges reach `v` from nodes not yet gone. */
  function Degree(edges: seq<Edge>, gone: set<string>, v: string): nat {
    if edges == [] then 0 else
      var last := edges[|edges| - 1];
      Degree(edges[..|edges| - 1], gone, v)
      + if !last.kind.Related? && last.to == v && last.from !in gone then 1 else 0
  }

  /** The targets of the link edges leaving `u`, in edge order. */
  function ChildrenOf(edges: seq<Edge>, u: string): seq<string> {
    if edges == [] then [] else
      var last := edges[|edges| - 1];
      ChildrenOf(edges[..|edges| - 1], u) + if !last.kind.Related? && last.from == u then [last.to] else []
  }

  lemma {:induction false} DegreeDrops(edges: seq<Edge>, gone: set<string>, u: string, v: string)
    requires u !in gone
    ensures Degree(edges, gone, v) == Degree(edges, gone + {u}, v) + multiset(ChildrenOf(edges, u))[v]
  {
    if edges != [] {
      DegreeDrops(edges[..|edges| - 1], gone, u, v);
    }
  }

  lemma {:induction false} DegreeZero(edges: seq<Edge>, gone: set<string>, v: string)
    ensures Degree(edges, gone, v) == 0 <==> forall u :: (u, v) in LinksOf(edges) ==> u in gone
  {
    if edges != [] {
      var front, last := edges[..|edges| - 1], edges[|edges| - 1];
      DegreeZero(front, gone, v);
      LinksGrow(edges);
    }
  }

  lemma LinksGrow(edges: seq<Edge>)
    requires edges != []
    ensures var last := edges[|edges| - 1];
            LinksOf(edges) == LinksOf(edges[..|edges| - 1]) + if last.kind.Related? then {} else {(last.from, last.to)}
  {
    var front, last := edges[..|edges| - 1], edges[|edges| - 1];
    assert edges == front + [last];
    assert forall edge :: edge in edges <==> edge in front || edge == last;
  }

  /** Remove a least element, as popping a min-heap does. */
  method PopLeast(heap: seq<string>) returns (least: string, rest: seq<string>)
    requires heap != []
    ensures least in heap && multiset(rest) == multiset(heap) - multiset{least}
    ensures forall x :: x in heap ==> StrLeq(least, x)
  {
    hide StrLess;
    var at := 0;
    StrOrder();
    for i := 1 to |heap|
      invariant 0 <= at < |heap|
      invariant forall k :: 0 <= k < i ==> StrLeq(heap[at], heap[k])
    {
      if StrLess(heap[i], heap[at]) { at := i; }
    }
    least, rest := heap[at], heap[..at] + heap[at + 1..];
    assert heap == heap[..at] + [heap[at]] + heap[at + 1..];
  }

  lemma {:induction false} IdsCounted(nodes: seq<Node>)
    requires UniqueIds(nodes)
    ensures |NodeIds(nodes)| == |nodes|
  {
    if nodes != [] {
      var front, last := nodes[..|nodes| - 1], nodes[|nodes| - 1];
      IdsCounted(front);
      assert last.id !in NodeIds(front) by {
        assert forall i :: 0 <= i < |front| ==> front[i].id == nodes[i].id;
      }
      assert nodes == front + [last];
      assert forall node :: node in nodes <==> node in front || node == last;
      assert NodeIds(nodes) == NodeIds(front) + {last.id};
    }
  }

  function Passing(ids: set<string>, keep: string -> bool): set<string> {
    set v | v in ids && keep(v)
  }

  lemma PassingGrows(ids: set<string>, id: string, keep: string -> bool)
    requires id !in ids
    ensures multiset(Passing(ids + {id}, keep))
            == multiset(Passing(ids, keep)) + if keep(id) then multiset{id} else multiset{}
  {
    assert Passing(ids + {id}, keep) == Passing(ids, keep) + if keep(id) then {id} else {};
  }

  /** The identifiers that pass a test, in node order. */
  method IdsWhere(nodes: seq<Node>, keep: string -> bool) returns (listing: seq<string>)
    requires UniqueIds(nodes)
    ensures multiset(listing) == multiset(Passing(NodeIds(nodes), keep))
  {
    listing := [];
    for i := 0 to |nodes|
      invariant multiset(listing) == multiset(Passing(NodeIds(nodes[..i]), keep))
    {
      hide NodeIds, UniqueIds, Passing;
      NextId(nodes, i);
      PassingGrows(NodeIds(nodes[..i]), nodes[i].id, keep);
      if keep(nodes[i].id) { listing := listing + [nodes[i].id]; }
    }
    assert nodes[..|nodes|] == nodes;
  }

  lemma NextId(nodes: seq<Node>, i: nat)
    requires UniqueIds(nodes) && i < |nodes|
    ensures nodes[i].id !in NodeIds(nodes[..i])
    ensures NodeIds(nodes[..i + 1]) == NodeIds(nodes[..i]) + {nodes[i].id}
  {
    assert nodes[..i + 1] == nodes[..i] + [nodes[i]];
    assert forall node :: node in nodes[..i + 1] <==> node in nodes[..i] || node == nodes[i];
  }

  lemma TablesStart(edges: seq<Edge>)
    ensures forall v :: Degree(edges[..0], {}, v) == 0 && ChildrenOf(edges[..0], v) == []
  {
  }

  lemma TablesStep(edges: seq<Edge>, i: nat)
    requires i < |edges|
    ensures forall v :: Degree(edges[..i + 1], {}, v)
                        == Degree(edges[..i], {}, v) + (if !edges[i].kind.Related? && edges[i].to == v then 1 else 0)
    ensures forall v :: ChildrenOf(edges[..i + 1], v)
                        == ChildrenOf(edges[..i], v)
                           + (if !edges[i].kind.Related? && edges[i].from == v then [edges[i].to] else [])
  {
    assert edges[..i + 1][..i] == edges[..i];
  }

  /** The in-degree and the children of every node. */
  method Tables(ids: set<string>, edges: seq<Edge>)
    returns (indegree: map<string, int>, children: map<string, seq<string>>)
    requires forall i :: 0 <= i < |edges| ==> edges[i].from in ids && edges[i].to in ids
    ensures indegree.Keys == children.Keys == ids
    ensures forall v :: v in ids ==> indegree[v] == Degree(edges, {}, v) && children[v] == ChildrenOf(edges, v)
  {
    hide Degree, ChildrenOf;
    assert forall v :: Degree(edges[..0], {}, v) == 0 && ChildrenOf(edges[..0], v) == [] by { TablesStart(edges); }
    indegree := map v | v in ids :: 0;
    children := map v | v in ids :: [];
    for i := 0 to |edges|
      invariant indegree.Keys == children.Keys == ids
      invariant forall v :: v in ids ==>
        indegree[v] == Degree(edges[..i], {}, v) && children[v] == ChildrenOf(edges[..i], v)
    {
      var edge := edges[i];
      TablesStep(edges, i);
      if !edge.kind.Related? {
        indegree := indegree[edge.to := indegree[edge.to] + 1];
        children := children[edge.from := children[edge.from] + [edge.to]];
      }
    }
    assert edges[..|edges|] == edges;
  }

  /** The table holds the degrees left by the nodes still in `rest`, and the finished nodes have none. */
  ghost predicate Tally(edges: seq<Edge>, ids: set<string>, rest: set<string>, indegree: map<string, int>) {
    && rest <= ids && indegree.Keys == ids
    && (forall v :: v in ids ==> indegree[v] == Degree(edges, ids - rest, v))
    && (forall v :: v in ids - rest ==> indegree[v] == 0)
  }

  ghost function Zeros(rest: set<string>, indegree: map<string, int>): set<string> {
    set v | v in rest && v in indegree && indegree[v] == 0
  }

  lemma ZerosAreReady(edges: seq<Edge>, ids: set<string>, rest: set<string>, indegree: map<string, int>)
    requires Tally(edges, ids, rest, indegree)
    requires forall i :: 0 <= i < |edges| ==> edges[i].from in ids && edges[i].to in ids
    ensures Zeros(rest, indegree) == Ready(rest, LinksOf(edges))
  {
    forall v | v in rest ensures indegree[v] == 0 <==> forall u :: u in rest ==> (u, v) !in LinksOf(edges) {
      DegreeZero(edges, ids - rest, v);
      assert forall u :: (u, v) in LinksOf(edges) ==> u in ids;
    }
  }

  /** Take a ready node away: lower the degree of its children, and make ready those that reach zero. */
  method Release(edges: seq<Edge>, ghost ids: set<string>, ghost rest: set<string>, node: string,
                 outgoing: seq<string>, indegree: map<string, int>, ready: seq<string>)
    returns (lowered: map<string, int>, ready': seq<string>)
    requires Tally(edges, ids, rest, indegree) && node in rest && indegree[node] == 0
    requires forall i :: 0 <= i < |edges| ==> edges[i].from in ids && edges[i].to in ids
    requires outgoing == ChildrenOf(edges, node)
    requires multiset(ready) == multiset(Zeros(rest - {node}, indegree))
    ensures Tally(edges, ids, rest - {node}, lowered)
    ensures multiset(ready') == multiset(Zeros(rest - {node}, lowered))
  {
    hide *;
    var sorted := SortBy(StrLeq, outgoing);
    lowered, ready' := indegree, ready;
    StartsLowering(edges, ids, rest, node, sorted, indegree);
    for j := 0 to |sorted|
      invariant Lowered(edges, ids, rest, sorted, j, lowered)
      invariant multiset(ready') == multiset(Zeros(rest - {node}, lowered))
    {
      var child := sorted[j];
      LowersOne(edges, ids, rest, node, sorted, j, lowered);
      ZerosLowered(rest - {node}, lowered, child);
      lowered := lowered[child := lowered[child] - 1];
      if lowered[child] == 0 { ready' := ready' + [child]; }
    }
    EndsLowering(edges, ids, rest, node, sorted, lowered);
  }

  /** The table after the first `j` children have been lowered by one. */
  ghost predicate Lowered(edges: seq<Edge>, ids: set<string>, rest: set<string>, sorted: seq<string>, j: nat,
                          lowered: map<string, int>)
  {
    && j <= |sorted| && lowered.Keys == ids
    && forall v :: v in ids ==> lowered[v] == Degree(edges, ids - rest, v) - multiset(sorted[..j])[v]
  }

  /** What the lowering loop may rely on: the children are those of a ready node, in order. */
  ghost predicate Releases(edges: seq<Edge>, ids: set<string>, rest: set<string>, node: string, sorted: seq<string>) {
    && rest <= ids && node in rest && sorted == SortBy(StrLeq, ChildrenOf(edges, node))
    && Degree(edges, ids - rest, node) == 0
    && (forall v :: v in ids - rest ==> Degree(edges, ids - rest, v) == 0)
    && forall i :: 0 <= i < |edges| ==> edges[i].from in ids && edges[i].to in ids
  }

  lemma StartsLowering(edges: seq<Edge>, ids: set<string>, rest: set<string>, node: string, sorted: seq<string>,
                       indegree: map<string, int>)
    requires Tally(edges, ids, rest, indegree) && node in rest && indegree[node] == 0
    requires forall i :: 0 <= i < |edges| ==> edges[i].from in ids && edges[i].to in ids
    requires sorted == SortBy(StrLeq, ChildrenOf(edges, node))
    ensures Releases(edges, ids, rest, node, sorted) && Lowered(edges, ids, rest, sorted, 0, indegree)
  {
    hide Degree, SortBy, ChildrenOf, StrLeq;
  }

  lemma LowersOne(edges: seq<Edge>, ids: set<string>, rest: set<string>, node: string, sorted: seq<string>, j: nat,
                  lowered: map<string, int>)
    requires Releases(edges, ids, rest, node, sorted) && j < |sorted| && Lowered(edges, ids, rest, sorted, j, lowered)
    ensures var child := sorted[j];
            && child in rest - {node} && child in lowered && lowered[child] >= 1
            && Lowered(edges, ids, rest, sorted, j + 1, lowered[child := lowered[child] - 1])
  {
    hide Degree, SortBy, ChildrenOf, StrLeq;
    SplitCount(sorted, j);
    ReleaseDegrees(edges, ids, rest, node, sorted);
  }

  lemma EndsLowering(edges: seq<Edge>, ids: set<string>, rest: set<string>, node: string, sorted: seq<string>,
                     lowered: map<string, int>)
    requires Releases(edges, ids, rest, node, sorted) && Lowered(edges, ids, rest, sorted, |sorted|, lowered)
    ensures Tally(edges, ids, rest - {node}, lowered)
  {
    hide Degree, SortBy, ChildrenOf, StrLeq;
    ReleaseDegrees(edges, ids, rest, node, sorted);
    assert sorted[..|sorted|] == sorted;
  }

  lemma ZerosLowered(rest: set<string>, indegree: map<string, int>, child: string)
    requires child in rest && child in indegree && indegree[child] >= 1
    ensures child !in Zeros(rest, indegree)
    ensures Zeros(rest, indegree[child := indegree[child] - 1])
            == Zeros(rest, indegree) + if indegree[child] == 1 then {child} else {}
  {
  }

  lemma SplitCount(s: seq<string>, j: nat)
    requires j < |s|
    ensures s[j] in s
    ensures multiset(s[..j])[s[j]] + 1 <= multiset(s)[s[j]]
    ensures forall v :: multiset(s[..j + 1])[v] == multiset(s[..j])[v] + if v == s[j] then 1 else 0
  {
    assert s[..j + 1] == s[..j] + [s[j]];
    assert s == s[..j] + [s[j]] + s[j + 1..];
  }

  lemma ReleaseDegrees(edges: seq<Edge>, ids: set<string>, rest: set<string>, node: string, sorted: seq<string>)
    requires rest <= ids && node in rest && sorted == SortBy(StrLeq, ChildrenOf(edges, node))
    requires Degree(edges, ids - rest, node) == 0
    requires forall v :: v in ids - rest ==> Degree(edges, ids - rest, v) == 0
    requires forall i :: 0 <= i < |edges| ==> edges[i].from in ids && edges[i].to in ids
    ensures ids - (rest - {node}) == ids - rest + {node}
    ensures forall v :: Degree(edges, ids - rest, v)
                        == Degree(edges, ids - rest + {node}, v) + multiset(sorted)[v]
    ensures forall v :: v in ids - (rest - {node}) ==> Degree(edges, ids - rest + {node}, v) == 0
    ensures forall child :: child in sorted ==> child in rest - {node}
  {
    hide Degree, ChildrenOf, SortBy, StrLess, StrLeq;
    var gone := ids - rest;
    assert ids - (rest - {node}) == gone + {node};
    StrLeqIsTotal();
    SortBySorts(StrLeq, ChildrenOf(edges, node));
    forall v ensures Degree(edges, gone, v) == Degree(edges, gone + {node}, v) + multiset(sorted)[v] {
      DegreeDrops(edges, gone, node, v);
    }
    ChildrenResolve(edges, ids, node);
    forall child | child in sorted ensures child in rest - {node} {
      assert multiset(sorted)[child] >= 1;
      assert Degree(edges, gone, child) >= 1;
    }
  }

  lemma {:induction false} ChildrenResolve(edges: seq<Edge>, ids: set<string>, u: string)
    requires forall i :: 0 <= i < |edges| ==> edges[i].to in ids
    ensures forall child :: child in ChildrenOf(edges, u) ==> child in ids
  {
    if edges != [] { ChildrenResolve(edges[..|edges| - 1], ids, u); }
  }

  lemma KahnTakes(ids: set<string>, rest: set<string>, links: Links, ordered: seq<string>, node: string)
    requires Ready(rest, links) != {} && node == Least(Ready(rest, links))
    requires Kahn(ids, links) == (ordered + Kahn(rest, links).0, Kahn(rest, links).1)
    ensures node in rest
    ensures Kahn(ids, links) == (ordered + [node] + Kahn(rest - {node}, links).0, Kahn(rest - {node}, links).1)
  {
    assert ordered + ([node] + Kahn(rest - {node}, links).0) == ordered + [node] + Kahn(rest - {node}, links).0;
  }

  lemma ZerosWithout(rest: set<string>, indegree: map<string, int>, node: string)
    ensures Zeros(rest - {node}, indegree) == Zeros(rest, indegree) - {node}
    ensures multiset(Zeros(rest - {node}, indegree)) == multiset(Zeros(rest, indegree)) - multiset{node}
  {
  }

  /** The main loop: take the least ready node, release its children, until no node is ready. */
  method Drain(edges: seq<Edge>, ids: set<string>, children: map<string, seq<string>>,
               degrees: map<string, int>, heap: seq<string>)
    returns (ordered: seq<string>, indegree: map<string, int>)
    requires forall i :: 0 <= i < |edges| ==> edges[i].from in ids && edges[i].to in ids
    requires Tally(edges, ids, ids, degrees) && multiset(heap) == multiset(Zeros(ids, degrees))
    requires children.Keys == ids && forall v :: v in ids ==> children[v] == ChildrenOf(edges, v)
    ensures ordered == Kahn(ids, LinksOf(edges)).0 && |ordered| + |Kahn(ids, LinksOf(edges)).1| == |ids|
    ensures Tally(edges, ids, Kahn(ids, LinksOf(edges)).1, indegree)
    ensures Zeros(Kahn(ids, LinksOf(edges)).1, indegree) == {}
  {
    hide LinksOf, Degree, Ready, Zeros, ChildrenOf, Kahn, StrLess;
    ghost var links := LinksOf(edges);
    indegree, ordered := degrees, [];
    ghost var rest := ids;
    var ready := heap;
    assert ordered + Kahn(rest, links).0 == Kahn(rest, links).0;
    while ready != []
      invariant Tally(edges, ids, rest, indegree) && |ordered| + |rest| == |ids|
      invariant multiset(ready) == multiset(Zeros(rest, indegree))
      invariant Kahn(ids, links) == (ordered + Kahn(rest, links).0, Kahn(rest, links).1)
      decreases |rest|
    {
      ZerosAreReady(edges, ids, rest, indegree);
      var node, others := PopLeast(ready);
      LeastIsUnique(ready, Ready(rest, links), node);
      KahnTakes(ids, rest, links, ordered, node);
      ZerosWithout(rest, indegree, node);
      ReadyHasNoDegree(rest, indegree, node);
      ordered := ordered + [node];
      indegree, ready := Release(edges, ids, rest, node, children[node], indegree, others);
      rest := rest - {node};
    }
    ZerosAreReady(edges, ids, rest, indegree);
    assert Zeros(rest, indegree) == {} by { assert |multiset(Zeros(rest, indegree))| == 0; }
    KahnStops(rest, links);
    assert ordered + [] == ordered;
  }

  lemma ReadyHasNoDegree(rest: set<string>, indegree: map<string, int>, node: string)
    requires node in Zeros(rest, indegree)
    ensures node in indegree && indegree[node] == 0
  {
  }

  lemma KahnStops(rest: set<string>, links: Links)
    requires Ready(rest, links) == {}
    ensures Kahn(rest, links) == ([], rest)
  {
  }

  /** Kahn's algorithm over mutable degree and child tables. */
  method TopologicalNodeIds(nodes: seq<Node>, edges: seq<Edge>) returns (r: Result<seq<string>, seq<string>>)
    requires UniqueIds(nodes) && EdgesResolve(nodes, edges)
    ensures r == TopologicalResult(NodeIds(nodes), LinksOf(edges))
  {
    hide NodeIds, LinksOf, Degree, Ready, EdgesResolve, UniqueIds, Kahn, StrLess, Tally, Zeros, ChildrenOf;
    var ids := NodeIds(nodes);
    EndsInIds(nodes, edges);
    var first, children := Tables(ids, edges);
    TallyStarts(edges, ids, first);
    var free := v => v in first && first[v] == 0;
    var ready := IdsWhere(nodes, free);
    assert Zeros(ids, first) == Passing(ids, free) by { ZerosAre(ids, first); }
    var ordered, last := Drain(edges, ids, children, first, ready);
    ghost var rest := Kahn(ids, LinksOf(edges)).1;
    IdsCounted(nodes);
    if |ordered| == |nodes| { return Ok(ordered); }
    var stuck := v => v in last && last[v] > 0;
    var cyclic := IdsWhere(nodes, stuck);
    LeftHaveDegree(edges, ids, rest, last);
    assert rest == Passing(ids, stuck);
    StrLeqIsTotal();
    SortIsArrange(StrLeq, cyclic, rest);
    r := Err(SortBy(StrLeq, cyclic));
  }

  lemma TallyStarts(edges: seq<Edge>, ids: set<string>, indegree: map<string, int>)
    requires indegree.Keys == ids && forall v :: v in ids ==> indegree[v] == Degree(edges, {}, v)
    ensures Tally(edges, ids, ids, indegree)
  {
    assert ids - ids == {};
  }

  lemma ZerosAre(rest: set<string>, indegree: map<string, int>)
    ensures Zeros(rest, indegree) == set v | v in rest && v in indegree && indegree[v] == 0
  {
  }

  lemma EndsInIds(nodes: seq<Node>, edges: seq<Edge>)
    requires EdgesResolve(nodes, edges)
    ensures forall i :: 0 <= i < |edges| ==> edges[i].from in NodeIds(nodes) && edges[i].to in NodeIds(nodes)
  {
  }

  lemma LeftHaveDegree(edges: seq<Edge>, ids: set<string>, rest: set<string>, indegree: map<string, int>)
    requires Tally(edges, ids, rest, indegree) && Zeros(rest, indegree) == {}
    ensures rest <= ids && indegree.Keys == ids
    ensures forall v :: v in ids ==> (v in rest <==> indegree[v] > 0)
  {
    forall v | v in rest ensures indegree[v] > 0 { assert v !in Zeros(rest, indegree); }
  }

  lemma LeastIsUnique(heap: seq<string>, s: set<string>, least: string)
    requires multiset(heap) == multiset(s) && least in heap && forall x :: x in heap ==> StrLeq(least, x)
    ensures s != {} && least == Least(s)
  {
    forall x ensures x in heap <==> x in s { assert x in heap <==> x in multiset(heap); }
    StrOrder();
    assert StrLeq(least, Least(s)) && StrLeq(Least(s), least);
  }

  // Loading.

  datatype LoadError =
    | VersionMismatch
    | DuplicateIds(ids: seq<string>)
    | MissingNodes(from: string, to: string, missing: seq<string>)
    | CycleFound(nodes: seq<string>)

  ghost predicate Loadable(raw: Graph, expected: string) {
    && expected != "" && raw.taxonomyVersion == expected
    && UniqueIds(raw.nodes) && EdgesResolve(raw.nodes, raw.edges)
    && Acyclic(NodeIds(raw.nodes), LinksOf(raw.edges))
  }

  /** The checks that come before the version: unique identifiers and edges that resolve. */
  ghost predicate PassesShape(raw: Graph) {
    UniqueIds(raw.nodes) && EdgesResolve(raw.nodes, raw.edges)
  }

  predicate NodeLeq(a: Node, b: Node) {
    StrLeq(a.id, b.id)
  }

  /** The place of an edge kind in the alphabetical order of the kinds' names. */
  function KindRank(kind: EdgeKind): int {
    match kind
    case BuildsOn => 0
    case Related => 1
    case Requires => 2
  }

  predicate EdgeLeq(a: Edge, b: Edge) {
    if a.from != b.from then StrLess(a.from, b.from)
    else if a.to != b.to then StrLess(a.to, b.to)
    else KindRank(a.kind) < KindRank(b.kind) || (a.kind == b.kind && a.weight <= b.weight)
  }

  function Canonical(raw: Graph): Graph {
    raw.(nodes := SortBy(NodeLeq, raw.nodes), edges := SortBy(EdgeLeq, raw.edges))
  }

  lemma GraphOrders()
    ensures TotalPreorder(NodeLeq) && TotalPreorder(EdgeLeq) && Antisymmetric(EdgeLeq)
  {
    StrOrder();
  }

  function IdList(nodes: seq<Node>): seq<string> {
    seq(|nodes|, i requires 0 <= i < |nodes| => nodes[i].id)
  }

  function Repeated(nodes: seq<Node>): set<string> {
    set v | v in NodeIds(nodes) && multiset(IdList(nodes))[v] > 1
  }

  function Missing(nodes: seq<Node>, edge: Edge): set<string> {
    {edge.from, edge.to} - NodeIds(nodes)
  }

  lemma RepeatedIds(nodes: seq<Node>)
    ensures Repeated(nodes) == {} <==> UniqueIds(nodes)
  {
    var ids := IdList(nodes);
    DistinctMultiset(ids);
    if Repeated(nodes) == {} {
      forall v ensures multiset(ids)[v] <= 1 {
        if v in multiset(ids) {
          assert v in ids;
          var i :| 0 <= i < |ids| && ids[i] == v;
          assert nodes[i].id in NodeIds(nodes);
          assert v !in Repeated(nodes);
        }
      }
      forall i, j | 0 <= i < j < |nodes| ensures nodes[i].id != nodes[j].id { assert ids[i] != ids[j]; }
    }
    if UniqueIds(nodes) {
      assert Distinct(ids);
    }
  }

  lemma MissingAre(nodes: seq<Node>, edge: Edge)
    ensures forall v :: v in Arrange(StrLeq, Missing(nodes, edge)) <==>
                        (v == edge.from || v == edge.to) && forall node <- nodes :: node.id != v
  {
    StrLeqIsTotal();
    ArrangeSorts(StrLeq, Missing(nodes, edge));
    hide Arrange;
    assert forall v :: v in NodeIds(nodes) <==> exists node <- nodes :: node.id == v;
  }

  lemma {:induction false} CountsTwice(ids: seq<string>, v: string)
    ensures multiset(ids)[v] > 1 <==> exists i, j :: 0 <= i < j < |ids| && ids[i] == v && ids[j] == v
  {
    if ids != [] {
      var front, last := ids[..|ids| - 1], ids[|ids| - 1];
      assert ids == front + [last];
      CountsTwice(front, v);
      if last == v && v in front {
        var i :| 0 <= i < |front| && front[i] == v;
        assert ids[i] == v && ids[|ids| - 1] == v;
      }
      if i, j :| 0 <= i < j < |front| && front[i] == v && front[j] == v { assert ids[i] == v && ids[j] == v; }
      if i, j :| 0 <= i < j < |ids| && ids[i] == v && ids[j] == v {
        assert front[i] == v && v in front;
        if j < |front| { assert front[j] == v; }
      }
    }
  }

  /** Two nodes have this identifier. */
  ghost predicate TwoNamed(nodes: seq<Node>, v: string) {
    exists i, j :: 0 <= i < j < |nodes| && nodes[i].id == v && nodes[j].id == v
  }

  lemma RepeatedAt(nodes: seq<Node>, v: string)
    ensures v in Repeated(nodes) <==> TwoNamed(nodes, v)
  {
    var ids := IdList(nodes);
    CountsTwice(ids, v);
    if i, j :| 0 <= i < j < |ids| && ids[i] == v && ids[j] == v {
      assert nodes[i].id == v && nodes[j].id == v && nodes[i] in nodes;
    }
    if i, j :| 0 <= i < j < |nodes| && nodes[i].id == v && nodes[j].id == v { assert ids[i] == v && ids[j] == v; }
  }

  lemma RepeatedAre(nodes: seq<Node>)
    ensures forall v :: v in Arrange(StrLeq, Repeated(nodes)) <==> TwoNamed(nodes, v)
  {
    hide Arrange, Repeated, TwoNamed;
    StrLeqIsTotal();
    ArrangeSorts(StrLeq, Repeated(nodes));
    forall v ensures v in Repeated(nodes) <==> TwoNamed(nodes, v) { RepeatedAt(nodes, v); }
  }

  /** The first edge, if any, with an end that is not a node. */
  method FirstDangling(nodes: seq<Node>, edges: seq<Edge>) returns (index: Option<nat>)
    ensures index.None? <==> EdgesResolve(nodes, edges)
    ensures index.Some? ==> index.value < |edges| && Missing(nodes, edges[index.value]) != {}
    ensures index.Some? ==> EdgesResolve(nodes, edges[..index.value])
  {
    for i := 0 to |edges|
      invariant EdgesResolve(nodes, edges[..i])
    {
      if edges[i].from !in NodeIds(nodes) || edges[i].to !in NodeIds(nodes) {
        assert (if edges[i].from !in NodeIds(nodes) then edges[i].from else edges[i].to) in Missing(nodes, edges[i]);
        return Some(i);
      }
    }
    assert edges[..|edges|] == edges;
    index := None;
  }

  /** Validate a parsed graph and put it in canonical form. The first check that fails decides the error: an expected
      version, unique identifiers, edges that resolve, the version, no cycle. */
  method Load(raw: Graph, expected: string) returns (r: Result<Graph, LoadError>)
    ensures r.Ok? <==> Loadable(raw, expected)
    ensures r.Ok? ==> r.value == Canonical(raw)
    ensures r == Err(VersionMismatch) <==>
            expected == "" || (PassesShape(raw) && raw.taxonomyVersion != expected)
    ensures r.Err? && r.error.DuplicateIds? <==> expected != "" && !UniqueIds(raw.nodes)
    ensures r.Err? && r.error.MissingNodes? <==>
            expected != "" && UniqueIds(raw.nodes) && !EdgesResolve(raw.nodes, raw.edges)
    ensures r.Err? && r.error.CycleFound? <==>
            && expected != "" && PassesShape(raw) && raw.taxonomyVersion == expected
            && !Acyclic(NodeIds(raw.nodes), LinksOf(raw.edges))
    ensures r.Err? && r.error.DuplicateIds? ==> r.error.ids == Arrange(StrLeq, Repeated(raw.nodes)) && r.error.ids != []
    ensures r.Err? && r.error.MissingNodes? ==>
              exists i :: 0 <= i < |raw.edges| && raw.edges[i].from == r.error.from && raw.edges[i].to == r.error.to
                          && r.error.missing == Arrange(StrLeq, Missing(raw.nodes, raw.edges[i]))
                          && r.error.missing != []
                          && EdgesResolve(raw.nodes, raw.edges[..i])
    ensures r.Err? && r.error.MissingNodes? ==>
              forall v :: v in r.error.missing <==>
                            (v == r.error.from || v == r.error.to) && forall node <- raw.nodes :: node.id != v
    ensures r.Err? && r.error.DuplicateIds? ==>
              forall v :: v in r.error.ids <==> TwoNamed(raw.nodes, v)
    ensures r.Err? && r.error.CycleFound? ==>
              ListsBehindCycle(r.error.nodes, NodeIds(raw.nodes), LinksOf(raw.edges)) && r.error.nodes != []
  {
    hide TopologicalResult, IsTopological, Acyclic, Repeated, Missing, EdgesResolve, UniqueIds, ListsBehindCycle;
    hide Arrange;
    if expected == "" { return Err(VersionMismatch); }
    StrLeqIsTotal();
    var duplicates := SortedListing(StrLeq, Repeated(raw.nodes));
    ListingEmpty(Repeated(raw.nodes));
    RepeatedIds(raw.nodes);
    RepeatedAre(raw.nodes);
    if duplicates != [] { return Err(DuplicateIds(duplicates)); }
    var dangling := FirstDangling(raw.nodes, raw.edges);
    if dangling.Some? {
      var edge := raw.edges[dangling.value];
      var missing := SortedListing(StrLeq, Missing(raw.nodes, edge));
      ListingEmpty(Missing(raw.nodes, edge));
      MissingAre(raw.nodes, edge);
      return Err(MissingNodes(edge.from, edge.to, missing));
    }
    if raw.taxonomyVersion != expected { return Err(VersionMismatch); }
    var order := TopologicalNodeIds(raw.nodes, raw.edges);
    OrderExactlyIfAcyclic(NodeIds(raw.nodes), LinksOf(raw.edges));
    if order.Err? {
      assert order.error != [] by { CycleListed(NodeIds(raw.nodes), LinksOf(raw.edges)); }
      return Err(CycleFound(order.error));
    }
    r := Ok(Canonical(raw));
  }

  lemma ListingEmpty(s: set<string>)
    ensures Arrange(StrLeq, s) == [] <==> s == {}
  {
    StrLeqIsTotal();
    ArrangeSorts(StrLeq, s);
  }

  lemma CycleListed(nodes: set<string>, links: Links)
    requires TopologicalResult(nodes, links).Err?
    ensures TopologicalResult(nodes, links).error != []
  {
    ListingEmpty(Kahn(nodes, links).1);
  }

  lemma SameGraphSets(a: Graph, b: Graph)
    requires multiset(a.nodes) == multiset(b.nodes) && multiset(a.edges) == multiset(b.edges)
    ensures NodeIds(a.nodes) == NodeIds(b.nodes) && LinksOf(a.edges) == LinksOf(b.edges)
    ensures EdgesResolve(a.nodes, a.edges) ==> EdgesResolve(b.nodes, b.edges)
  {
    SameMultiset(a.nodes, b.nodes);
    SameMultiset(a.edges, b.edges);
    forall i | 0 <= i < |b.edges| && EdgesResolve(a.nodes, a.edges)
      ensures b.edges[i].from in NodeIds(a.nodes) && b.edges[i].to in NodeIds(a.nodes)
    {
      assert b.edges[i] in a.edges;
    }
  }

  lemma UniqueIdsByCount(nodes: seq<Node>)
    ensures UniqueIds(nodes) <==> Distinct(nodes) && forall x, y :: x in nodes && y in nodes && x.id == y.id ==> x == y
  {
    if UniqueIds(nodes) {
      forall x, y | x in nodes && y in nodes && x.id == y.id ensures x == y {
        var i, j :| 0 <= i < |nodes| && 0 <= j < |nodes| && nodes[i] == x && nodes[j] == y;
      }
    }
  }

  /** What is loaded does not depend on the order in which nodes and edges are listed: the same graphs load, to the
      same canonical graph, with the same topological order, which is also that of the graph as listed. */
  lemma LoadIgnoresListing(a: Graph, b: Graph, expected: string)
    requires multiset(a.nodes) == multiset(b.nodes) && multiset(a.edges) == multiset(b.edges)
    requires a.graphVersion == b.graphVersion && a.taxonomyVersion == b.taxonomyVersion
    ensures Loadable(a, expected) <==> Loadable(b, expected)
    ensures Loadable(a, expected) ==> Canonical(a) == Canonical(b)
    ensures TopologicalResult(NodeIds(a.nodes), LinksOf(a.edges))
            == TopologicalResult(NodeIds(b.nodes), LinksOf(b.edges))
            == TopologicalResult(NodeIds(Canonical(a).nodes), LinksOf(Canonical(a).edges))
  {
    hide TopologicalResult, Acyclic, StrLess;
    GraphOrders();
    SortBySorts(NodeLeq, a.nodes);
    SortBySorts(NodeLeq, b.nodes);
    SortBySorts(EdgeLeq, a.edges);
    SortBySorts(EdgeLeq, b.edges);
    SameGraphSets(a, b);
    SameGraphSets(b, a);
    SameGraphSets(a, Canonical(a));
    if UniqueIds(b.nodes) { SameUnique(b.nodes, a.nodes); }
    if UniqueIds(a.nodes) {
      SameUnique(a.nodes, b.nodes);
      CanonicalNodes(a.nodes, b.nodes);
      CanonicalEdges(a.edges, b.edges);
    }
    hide UniqueIds, EdgesResolve, NodeIds, LinksOf;
  }

  /** The name under which an edge kind is sorted. */
  function KindName(kind: EdgeKind): string {
    match kind
    case Requires => "requires"
    case BuildsOn => "builds_on"
    case Related => "related"
  }

  lemma KindsByName(a: EdgeKind, b: EdgeKind)
    ensures KindRank(a) < KindRank(b) <==> StrLess(KindName(a), KindName(b))
    ensures a == b <==> KindName(a) == KindName(b)
  {
    hide StrLess;
    StrLessAt("builds_on", "related", 0);
    StrLessAt("builds_on", "requires", 0);
    StrLessAt("related", "requires", 2);
    StrLessIrreflexive(KindName(a));
  }

  /** Edge `a` comes no later than `b`: by origin, then target, then name of the kind, then weight. */
  predicate EdgeUpTo(a: Edge, b: Edge) {
    || StrLess(a.from, b.from)
    || (a.from == b.from && StrLess(a.to, b.to))
    || (a.from == b.from && a.to == b.to && StrLess(KindName(a.kind), KindName(b.kind)))
    || (a.from == b.from && a.to == b.to && KindName(a.kind) == KindName(b.kind) && a.weight <= b.weight)
  }

  /** The canonical form holds the same nodes and edges under the same versions, nodes by identifier and edges by
      origin, target, kind and weight. */
  lemma CanonicalExactly(raw: Graph)
    ensures var g := Canonical(raw);
      && g.graphVersion == raw.graphVersion && g.taxonomyVersion == raw.taxonomyVersion
      && multiset(g.nodes) == multiset(raw.nodes) && multiset(g.edges) == multiset(raw.edges)
      && (forall i, j :: 0 <= i < j < |g.nodes| ==> StrLeq(g.nodes[i].id, g.nodes[j].id))
      && (forall i, j :: 0 <= i < j < |g.edges| ==> EdgeUpTo(g.edges[i], g.edges[j]))
  {
    GraphOrders();
    SortBySorts(NodeLeq, raw.nodes);
    SortBySorts(EdgeLeq, raw.edges);
    var g := Canonical(raw);
    hide SortBy;
    forall i, j | 0 <= i < j < |g.nodes| ensures StrLeq(g.nodes[i].id, g.nodes[j].id) {
      assert NodeLeq(g.nodes[i], g.nodes[j]);
    }
    hide StrLess, KindName, KindRank;
    forall i, j | 0 <= i < j < |g.edges| ensures EdgeUpTo(g.edges[i], g.edges[j]) {
      assert EdgeLeq(g.edges[i], g.edges[j]);
      KindsByName(g.edges[i].kind, g.edges[j].kind);
    }
  }

  lemma SameUnique(a: seq<Node>, b: seq<Node>)
    requires multiset(a) == multiset(b) && UniqueIds(a)
    ensures UniqueIds(b)
  {
    UniqueIdsByCount(a);
    UniqueIdsByCount(b);
    DistinctMultiset(a);
    DistinctMultiset(b);
    SameMultiset(a, b);
  }

  lemma CanonicalNodes(a: seq<Node>, b: seq<Node>)
    requires multiset(a) == multiset(b) && UniqueIds(a)
    ensures SortBy(NodeLeq, a) == SortBy(NodeLeq, b)
  {
    GraphOrders();
    SortBySorts(NodeLeq, a);
    SortBySorts(NodeLeq, b);
    UniqueIdsByCount(a);
    forall x, y | x in SortBy(NodeLeq, a) && y in SortBy(NodeLeq, a) && NodeLeq(x, y) && NodeLeq(y, x) ensures x == y {
      if x.id != y.id { StrLessTransitive(x.id, y.id, x.id); StrLessIrreflexive(x.id); }
    }
    hide NodeLeq, UniqueIds;
    SortedUnique(NodeLeq, SortBy(NodeLeq, a), SortBy(NodeLeq, b));
  }

  lemma CanonicalEdges(a: seq<Edge>, b: seq<Edge>)
    requires multiset(a) == multiset(b)
    ensures SortBy(EdgeLeq, a) == SortBy(EdgeLeq, b)
  {
    GraphOrders();
    SortBySorts(EdgeLeq, a);
    SortBySorts(EdgeLeq, b);
    SortedUnique(EdgeLeq, SortBy(EdgeLeq, a), SortBy(EdgeLeq, b));
  }
}
