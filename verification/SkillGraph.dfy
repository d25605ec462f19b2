/** The skill graph: its topological order by Kahn's algorithm, its validation and its canonical form. */
module SkillGraph {
  import opened Prelude
  import opened Ordering

  datatype AreaTag = Language | Media | Literature | Reading | SpeechWriting

  datatype TypeTag = Fact | Infer | Critic | Concept | ApplyTag

  datatype EdgeKind = Requires | BuildsOn | Related

  datatype Node = Node(id: string, area: AreaTag, affinity: seq<TypeTag>)

  datatype Edge = Edge(from: string, to: string, kind: EdgeKind, weight: real)

  datatype Graph = Graph(graphVersion: string, taxonomyVersion: string, nodes: seq<Node>, edges: seq<Edge>)

  type Links = set<(string, string)>

  function NodeIds(nodes: seq<Node>): set<string> {
    set node | node in nodes :: node.id
  }

  /** The prerequisite pairs (from, to) of all edges that are not merely `related`. */
  function LinksOf(edges: seq<Edge>): Links {
    set edge | edge in edges && !edge.kind.Related? :: (edge.from, edge.to)
  }

  ghost predicate UniqueIds(nodes: seq<Node>) {
    forall i, j :: 0 <= i < j < |nodes| ==> nodes[i].id != nodes[j].id
  }

  predicate EdgesResolve(nodes: seq<Node>, edges: seq<Edge>) {
    forall i :: 0 <= i < |edges| ==> edges[i].from in NodeIds(nodes) && edges[i].to in NodeIds(nodes)
  }

  // What the algorithm computes, on the set of nodes and the set of links.

  /** The remaining nodes with no remaining prerequisite. */
  function Ready(rest: set<string>, links: Links): set<string> {
    set v | v in rest && forall u :: u in rest ==> (u, v) !in links
  }

  ghost function Least(s: set<string>): (least: string)
    requires s != {}
    ensures least in s && forall x :: x in s ==> StrLeq(least, x)
  {
    LeastExists(s);
    var least :| least in s && forall x :: x in s ==> StrLeq(least, x);
    least
  }

  lemma LeastExists(s: set<string>)
    requires s != {}
    ensures exists least :: least in s && forall x :: x in s ==> StrLeq(least, x)
  {
    var x :| x in s;
    if s != {x} {
      LeastExists(s - {x});
      var y :| y in s - {x} && forall z :: z in s - {x} ==> StrLeq(y, z);
      StrOrder();
      var least := if StrLeq(x, y) then x else y;
      forall z | z in s ensures StrLeq(least, z) {
        assert z == x || z in s - {x};
      }
    }
  }

  /** Repeatedly take the least ready node; when none is ready, the order so far and the nodes left over. */
  ghost function Kahn(rest: set<string>, links: Links): (seq<string>, set<string>) {
    if Ready(rest, links) == {} then ([], rest) else
      var v := Least(Ready(rest, links));
      var (order, left) := Kahn(rest - {v}, links);
      ([v] + order, left)
  }

  /** The order, or the sorted list of the nodes left over. */
  ghost function TopologicalResult(nodes: set<string>, links: Links): Result<seq<string>, seq<string>> {
    var (order, left) := Kahn(nodes, links);
    if left == {} then Ok(order) else Err(Arrange(StrLeq, left))
  }

  // What the result means.

  ghost predicate IsWalk(walk: seq<string>, within: set<string>, links: Links) {
    && walk != []
    && (forall i :: 0 <= i < |walk| ==> walk[i] in within)
    && (forall i :: 0 <= i < |walk| - 1 ==> (walk[i], walk[i + 1]) in links)
  }

  ghost predicate IsCycle(walk: seq<string>, within: set<string>, links: Links) {
    IsWalk(walk, within, links) && |walk| >= 2 && walk[0] == walk[|walk| - 1]
  }

  /** The node lies on a cycle or downstream of one. */
  ghost predicate BehindCycle(v: string, within: set<string>, links: Links) {
    exists cycle, walk :: IsCycle(cycle, within, links) && IsWalk(walk, within, links)
                          && walk[0] == cycle[0] && walk[|walk| - 1] == v
  }

  ghost predicate Acyclic(nodes: set<string>, links: Links) {
    forall walk :: !IsCycle(walk, nodes, links)
  }

  /** A listing of exactly these nodes, without repetition, in which every link goes forward. */
  ghost predicate IsTopological(order: seq<string>, nodes: set<string>, links: Links) {
    && Distinct(order)
    && (forall v :: v in order <==> v in nodes)
    && (forall i, j :: 0 <= i < |order| && 0 <= j < |order| && (order[i], order[j]) in links ==> i < j)
  }

  ghost predicate LexLeq(a: seq<string>, b: seq<string>) {
    a == [] || (b != [] && (StrLess(a[0], b[0]) || (a[0] == b[0] && LexLeq(a[1..], b[1..]))))
  }

  lemma {:induction false} KahnSplits(rest: set<string>, links: Links)
    ensures var (order, left) := Kahn(rest, links);
            && left <= rest && Ready(left, links) == {}
            && IsTopological(order, rest - left, links)
            && (forall u, v :: u in left && v in order ==> (u, v) !in links)
    decreases rest
  {
    if Ready(rest, links) != {} {
      var v := Least(Ready(rest, links));
      KahnSplits(rest - {v}, links);
      var (tail, left) := Kahn(rest - {v}, links);
      var order := [v] + tail;
      assert forall i :: 0 <= i < |order| ==> order[i] in rest by {
        assert forall i :: 0 < i < |order| ==> order[i] == tail[i - 1] && tail[i - 1] in tail;
      }
      forall i, j | 0 <= i < |order| && 0 <= j < |order| && (order[i], order[j]) in links ensures i < j {
        if i > 0 && j > 0 {
          assert order[i] == tail[i - 1] && order[j] == tail[j - 1];
        }
      }
      assert forall x :: x in order <==> x == v || x in tail;
      forall i, j | 0 <= i < j < |order| ensures order[i] != order[j] {
        assert order[j] == tail[j - 1] && tail[j - 1] in tail;
        if i > 0 { assert order[i] == tail[i - 1]; }
      }
    } else {
      assert Kahn(rest, links) == ([], rest);
    }
  }

  /** A set of nodes that each have a predecessor inside the set is never taken apart. */
  lemma {:induction false} SelfSupportingStays(rest: set<string>, links: Links, s: set<string>)
    requires s <= rest && forall v :: v in s ==> exists u :: u in s && (u, v) in links
    ensures s <= Kahn(rest, links).1
    decreases rest
  {
    if Ready(rest, links) != {} {
      var v := Least(Ready(rest, links));
      assert v !in s;
      SelfSupportingStays(rest - {v}, links, s);
    }
  }

  /** From a node of a set in which everybody has a predecessor one can walk back any number of steps. */
  lemma {:induction false} WalkBack(left: set<string>, links: Links, v: string, n: nat) returns (walk: seq<string>)
    requires Ready(left, links) == {} && v in left
    ensures IsWalk(walk, left, links) && |walk| == n + 1 && walk[n] == v
    decreases n
  {
    if n == 0 {
      walk := [v];
    } else {
      assert v !in Ready(left, links);
      var u :| u in left && (u, v) in links;
      var front := WalkBack(left, links, u, n - 1);
      walk := front + [v];
      forall i | 0 <= i < |walk| - 1 ensures (walk[i], walk[i + 1]) in links {
        if i < n - 1 { assert (front[i], front[i + 1]) in links; }
      }
    }
  }

  lemma {:induction false} Pigeonhole(s: seq<string>, holes: set<string>) returns (i: nat, j: nat)
    requires |s| > |holes| && forall k :: 0 <= k < |s| ==> s[k] in holes
    ensures i < j < |s| && s[i] == s[j]
    decreases |s|
  {
    var last := s[|s| - 1];
    if k :| 0 <= k < |s| - 1 && s[k] == last {
      i, j := k, |s| - 1;
    } else {
      i, j := Pigeonhole(s[..|s| - 1], holes - {last});
    }
  }

  lemma WalksCompose(cycle: seq<string>, walk: seq<string>, within: set<string>, links: Links)
    requires IsCycle(cycle, within, links) && IsWalk(walk, within, links) && walk[0] == cycle[0]
    ensures var s := NodesOf(cycle) + NodesOf(walk);
            s <= within && forall v :: v in s ==> exists u :: u in s && (u, v) in links
  {
    var s := NodesOf(cycle) + NodesOf(walk);
    forall v | v in s ensures exists u :: u in s && (u, v) in links {
      if i :| 0 < i < |walk| && walk[i] == v {
        assert (walk[i - 1], walk[i - 1 + 1]) in links;
      } else {
        assert exists i :: 0 < i < |cycle| && cycle[i] == v by {
          if v == cycle[0] { assert cycle[|cycle| - 1] == v; }
        }
        var i :| 0 < i < |cycle| && cycle[i] == v;
        assert (cycle[i - 1], cycle[i - 1 + 1]) in links;
      }
    }
  }

  ghost function NodesOf(walk: seq<string>): set<string> {
    set v | v in walk
  }

  lemma SubWalk(walk: seq<string>, within: set<string>, links: Links, i: nat, j: nat)
    requires IsWalk(walk, within, links) && i < j <= |walk|
    ensures IsWalk(walk[i..j], within, links)
  {
    forall k | 0 <= k < j - i - 1 ensures (walk[i..j][k], walk[i..j][k + 1]) in links {
      assert (walk[i + k], walk[i + k + 1]) in links;
    }
  }

  lemma RepeatMakesCycle(walk: seq<string>, within: set<string>, links: Links, i: nat, j: nat)
    requires IsWalk(walk, within, links) && i < j < |walk| && walk[i] == walk[j]
    ensures IsCycle(walk[i..j + 1], within, links) && IsWalk(walk[i..], within, links)
    ensures walk[i..][0] == walk[i..j + 1][0] && walk[i..][|walk[i..]| - 1] == walk[|walk| - 1]
  {
    hide IsWalk;
    SubWalk(walk, within, links, i, j + 1);
    SubWalk(walk, within, links, i, |walk|);
    assert walk[i..|walk|] == walk[i..];
  }

  lemma LongWalkHasCycle(walk: seq<string>, within: set<string>, links: Links)
    requires IsWalk(walk, within, links) && |walk| > |within|
    ensures BehindCycle(walk[|walk| - 1], within, links)
  {
    assert forall k :: 0 <= k < |walk| ==> walk[k] in within;
    hide IsWalk, IsCycle;
    var i, j := Pigeonhole(walk, within);
    RepeatMakesCycle(walk, within, links, i, j);
  }

  lemma LeftIsBehindCycle(nodes: set<string>, links: Links, v: string)
    requires v in Kahn(nodes, links).1
    ensures BehindCycle(v, nodes, links)
  {
    var left := Kahn(nodes, links).1;
    KahnSplits(nodes, links);
    var walk := WalkBack(left, links, v, |nodes|);
    assert IsWalk(walk, nodes, links);
    hide Kahn, Ready, IsTopological, IsWalk, BehindCycle;
    LongWalkHasCycle(walk, nodes, links);
  }

  lemma BehindCycleIsLeft(nodes: set<string>, links: Links, v: string)
    requires BehindCycle(v, nodes, links)
    ensures v in Kahn(nodes, links).1
  {
    var cycle, walk :| IsCycle(cycle, nodes, links) && IsWalk(walk, nodes, links)
                       && walk[0] == cycle[0] && walk[|walk| - 1] == v;
    WalksCompose(cycle, walk, nodes, links);
    SelfSupportingStays(nodes, links, NodesOf(cycle) + NodesOf(walk));
  }

  /** The nodes left over are exactly those on or downstream of a cycle. */
  lemma LeftOverIsBehindCycle(nodes: set<string>, links: Links, v: string)
    ensures v in Kahn(nodes, links).1 <==> BehindCycle(v, nodes, links)
  {
    hide Kahn, BehindCycle;
    if v in Kahn(nodes, links).1 { LeftIsBehindCycle(nodes, links, v); }
    if BehindCycle(v, nodes, links) { BehindCycleIsLeft(nodes, links, v); }
  }

  /** A listed node need not lie on a cycle: where "a" requires itself and "b" requires "a", both are left over, but no
      cycle goes through "b". */
  lemma LeftOverBesideCycle(links: Links)
    requires links == {("a", "a"), ("a", "b")}
    ensures "b" in Kahn({"a", "b"}, links).1
    ensures forall walk :: IsCycle(walk, {"a", "b"}, links) ==> "b" !in walk
  {
    var nodes := {"a", "b"};
    var cycle, walk := ["a", "a"], ["a", "b"];
    assert IsCycle(cycle, nodes, links) && IsWalk(walk, nodes, links);
    LeftOverIsBehindCycle(nodes, links, "b");
    forall walk | IsCycle(walk, nodes, links) ensures "b" !in walk {
      forall i | 0 <= i < |walk| ensures walk[i] != "b" {
        var k := if i == |walk| - 1 then 0 else i;
        assert (walk[k], walk[k + 1]) in links;
      }
    }
  }

  /** The order exists exactly when the links have no cycle; otherwise the error lists, in increasing order and
      without repetition, exactly the nodes on or downstream of a cycle. */
  lemma OrderExactlyIfAcyclic(nodes: set<string>, links: Links)
    ensures TopologicalResult(nodes, links).Ok? <==> Acyclic(nodes, links)
    ensures TopologicalResult(nodes, links).Ok? ==> IsTopological(TopologicalResult(nodes, links).value, nodes, links)
    ensures TopologicalResult(nodes, links).Err? ==>
              ListsBehindCycle(TopologicalResult(nodes, links).error, nodes, links)
  {
    hide IsCycle, IsWalk, BehindCycle, Acyclic, IsTopological, Ready, Kahn;
    var (order, left) := Kahn(nodes, links);
    KahnSplits(nodes, links);
    forall v ensures v in left <==> BehindCycle(v, nodes, links) { LeftOverIsBehindCycle(nodes, links, v); }
    CycleShows(nodes, links);
    assert ListsBehindCycle(Arrange(StrLeq, left), nodes, links) by {
      StrLeqIsTotal();
      ArrangeSorts(StrLeq, left);
      hide StrLeq, TotalPreorder, Antisymmetric;
    }
    if left == {} { assert nodes - left == nodes; }
    hide ListsBehindCycle, Arrange;
  }

  /** The sorted listing, without repetition, of the nodes on or downstream of a cycle. */
  ghost predicate ListsBehindCycle(listed: seq<string>, nodes: set<string>, links: Links) {
    Sorted(StrLeq, listed) && Distinct(listed) && forall v :: v in listed <==> BehindCycle(v, nodes, links)
  }

  lemma CycleShows(nodes: set<string>, links: Links)
    ensures Acyclic(nodes, links) <==> forall v :: !BehindCycle(v, nodes, links)
  {
    if cycle :| IsCycle(cycle, nodes, links) {
      assert IsWalk([cycle[0]], nodes, links);
      assert BehindCycle(cycle[0], nodes, links);
    }
  }

  /** The order is the lexicographically least of all topological orders. */
  lemma {:induction false} OrderIsLeast(nodes: set<string>, links: Links, other: seq<string>)
    requires IsTopological(other, nodes, links)
    ensures Kahn(nodes, links).1 == {} && LexLeq(Kahn(nodes, links).0, other)
    decreases nodes
  {
    if other == [] {
      assert forall v :: v in nodes ==> v in other;
      assert nodes == {};
    } else {
      var first := other[0];
      assert first in Ready(nodes, links) by {
        assert first in other;
        forall u | u in nodes ensures (u, first) !in links {
          assert u in other;
          var i :| 0 <= i < |other| && other[i] == u;
          assert (other[i], other[0]) in links ==> i < 0;
        }
      }
      var v := Least(Ready(nodes, links));
      var tail := other[1..];
      if v == first {
        assert IsTopological(tail, nodes - {v}, links) by { TailIsTopological(other, nodes, links); }
        OrderIsLeast(nodes - {v}, links, tail);
      } else {
        DropIsTopological(other, nodes, links, v);
        var k :| 0 <= k < |other| && other[k] == v;
        OrderIsLeast(nodes - {v}, links, other[..k] + other[k + 1..]);
      }
    }
  }

  lemma TailIsTopological(order: seq<string>, nodes: set<string>, links: Links)
    requires IsTopological(order, nodes, links) && order != []
    ensures IsTopological(order[1..], nodes - {order[0]}, links)
  {
    var tail := order[1..];
    forall v ensures v in tail <==> v in nodes - {order[0]} {
      if v in tail { var i :| 0 <= i < |tail| && tail[i] == v; assert order[i + 1] == v; }
      if v in nodes - {order[0]} { var i :| 0 <= i < |order| && order[i] == v; assert tail[i - 1] == v; }
    }
    forall i, j | 0 <= i < |tail| && 0 <= j < |tail| && (tail[i], tail[j]) in links ensures i < j {
      assert order[i + 1] == tail[i] && order[j + 1] == tail[j];
    }
  }

  lemma DropIsTopological(order: seq<string>, nodes: set<string>, links: Links, v: string)
    requires IsTopological(order, nodes, links) && v in nodes
    ensures exists k :: 0 <= k < |order| && order[k] == v
                        && IsTopological(order[..k] + order[k + 1..], nodes - {v}, links)
    ensures forall k :: 0 <= k < |order| && order[k] == v ==>
                          IsTopological(order[..k] + order[k + 1..], nodes - {v}, links)
  {
    assert v in order;
    var first :| 0 <= first < |order| && order[first] == v;
    hide IsTopological;
    forall k | 0 <= k < |order| && order[k] == v
      ensures IsTopological(order[..k] + order[k + 1..], nodes - {v}, links)
    {
      DropOneIsTopological(order, nodes, links, k);
    }
  }

  lemma DropOneIsTopological(order: seq<string>, nodes: set<string>, links: Links, k: nat)
    requires IsTopological(order, nodes, links) && k < |order|
    ensures IsTopological(order[..k] + order[k + 1..], nodes - {order[k]}, links)
  {
    var shorter := order[..k] + order[k + 1..];
    DropPlaces(order, k);
    DropHolds(order, k);
    hide Distinct;
    forall i, j | 0 <= i < |shorter| && 0 <= j < |shorter| && (shorter[i], shorter[j]) in links ensures i < j {
      assert (order[Source(i, k)], order[Source(j, k)]) in links;
    }
  }
}
