/**
 * The residual graph: nodes are kept as mutually inverse id/index maps with a
 * type and a balance each; edges live in an arena (see module Edges) and each
 * node's adjacency list holds the arena indices of the edges leaving it, in
 * the order they were added.
 */
module Graphs {
  import opened Edges
  import opened NodeTypes
  import opened Options

  /** The pair addEdge creates at arena position `at`: the forward edge with the
      given capacity and cost, then the reverse edge with capacity 0 and the
      negated cost, each naming the other as its twin. */
  function Twins(source: nat, dest: nat, capacity: real, cost: real, at: nat): (r: seq<Edge>)
    ensures |r| == 2 && r[0].reverse == at + 1 && r[1].reverse == at
    ensures r[0].source == r[1].dest == source && r[0].dest == r[1].source == dest
    ensures r[0].capacity == capacity && r[1].capacity == 0.0
    ensures r[0].cost == cost && r[1].cost == -cost
    ensures r[0].flow == 0.0 && r[1].flow == 0.0
  {
    [NewEdge(source, dest, capacity, cost, at + 1), NewEdge(dest, source, 0.0, -cost, at)]
  }

  /** Appending a pair at the end of a twinned arena keeps it twinned. */
  lemma TwinsKeepTwinned(edges: seq<Edge>, source: nat, dest: nat, capacity: real, cost: real)
    requires Twinned(edges)
    ensures Twinned(edges + Twins(source, dest, capacity, cost, |edges|))
  {
    var r := edges + Twins(source, dest, capacity, cost, |edges|);
    forall i | 0 <= i < |r| ensures TwinAt(r, i) {
      if i < |edges| {
        assert TwinAt(edges, i);
      }
    }
  }

  /** The edges Graph.copy re-creates: positive capacity and a capacity-0 twin. */
  predicate KeepsEdge(edges: seq<Edge>, e: nat)
  {
    e < |edges| && edges[e].reverse < |edges| && edges[e].capacity > 0.0 && edges[edges[e].reverse].capacity == 0.0
  }

  /** The kept edges of one adjacency list, in list order. */
  function Filtered(edges: seq<Edge>, list: seq<nat>): (r: seq<nat>)
    ensures forall k :: 0 <= k < |r| ==> r[k] < |edges| && KeepsEdge(edges, r[k])
    decreases |list|
  {
    if list == [] then []
    else
      var rest := Filtered(edges, list[..|list| - 1]);
      var e := list[|list| - 1];
      if KeepsEdge(edges, e) then rest + [e] else rest
  }

  /** The kept edges of adjacency lists 0 .. i-1, in the order Graph.copy visits them. */
  function KeptIn(edges: seq<Edge>, adjacency: seq<seq<nat>>, i: nat): (r: seq<nat>)
    requires i <= |adjacency|
    ensures forall k :: 0 <= k < |r| ==> r[k] < |edges| && KeepsEdge(edges, r[k])
    decreases i
  {
    if i == 0 then [] else KeptIn(edges, adjacency, i - 1) + Filtered(edges, adjacency[i - 1])
  }

  lemma {:induction false} FilteredMembers(edges: seq<Edge>, list: seq<nat>)
    ensures forall e :: e in Filtered(edges, list) <==> e in list && KeepsEdge(edges, e)
    decreases |list|
  {
    if list != [] {
      FilteredMembers(edges, list[..|list| - 1]);
      assert list == list[..|list| - 1] + [list[|list| - 1]];
    }
  }

  /** Graph.copy re-creates exactly the kept edges that some adjacency list holds. */
  lemma {:induction false} KeptInMembers(edges: seq<Edge>, adjacency: seq<seq<nat>>, i: nat)
    requires i <= |adjacency|
    ensures forall e :: e in KeptIn(edges, adjacency, i) <==> KeepsEdge(edges, e) && exists v :: 0 <= v < i && e in adjacency[v]
    decreases i
  {
    if i > 0 {
      KeptInMembers(edges, adjacency, i - 1);
      FilteredMembers(edges, adjacency[i - 1]);
    }
  }

  /** The arena Graph.copy builds: one fresh pair per kept edge, in visiting order. */
  function Rebuilt(edges: seq<Edge>, kept: seq<nat>): (r: seq<Edge>)
    requires InArena(edges, kept)
    ensures |r| == 2 * |kept|
    decreases |kept|
  {
    if kept == [] then []
    else
      var e := edges[kept[|kept| - 1]];
      var before := Rebuilt(edges, kept[..|kept| - 1]);
      before + Twins(e.source, e.dest, e.capacity, e.cost, |before|)
  }

  /** Each kept edge reappears as the forward edge of the j-th pair, with its
      endpoints, capacity and cost, no flow, and a fresh reverse twin. */
  lemma {:induction false} RebuiltPairs(edges: seq<Edge>, kept: seq<nat>, j: nat)
    requires forall k :: 0 <= k < |kept| ==> kept[k] < |edges|
    requires j < |kept|
    ensures Rebuilt(edges, kept)[2 * j .. 2 * j + 2]
         == Twins(edges[kept[j]].source, edges[kept[j]].dest, edges[kept[j]].capacity, edges[kept[j]].cost, 2 * j)
    decreases |kept|
  {
    var n := |kept| - 1;
    var before := Rebuilt(edges, kept[..n]);
    if j < n {
      RebuiltPairs(edges, kept[..n], j);
      assert Rebuilt(edges, kept)[2 * j .. 2 * j + 2] == before[2 * j .. 2 * j + 2];
    } else {
      assert Rebuilt(edges, kept)[2 * j .. 2 * j + 2] == Rebuilt(edges, kept)[|before|..];
    }
  }

  lemma RebuiltStep(edges: seq<Edge>, kept: seq<nat>, e: nat)
    requires InArena(edges, kept) && e < |edges|
    ensures InArena(edges, kept + [e])
    ensures Rebuilt(edges, kept + [e])
         == Rebuilt(edges, kept) + Twins(edges[e].source, edges[e].dest, edges[e].capacity, edges[e].cost, 2 * |kept|)
  {
    assert (kept + [e])[..|kept|] == kept;
  }

  lemma FilteredStep(edges: seq<Edge>, list: seq<nat>, k: nat)
    requires k < |list|
    ensures Filtered(edges, list[..k + 1])
         == Filtered(edges, list[..k]) + (if KeepsEdge(edges, list[k]) then [list[k]] else [])
  {
    assert list[..k + 1][..k] == list[..k];
  }

  /** Every index in `s` names an edge of the arena. */
  ghost predicate InArena(edges: seq<Edge>, s: seq<nat>)
  {
    forall k :: 0 <= k < |s| ==> s[k] < |edges|
  }

  /** `kept` followed by `e` when Graph.copy re-creates `e`, else `kept` alone. */
  function KeepIf(edges: seq<Edge>, kept: seq<nat>, e: nat): (r: seq<nat>)
    ensures KeepsEdge(edges, e) ==> r == kept + [e]
    ensures !KeepsEdge(edges, e) ==> r == kept
  {
    if KeepsEdge(edges, e) then kept + [e] else kept
  }

  /** One more element of an adjacency list extends the kept prefix by KeepIf. */
  lemma KeptStep(edges: seq<Edge>, base: seq<nat>, list: seq<nat>, k: nat)
    requires k < |list|
    ensures base + Filtered(edges, list[..k + 1]) == KeepIf(edges, base + Filtered(edges, list[..k]), list[k])
  {
    FilteredStep(edges, list, k);
    if KeepsEdge(edges, list[k]) {
      assert base + (Filtered(edges, list[..k]) + [list[k]]) == (base + Filtered(edges, list[..k])) + [list[k]];
    }
  }

  /** A rebuilt arena is well linked, carries no flow, and has no edge over capacity. */
  lemma {:induction false} RebuiltIsFresh(edges: seq<Edge>, kept: seq<nat>)
    requires forall k :: 0 <= k < |kept| ==> kept[k] < |edges| && KeepsEdge(edges, kept[k])
    ensures Twinned(Rebuilt(edges, kept))
    ensures forall i :: 0 <= i < |Rebuilt(edges, kept)| ==> Rebuilt(edges, kept)[i].flow == 0.0
    ensures FlowsCancel(Rebuilt(edges, kept)) && ResidualsNonneg(Rebuilt(edges, kept))
    decreases |kept|
  {
    if kept != [] {
      var n := |kept| - 1;
      var e := edges[kept[n]];
      var before := Rebuilt(edges, kept[..n]);
      RebuiltIsFresh(edges, kept[..n]);
      TwinsKeepTwinned(before, e.source, e.dest, e.capacity, e.cost);
      assert KeepsEdge(edges, kept[n]);
    }
  }

  /** The id maps are inverse bijections between the ids and 0 .. count-1. */
  ghost predicate IdMaps(toIndex: map<string, nat>, toId: map<nat, string>, count: nat)
  {
    (forall id :: id in toIndex ==> toIndex[id] < count && toIndex[id] in toId && toId[toIndex[id]] == id)
    && (forall i :: i in toId ==> i < count && toId[i] in toIndex && toIndex[toId[i]] == i)
    && (forall i: nat :: i < count ==> i in toId)
  }

  /** The index map is fixed by the id map it inverts. */
  lemma IdMapsDetermined(a: map<string, nat>, b: map<string, nat>, toId: map<nat, string>, count: nat)
    requires IdMaps(a, toId, count) && IdMaps(b, toId, count)
    ensures a == b
  {
    forall id | id in a ensures id in b && a[id] == b[id] {
      assert toId[a[id]] == id;
    }
    forall id | id in b ensures id in a {
      assert toId[b[id]] == id;
    }
  }

  /** Registering a new id under the next index keeps the maps inverse. */
  lemma IdMapsExtend(toIndex: map<string, nat>, toId: map<nat, string>, count: nat, id: string)
    requires IdMaps(toIndex, toId, count) && id !in toIndex
    ensures IdMaps(toIndex[id := count], toId[count := id], count + 1)
  {
    assert count !in toId;
  }

  /** The arena indices of the edges leaving node v, in arena (creation) order. */
  function OutEdges(edges: seq<Edge>, v: nat): (r: seq<nat>)
    ensures forall k :: 0 <= k < |r| ==> r[k] < |edges| && edges[r[k]].source == v
    ensures forall k, l :: 0 <= k < l < |r| ==> r[k] < r[l]
    decreases |edges|
  {
    if edges == [] then []
    else
      var n := |edges| - 1;
      OutEdges(edges[..n], v) + (if edges[n].source == v then [n] else [])
  }

  lemma OutEdgesAppend(edges: seq<Edge>, e: Edge, v: nat)
    ensures OutEdges(edges + [e], v) == OutEdges(edges, v) + (if e.source == v then [|edges|] else [])
  {
    assert (edges + [e])[..|edges|] == edges;
  }

  /** An adjacency list holds every edge leaving its node and nothing else. */
  lemma {:induction false} OutEdgesMembers(edges: seq<Edge>, v: nat)
    ensures forall e: nat :: e in OutEdges(edges, v) <==> e < |edges| && edges[e].source == v
    decreases |edges|
  {
    if edges != [] {
      var n := |edges| - 1;
      OutEdgesMembers(edges[..n], v);
      assert forall e :: 0 <= e < n ==> edges[..n][e] == edges[e];
    }
  }

  /** A node that no edge leaves has an empty adjacency list. */
  lemma {:induction false} OutEdgesOfUnknownNode(edges: seq<Edge>, v: nat)
    requires forall e :: 0 <= e < |edges| ==> edges[e].source != v
    ensures OutEdges(edges, v) == []
    decreases |edges|
  {
    if edges != [] {
      OutEdgesOfUnknownNode(edges[..|edges| - 1], v);
    }
  }

  /** Adjacency lists do not depend on flows. */
  lemma {:induction false} OutEdgesIgnoreFlow(a: seq<Edge>, b: seq<Edge>, v: nat)
    requires SameShapes(a, b)
    ensures OutEdges(a, v) == OutEdges(b, v)
    decreases |a|
  {
    if a != [] {
      var n := |a| - 1;
      assert SameShape(a[n], b[n]);
      OutEdgesIgnoreFlow(a[..n], b[..n], v);
    }
  }

  /** Every edge joins two of the |adjacency| nodes, and each adjacency list
      is exactly the list of edges leaving its node. */
  ghost predicate AdjacencyFits(adjacency: seq<seq<nat>>, edges: seq<Edge>)
  {
    (forall e :: 0 <= e < |edges| ==> edges[e].source < |adjacency| && edges[e].dest < |adjacency|)
    && (forall v :: 0 <= v < |adjacency| ==> adjacency[v] == OutEdges(edges, v))
  }

  lemma AdjacencyFitsNewNode(adjacency: seq<seq<nat>>, edges: seq<Edge>)
    requires AdjacencyFits(adjacency, edges)
    ensures AdjacencyFits(adjacency + [[]], edges)
  {
    var adj := adjacency + [[]];
    assert forall v :: 0 <= v < |adjacency| ==> adj[v] == adjacency[v];
    OutEdgesOfUnknownNode(edges, |adjacency|);
  }

  /** Appending a pair to the arena and its indices to the endpoints' lists keeps the lists exact. */
  lemma AdjacencyFitsAppend(adjacency: seq<seq<nat>>, edges: seq<Edge>, s: nat, d: nat, capacity: real, cost: real)
    requires AdjacencyFits(adjacency, edges) && s < |adjacency| && d < |adjacency|
    ensures
      var m := |edges|;
      var first := adjacency[s := adjacency[s] + [m]];
      AdjacencyFits(first[d := first[d] + [m + 1]], edges + Twins(s, d, capacity, cost, m))
  {
    var m := |edges|;
    var first := adjacency[s := adjacency[s] + [m]];
    var adj := first[d := first[d] + [m + 1]];
    var pair := Twins(s, d, capacity, cost, m);
    var arena := edges + pair;
    assert arena == (edges + [pair[0]]) + [pair[1]];
    forall v | 0 <= v < |adj| ensures adj[v] == OutEdges(arena, v) {
      OutEdgesAppend(edges, pair[0], v);
      OutEdgesAppend(edges + [pair[0]], pair[1], v);
    }
  }

  /** Graph.copy re-creates exactly the forward edges: those with positive
      capacity whose twin has capacity 0. */
  lemma CopiedEdges(edges: seq<Edge>, adjacency: seq<seq<nat>>)
    requires AdjacencyFits(adjacency, edges)
    ensures forall e: nat :: e in KeptIn(edges, adjacency, |adjacency|) <==> KeepsEdge(edges, e)
  {
    KeptInMembers(edges, adjacency, |adjacency|);
    forall e: nat | KeepsEdge(edges, e) ensures exists v :: 0 <= v < |adjacency| && e in adjacency[v] {
      OutEdgesMembers(edges, edges[e].source);
      assert e in adjacency[edges[e].source];
    }
  }

  class Graph {
    var nodeIdToIndex: map<string, nat>
    var indexToNodeId: map<nat, string>
    var nodeTypes: map<string, NodeType>
    var balances: map<string, real>
    var nodeCount: nat
    /** adjacency[v]: arena indices of the edges leaving node v, oldest first. */
    var adjacency: seq<seq<nat>>
    /** The arena holding every edge object of the graph. */
    var edges: seq<Edge>

    /** The id maps are inverse; every id has a type and a balance; every edge
        is twinned and listed exactly in its source's adjacency list. */
    ghost predicate Valid()
      reads this
    {
      IdMaps(nodeIdToIndex, indexToNodeId, nodeCount)
      && nodeTypes.Keys == nodeIdToIndex.Keys
      && nodeIdToIndex.Keys <= balances.Keys
      && |adjacency| == nodeCount
      && Twinned(edges)
      && AdjacencyFits(adjacency, edges)
    }

    constructor()
      ensures Valid()
      ensures nodeIdToIndex == map[] && indexToNodeId == map[] && nodeTypes == map[] && balances == map[]
      ensures nodeCount == 0 && adjacency == [] && edges == []
    {
      nodeIdToIndex := map[];
      indexToNodeId := map[];
      nodeTypes := map[];
      balances := map[];
      nodeCount := 0;
      adjacency := [];
      edges := [];
    }

    /** Registers a node. A known id keeps its index, type and balance. */
    method AddNode(nodeId: string, nodeType: NodeType, balance: real) returns (index: nat)
      requires Valid()
      modifies this
      ensures Valid()
      ensures nodeId in old(nodeIdToIndex) ==> index == old(nodeIdToIndex[nodeId]) && unchanged(this)
      ensures nodeId !in old(nodeIdToIndex) ==>
        index == old(nodeCount) && nodeCount == old(nodeCount) + 1
        && nodeIdToIndex == old(nodeIdToIndex)[nodeId := index]
        && indexToNodeId == old(indexToNodeId)[index := nodeId]
        && nodeTypes == old(nodeTypes)[nodeId := nodeType]
        && balances == old(balances)[nodeId := balance]
        && adjacency == old(adjacency) + [[]]
        && edges == old(edges)
      ensures nodeId in nodeIdToIndex && nodeIdToIndex[nodeId] == index && index in indexToNodeId && indexToNodeId[index] == nodeId
    {
      if nodeId in nodeIdToIndex {
        return nodeIdToIndex[nodeId];
      }
      index := nodeCount;
      nodeCount := nodeCount + 1;
      nodeIdToIndex := nodeIdToIndex[nodeId := index];
      indexToNodeId := indexToNodeId[index := nodeId];
      nodeTypes := nodeTypes[nodeId := nodeType];
      balances := balances[nodeId := balance];
      adjacency := adjacency + [[]];
      IdMapsExtend(old(nodeIdToIndex), old(indexToNodeId), old(nodeCount), nodeId);
      AdjacencyFitsNewNode(old(adjacency), edges);
    }

    /** Adds a forward edge and its reverse twin between two known nodes; an unknown id changes nothing. */
    method AddEdge(sourceId: string, destId: string, capacity: real, cost: real) returns (ok: bool)
      requires Valid()
      modifies this
      ensures Valid()
      ensures ok <==> sourceId in nodeIdToIndex && destId in nodeIdToIndex
      ensures nodeIdToIndex == old(nodeIdToIndex) && indexToNodeId == old(indexToNodeId)
      ensures nodeTypes == old(nodeTypes) && balances == old(balances) && nodeCount == old(nodeCount)
      ensures !ok ==> edges == old(edges) && adjacency == old(adjacency)
      ensures ok ==>
        var s, d, m := nodeIdToIndex[sourceId], nodeIdToIndex[destId], |old(edges)|;
        edges == old(edges) + Twins(s, d, capacity, cost, m)
        && |adjacency| == |old(adjacency)|
        && forall v :: 0 <= v < |adjacency| ==>
             adjacency[v] == old(adjacency)[v] + (if v == s then [m] else []) + (if v == d then [m + 1] else [])
    {
      if sourceId !in nodeIdToIndex || destId !in nodeIdToIndex {
        return false;
      }
      var s := nodeIdToIndex[sourceId];
      var d := nodeIdToIndex[destId];
      var m := |edges|;
      TwinsKeepTwinned(edges, s, d, capacity, cost);
      edges := edges + Twins(s, d, capacity, cost, m);
      adjacency := adjacency[s := adjacency[s] + [m]];
      adjacency := adjacency[d := adjacency[d] + [m + 1]];
      ok := true;
      forall v | 0 <= v < |adjacency|
        ensures adjacency[v] == old(adjacency)[v] + (if v == s then [m] else []) + (if v == d then [m + 1] else [])
      {
      }
      AdjacencyFitsAppend(old(adjacency), old(edges), s, d, capacity, cost);
    }

    /** Graph.setBalance: overwrites (or creates) one balance. */
    method SetBalance(nodeId: string, balance: real)
      requires Valid()
      modifies this
      ensures Valid()
      ensures balances == old(balances)[nodeId := balance]
      ensures GetBalance(nodeId) == balance
      ensures forall other :: other != nodeId ==> GetBalance(other) == old(GetBalance(other))
      ensures nodeIdToIndex == old(nodeIdToIndex) && indexToNodeId == old(indexToNodeId) && nodeTypes == old(nodeTypes)
      ensures nodeCount == old(nodeCount) && adjacency == old(adjacency) && edges == old(edges)
    {
      balances := balances[nodeId := balance];
    }

    /** Graph.updateBalance: adds to a balance that exists; an id without one is left alone. */
    method UpdateBalance(nodeId: string, amount: real)
      requires Valid()
      modifies this
      ensures Valid()
      ensures nodeId in old(balances) ==> balances == old(balances)[nodeId := old(balances[nodeId]) + amount]
      ensures nodeId !in old(balances) ==> balances == old(balances)
      ensures forall other :: other != nodeId ==> GetBalance(other) == old(GetBalance(other))
      ensures nodeIdToIndex == old(nodeIdToIndex) && indexToNodeId == old(indexToNodeId) && nodeTypes == old(nodeTypes)
      ensures nodeCount == old(nodeCount) && adjacency == old(adjacency) && edges == old(edges)
    {
      if nodeId in balances {
        balances := balances[nodeId := balances[nodeId] + amount];
      }
    }

    /** Edge.addFlow on arena edge `e`: only the flows of `e` and its twin move. */
    method AddFlow(e: nat, x: real)
      requires Valid() && e < |edges|
      modifies this
      ensures Valid()
      ensures old(edges)[e].reverse < |old(edges)| && edges == Push(old(edges), e, x)
      ensures nodeIdToIndex == old(nodeIdToIndex) && indexToNodeId == old(indexToNodeId) && nodeTypes == old(nodeTypes)
      ensures balances == old(balances) && nodeCount == old(nodeCount) && adjacency == old(adjacency)
    {
      assert TwinAt(edges, e);
      var before := edges;
      edges := Push(edges, e, x);
      SameShapesKeepTwins(before, edges);
      forall v | 0 <= v < |adjacency| ensures adjacency[v] == OutEdges(edges, v) {
        OutEdgesIgnoreFlow(before, edges, v);
      }
    }

    /** Graph.getBalance: an id without a balance reads as 0. */
    function GetBalance(nodeId: string): (b: real)
      reads this
      ensures nodeId in balances ==> b == balances[nodeId]
      ensures nodeId !in balances ==> b == 0.0
    {
      if nodeId in balances then balances[nodeId] else 0.0
    }

    /** Graph.getNodeIndex: -1 exactly for an unknown id, otherwise the index that maps back to it. */
    function GetNodeIndex(nodeId: string): (i: int)
      requires Valid()
      reads this
      ensures i == -1 <==> nodeId !in nodeIdToIndex
      ensures i != -1 ==> 0 <= i < nodeCount && i in indexToNodeId && indexToNodeId[i] == nodeId
    {
      if nodeId in nodeIdToIndex then nodeIdToIndex[nodeId] else -1
    }

    /** Graph.getNodeType: absent exactly for an unknown id. */
    function GetNodeType(nodeId: string): (t: Option<NodeType>)
      requires Valid()
      reads this
      ensures t.Some? <==> nodeId in nodeIdToIndex
    {
      if nodeId in nodeTypes then Some(nodeTypes[nodeId]) else None
    }

    /** The node ids in index order: the order in which every loop over the ids visits them. */
    function Ids(): (r: seq<string>)
      requires Valid()
      reads this
      ensures |r| == nodeCount
      ensures forall i :: 0 <= i < nodeCount ==> i in indexToNodeId && r[i] == indexToNodeId[i]
      ensures forall id :: id in r <==> id in nodeIdToIndex
    {
      var m := indexToNodeId;
      var r := seq(nodeCount, i => if i in m then m[i] else "");
      assert forall id :: id in nodeIdToIndex ==> r[nodeIdToIndex[id]] == id;
      r
    }

    /** One step of Graph.copy: re-create arena edge `e` in `c` if it is a forward edge. */
    method CopyEdge(c: Graph, e: nat, ghost kept: seq<nat>)
      requires Valid() && c.Valid() && c != this && e < |edges|
      requires c.nodeIdToIndex == nodeIdToIndex && c.indexToNodeId == indexToNodeId && c.nodeCount == nodeCount
      requires InArena(edges, kept) && c.edges == Rebuilt(edges, kept)
      modifies c
      ensures c.Valid()
      ensures c.nodeIdToIndex == old(c.nodeIdToIndex) && c.indexToNodeId == old(c.indexToNodeId)
      ensures c.nodeTypes == old(c.nodeTypes) && c.balances == old(c.balances) && c.nodeCount == old(c.nodeCount)
      ensures InArena(edges, KeepIf(edges, kept, e)) && c.edges == Rebuilt(edges, KeepIf(edges, kept, e))
    {
      assert TwinAt(edges, e);
      if edges[e].capacity > 0.0 && edges[edges[e].reverse].capacity == 0.0 {
        assert KeepsEdge(edges, e);
        var sourceId := indexToNodeId[edges[e].source];
        var destId := indexToNodeId[edges[e].dest];
        assert nodeIdToIndex[sourceId] == edges[e].source && nodeIdToIndex[destId] == edges[e].dest;
        RebuiltStep(edges, kept, e);
        var _ := c.AddEdge(sourceId, destId, edges[e].capacity, edges[e].cost);
      } else {
        assert !KeepsEdge(edges, e);
      }
    }

    /** The first half of Graph.copy: a fresh graph holding this graph's nodes, in index order, and no edges. */
    method CopyNodes() returns (c: Graph)
      requires Valid()
      ensures fresh(c) && c.Valid()
      ensures c.nodeIdToIndex == nodeIdToIndex && c.indexToNodeId == indexToNodeId && c.nodeTypes == nodeTypes
      ensures c.nodeCount == nodeCount && c.edges == []
      ensures c.balances == map id | id in nodeIdToIndex :: balances[id]
    {
      c := new Graph();
      var i := 0;
      while i < nodeCount
        invariant 0 <= i <= nodeCount
        invariant fresh(c) && c.Valid()
        invariant c.nodeCount == i && c.edges == []
        invariant forall j: nat :: j < i ==> Copied(c.indexToNodeId, c.nodeTypes, c.balances, j)
        invariant c.balances.Keys == c.nodeIdToIndex.Keys
      {
        CopyNode(c, i);
        i := i + 1;
      }
      CopiedAll(c);
    }

    /** One pass of the node loop of Graph.copy: register node i in c. */
    method CopyNode(c: Graph, i: nat)
      requires Valid() && c.Valid() && c != this && i < nodeCount && c.nodeCount == i && c.edges == []
      requires forall j: nat :: j < i ==> Copied(c.indexToNodeId, c.nodeTypes, c.balances, j)
      requires c.balances.Keys == c.nodeIdToIndex.Keys
      modifies c
      ensures c.Valid() && c.nodeCount == i + 1 && c.edges == []
      ensures forall j: nat :: j <= i ==> Copied(c.indexToNodeId, c.nodeTypes, c.balances, j)
      ensures c.balances.Keys == c.nodeIdToIndex.Keys
    {
      var id := indexToNodeId[i];
      NotYetCopied(c, i);
      ghost var toId, types, bals := c.indexToNodeId, c.nodeTypes, c.balances;
      var _ := c.AddNode(id, nodeTypes[id], balances[id]);
      forall j: nat | j <= i ensures Copied(c.indexToNodeId, c.nodeTypes, c.balances, j) {
        if j < i {
          assert nodeIdToIndex[indexToNodeId[j]] == j;
          assert Copied(toId, types, bals, j);
        }
      }
    }

    /** Once every node is registered, the copy's maps are this graph's, balances restricted to registered ids. */
    lemma CopiedAll(c: Graph)
      requires Valid() && c.Valid() && c.nodeCount == nodeCount
      requires forall j: nat :: j < nodeCount ==> Copied(c.indexToNodeId, c.nodeTypes, c.balances, j)
      requires c.balances.Keys == c.nodeIdToIndex.Keys
      ensures c.nodeIdToIndex == nodeIdToIndex && c.indexToNodeId == indexToNodeId && c.nodeTypes == nodeTypes
      ensures c.balances == map id | id in nodeIdToIndex :: balances[id]
    {
      forall j | j in c.indexToNodeId ensures j in indexToNodeId && c.indexToNodeId[j] == indexToNodeId[j] {
        assert Copied(c.indexToNodeId, c.nodeTypes, c.balances, j);
      }
      IdMapsDetermined(c.nodeIdToIndex, nodeIdToIndex, indexToNodeId, nodeCount);
      forall id | id in nodeIdToIndex ensures c.nodeTypes[id] == nodeTypes[id] && c.balances[id] == balances[id] {
        assert Copied(c.indexToNodeId, c.nodeTypes, c.balances, nodeIdToIndex[id]);
      }
    }

    /** Node j of this graph is registered in the copy's maps under the same index, type and balance. */
    ghost predicate Copied(toId: map<nat, string>, types: map<string, NodeType>, bals: map<string, real>, j: nat)
      requires Valid() && j < nodeCount
      reads this
    {
      var id := indexToNodeId[j];
      j in toId && toId[j] == id
      && id in types && types[id] == nodeTypes[id]
      && id in bals && bals[id] == balances[id]
    }

    /** The id of node i is not yet in c when only the nodes below i have been copied. */
    lemma NotYetCopied(c: Graph, i: nat)
      requires Valid() && c.Valid() && i < nodeCount && c.nodeCount == i
      requires forall j: nat :: j < i ==> Copied(c.indexToNodeId, c.nodeTypes, c.balances, j)
      ensures indexToNodeId[i] !in c.nodeIdToIndex
    {
      forall id | id in c.nodeIdToIndex ensures id != indexToNodeId[i] {
        var j := c.nodeIdToIndex[id];
        assert Copied(c.indexToNodeId, c.nodeTypes, c.balances, j);
        assert nodeIdToIndex[indexToNodeId[j]] == j;
      }
    }

    /** The inner loop of Graph.copy: re-create, in list order, the kept edges of node v's adjacency list. */
    method CopyEdgesOf(c: Graph, v: nat, ghost base: seq<nat>)
      requires Valid() && c.Valid() && v < nodeCount
      requires c.nodeIdToIndex == nodeIdToIndex && c.indexToNodeId == indexToNodeId && c.nodeCount == nodeCount
      requires c != this && InArena(edges, base)
      requires c.edges == Rebuilt(edges, base)
      modifies c
      ensures c.Valid()
      ensures c.nodeIdToIndex == old(c.nodeIdToIndex) && c.indexToNodeId == old(c.indexToNodeId)
      ensures c.nodeTypes == old(c.nodeTypes) && c.balances == old(c.balances) && c.nodeCount == old(c.nodeCount)
      ensures c.edges == Rebuilt(edges, base + Filtered(edges, adjacency[v]))
    {
      var list := adjacency[v];
      var k := 0;
      ghost var kept := base;
      assert list[..0] == [] && base + Filtered(edges, list[..0]) == base;
      while k < |list|
        invariant 0 <= k <= |list|
        invariant c.Valid()
        invariant c.nodeIdToIndex == nodeIdToIndex && c.indexToNodeId == indexToNodeId && c.nodeCount == nodeCount
        invariant c.nodeTypes == old(c.nodeTypes) && c.balances == old(c.balances)
        invariant InArena(edges, kept) && kept == base + Filtered(edges, list[..k])
        invariant c.edges == Rebuilt(edges, kept)
      {
        KeptStep(edges, base, list, k);
        CopyEdge(c, list[k], kept);
        kept := KeepIf(edges, kept, list[k]);
        k := k + 1;
      }
      assert list[..|list|] == list;
    }

    /** Graph.copy: a fresh graph with the same nodes (types, balances, indices)
        and one new flow-free pair for every forward edge of this one. */
    method Copy() returns (c: Graph)
      requires Valid()
      ensures fresh(c) && c.Valid()
      ensures c.nodeIdToIndex == nodeIdToIndex && c.indexToNodeId == indexToNodeId && c.nodeTypes == nodeTypes
      ensures c.nodeCount == nodeCount
      ensures c.balances == map id | id in nodeIdToIndex :: balances[id]
      ensures c.edges == Rebuilt(edges, KeptIn(edges, adjacency, nodeCount))
    {
      c := CopyNodes();
      ghost var copiedBalances := c.balances;
      var v := 0;
      while v < nodeCount
        invariant 0 <= v <= nodeCount
        invariant fresh(c) && c.Valid()
        invariant c.nodeIdToIndex == nodeIdToIndex && c.indexToNodeId == indexToNodeId && c.nodeTypes == nodeTypes
        invariant c.nodeCount == nodeCount && c.balances == copiedBalances
        invariant c.edges == Rebuilt(edges, KeptIn(edges, adjacency, v))
      {
        CopyEdgesOf(c, v, KeptIn(edges, adjacency, v));
        assert KeptIn(edges, adjacency, v + 1) == KeptIn(edges, adjacency, v) + Filtered(edges, adjacency[v]);
        v := v + 1;
      }
    }
  }
}
