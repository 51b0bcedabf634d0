/**
 * Edges of the residual graph, kept in an arena: a sequence of edges in
 * which every edge names its twin by index. addEdge creates the twins
 * together (a forward edge and a reverse edge with capacity 0 and the
 * negated cost); pushing flow on one moves the other's flow the opposite way.
 */
module Edges {

  datatype Edge = Edge(source: nat, dest: nat, capacity: real, flow: real, cost: real, reverse: nat)

  /** Edge.getResidualCapacity: how much more the edge can carry. */
  function Residual(e: Edge): real
  {
    e.capacity - e.flow
  }

  /** The Edge constructor: no flow yet, so all of the capacity is residual. */
  function NewEdge(source: nat, dest: nat, capacity: real, cost: real, reverse: nat): (e: Edge)
    ensures e.flow == 0.0 && Residual(e) == capacity
    ensures e.source == source && e.dest == dest && e.cost == cost && e.reverse == reverse
  {
    Edge(source, dest, capacity, 0.0, cost, reverse)
  }

  /** Two edges agree on everything but their flow. */
  predicate SameShape(a: Edge, b: Edge)
  {
    a.source == b.source && a.dest == b.dest && a.capacity == b.capacity && a.cost == b.cost && a.reverse == b.reverse
  }

  /** Two arenas agree on everything but flows. */
  ghost predicate SameShapes(a: seq<Edge>, b: seq<Edge>)
  {
    |a| == |b| && forall i :: 0 <= i < |a| ==> SameShape(a[i], b[i])
  }

  /** Edge `i` and its twin point at each other and run between the same two nodes in opposite directions. */
  ghost predicate TwinAt(edges: seq<Edge>, i: nat)
    requires i < |edges|
  {
    var t := edges[i].reverse;
    t < |edges| && t != i && edges[t].reverse == i
    && edges[t].source == edges[i].dest && edges[t].dest == edges[i].source
  }

  ghost predicate Twinned(edges: seq<Edge>)
  {
    forall i :: 0 <= i < |edges| ==> TwinAt(edges, i)
  }

  /** The pair invariant: a twin's flow is the negation of its partner's. */
  ghost predicate FlowsCancel(edges: seq<Edge>)
  {
    forall i :: 0 <= i < |edges| && edges[i].reverse < |edges| ==> edges[edges[i].reverse].flow == -edges[i].flow
  }

  /** No edge carries more than its capacity. */
  ghost predicate ResidualsNonneg(edges: seq<Edge>)
  {
    forall i :: 0 <= i < |edges| ==> Residual(edges[i]) >= 0.0
  }

  /** Edge.addFlow(x) on edge `e`: its flow rises by x, its twin's falls by x, nothing else changes. */
  function Push(edges: seq<Edge>, e: nat, x: real): (r: seq<Edge>)
    requires e < |edges| && edges[e].reverse < |edges|
    ensures SameShapes(edges, r)
    ensures edges[e].reverse != e ==>
      r[e].flow == edges[e].flow + x && r[edges[e].reverse].flow == edges[edges[e].reverse].flow - x
    ensures forall i :: 0 <= i < |edges| && i != e && i != edges[e].reverse ==> r[i] == edges[i]
  {
    var t := edges[e].reverse;
    var r := edges[e := edges[e].(flow := edges[e].flow + x)];
    r[t := r[t].(flow := r[t].flow - x)]
  }

  /** A push keeps the twins' flows summing to zero. */
  lemma PushKeepsFlowsCancel(edges: seq<Edge>, e: nat, x: real)
    requires Twinned(edges) && FlowsCancel(edges) && e < |edges| && edges[e].reverse < |edges|
    ensures FlowsCancel(Push(edges, e, x))
  {
    var r := Push(edges, e, x);
    var t := edges[e].reverse;
    assert TwinAt(edges, e);
    forall i | 0 <= i < |r| && r[i].reverse < |r|
      ensures r[r[i].reverse].flow == -r[i].flow
    {
      assert TwinAt(edges, i);
      if i != e && i != t {
        var u := edges[i].reverse;
        assert TwinAt(edges, u);
        assert u != e && u != t;
      }
    }
  }

  /** Pushing x on an edge and then x on its twin restores every flow. */
  lemma PushThenTwinPushRestores(edges: seq<Edge>, e: nat, x: real)
    requires Twinned(edges) && e < |edges| && edges[e].reverse < |edges|
    ensures edges[edges[e].reverse].reverse == e
    ensures Push(Push(edges, e, x), edges[e].reverse, x) == edges
  {
    assert TwinAt(edges, e);
    var t := edges[e].reverse;
    var once := Push(edges, e, x);
    var twice := Push(once, t, x);
    assert once[t].reverse == e;
    forall i | 0 <= i < |edges| ensures twice[i] == edges[i] {
      if i == e || i == t {
        assert twice[i].flow == edges[i].flow;
      }
    }
  }

  /** For a capacity-0 twin whose flow is the negation of its partner's, the residual capacity is the partner's flow. */
  lemma ReverseResidualIsForwardFlow(edges: seq<Edge>, i: nat)
    requires FlowsCancel(edges) && i < |edges| && edges[i].reverse < |edges|
    requires edges[edges[i].reverse].capacity == 0.0
    ensures Residual(edges[edges[i].reverse]) == edges[i].flow
  {
  }

  /** Pushing no more than an edge's residual capacity keeps every residual capacity non-negative. */
  lemma PushKeepsResidualsNonneg(edges: seq<Edge>, e: nat, x: real)
    requires Twinned(edges) && ResidualsNonneg(edges) && e < |edges| && edges[e].reverse < |edges|
    requires 0.0 <= x <= Residual(edges[e])
    ensures ResidualsNonneg(Push(edges, e, x))
  {
    assert TwinAt(edges, e);
    var r := Push(edges, e, x);
    forall i | 0 <= i < |r| ensures Residual(r[i]) >= 0.0 {
      if i == e || i == edges[e].reverse {
        assert Residual(edges[i]) >= 0.0;
      }
    }
  }

  /** Together the two invariants pin a forward edge (one whose twin has capacity 0) between 0 and its capacity. */
  lemma ForwardFlowWithinCapacity(edges: seq<Edge>, i: nat)
    requires Twinned(edges) && FlowsCancel(edges) && ResidualsNonneg(edges)
    requires i < |edges| && edges[i].reverse < |edges|
    requires edges[edges[i].reverse].capacity == 0.0
    ensures 0.0 <= edges[i].flow <= edges[i].capacity
  {
    assert TwinAt(edges, i);
    assert Residual(edges[edges[i].reverse]) >= 0.0;
  }

  /** Every index on `path` names an edge whose twin is in the arena. */
  ghost predicate OnArena(edges: seq<Edge>, path: seq<nat>)
  {
    forall k :: 0 <= k < |path| ==> path[k] < |edges| && edges[path[k]].reverse < |edges|
  }

  /** The augmentation step: push `x` on each edge of `path`, in order. */
  function PushAlong(edges: seq<Edge>, path: seq<nat>, x: real): (r: seq<Edge>)
    requires OnArena(edges, path)
    ensures SameShapes(edges, r)
    decreases |path|
  {
    if path == [] then edges
    else
      var before := PushAlong(edges, path[..|path| - 1], x);
      Push(before, path[|path| - 1], x)
  }

  lemma {:induction false} PushAlongKeepsFlowsCancel(edges: seq<Edge>, path: seq<nat>, x: real)
    requires Twinned(edges) && FlowsCancel(edges) && OnArena(edges, path)
    ensures FlowsCancel(PushAlong(edges, path, x))
    decreases |path|
  {
    if path != [] {
      var before := PushAlong(edges, path[..|path| - 1], x);
      PushAlongKeepsFlowsCancel(edges, path[..|path| - 1], x);
      SameShapesKeepTwins(edges, before);
      PushKeepsFlowsCancel(before, path[|path| - 1], x);
    }
  }

  lemma SameShapesKeepTwins(a: seq<Edge>, b: seq<Edge>)
    requires SameShapes(a, b) && Twinned(a)
    ensures Twinned(b)
  {
    forall i | 0 <= i < |b| ensures TwinAt(b, i) {
      assert TwinAt(a, i);
    }
  }

  /** No edge of `path` occurs twice, and no edge of `path` is the twin of another. */
  ghost predicate TwinFree(edges: seq<Edge>, path: seq<nat>)
    requires OnArena(edges, path)
  {
    forall i, j :: 0 <= i < |path| && 0 <= j < |path| && i != j ==>
      path[i] != path[j] && edges[path[i]].reverse != path[j]
  }

  /** Edges that neither lie on the path nor twin one of its edges are left alone. */
  lemma {:induction false} PushAlongUntouched(edges: seq<Edge>, path: seq<nat>, x: real, i: nat)
    requires OnArena(edges, path) && i < |edges|
    requires forall k :: 0 <= k < |path| ==> path[k] != i && edges[path[k]].reverse != i
    ensures PushAlong(edges, path, x)[i] == edges[i]
    decreases |path|
  {
    if path != [] {
      PushAlongUntouched(edges, path[..|path| - 1], x, i);
    }
  }

  /** Augmenting by at most the bottleneck along a path that uses no edge twice
      (nor both twins) keeps every residual capacity non-negative. */
  lemma {:induction false} PushAlongKeepsResidualsNonneg(edges: seq<Edge>, path: seq<nat>, x: real)
    requires Twinned(edges) && ResidualsNonneg(edges) && OnArena(edges, path)
    requires TwinFree(edges, path)
    requires 0.0 <= x && forall k :: 0 <= k < |path| ==> x <= Residual(edges[path[k]])
    ensures ResidualsNonneg(PushAlong(edges, path, x))
    decreases |path|
  {
    if path != [] {
      var n := |path| - 1;
      var prefix := path[..n];
      assert TwinFree(edges, prefix);
      PushAlongKeepsResidualsNonneg(edges, prefix, x);
      var before := PushAlong(edges, prefix, x);
      SameShapesKeepTwins(edges, before);
      PushAlongUntouched(edges, prefix, x, path[n]);
      PushKeepsResidualsNonneg(before, path[n], x);
    }
  }

  /** Along a path that uses no edge twice (nor both twins), every edge of the
      path ends up carrying `x` more and its twin `x` less. */
  lemma {:induction false} PushAlongOnPath(edges: seq<Edge>, path: seq<nat>, x: real, k: nat)
    requires Twinned(edges) && OnArena(edges, path) && TwinFree(edges, path) && k < |path|
    ensures PushAlong(edges, path, x)[path[k]].flow == edges[path[k]].flow + x
    ensures PushAlong(edges, path, x)[edges[path[k]].reverse].flow == edges[edges[path[k]].reverse].flow - x
    decreases |path|
  {
    var n := |path| - 1;
    var before := PushAlong(edges, path[..n], x);
    assert TwinFree(edges, path[..n]);
    if k == n {
      LastUntouched(edges, path, x);
    } else {
      PushAlongOnPath(edges, path[..n], x, k);
      PastLast(edges, path, k);
    }
    assert TwinAt(edges, path[n]);
    assert SameShape(edges[path[n]], before[path[n]]);
  }

  /** The pushes before the last edge of a twin-free path leave that edge and its twin alone. */
  lemma LastUntouched(edges: seq<Edge>, path: seq<nat>, x: real)
    requires Twinned(edges) && OnArena(edges, path) && TwinFree(edges, path) && path != []
    ensures var n := |path| - 1;
      PushAlong(edges, path[..n], x)[path[n]] == edges[path[n]]
      && PushAlong(edges, path[..n], x)[edges[path[n]].reverse] == edges[edges[path[n]].reverse]
  {
    var n := |path| - 1;
    var prefix, e := path[..n], path[n];
    var t := edges[e].reverse;
    assert TwinAt(edges, e);
    forall j | 0 <= j < |prefix| ensures prefix[j] != e && edges[prefix[j]].reverse != e {
      assert path[j] != path[n];
    }
    forall j | 0 <= j < |prefix| ensures prefix[j] != t && edges[prefix[j]].reverse != t {
      assert TwinAt(edges, prefix[j]);
      assert edges[path[n]].reverse != path[j];
    }
    PushAlongUntouched(edges, prefix, x, e);
    PushAlongUntouched(edges, prefix, x, t);
  }

  /** An earlier edge of a twin-free path, and its twin, are neither the last edge nor its twin. */
  lemma PastLast(edges: seq<Edge>, path: seq<nat>, k: nat)
    requires Twinned(edges) && OnArena(edges, path) && TwinFree(edges, path) && k < |path| - 1
    ensures var e, u := path[|path| - 1], edges[path[k]].reverse;
      path[k] != e && path[k] != edges[e].reverse && u != e && u != edges[e].reverse
  {
    var n := |path| - 1;
    assert path[k] != path[n] && edges[path[n]].reverse != path[k] && edges[path[k]].reverse != path[n];
    assert TwinAt(edges, path[k]);
    assert TwinAt(edges, path[n]);
  }

  /** The flow leaving node `v` over the arena's edges; a reverse edge's
      negative flow counts as flow coming in. */
  function NetOut(edges: seq<Edge>, v: nat): real
    decreases |edges|
  {
    if edges == [] then 0.0
    else NetOut(edges[..|edges| - 1], v) + (if edges[|edges| - 1].source == v then edges[|edges| - 1].flow else 0.0)
  }

  /** Changing the flow of one edge changes the outflow of its source by the same amount. */
  lemma {:induction false} NetOutUpdate(edges: seq<Edge>, i: nat, f: real, v: nat)
    requires i < |edges|
    ensures NetOut(edges[i := edges[i].(flow := f)], v)
            == NetOut(edges, v) + (if edges[i].source == v then f - edges[i].flow else 0.0)
    decreases |edges|
  {
    var r := edges[i := edges[i].(flow := f)];
    var n := |edges| - 1;
    if i == n {
      assert r[..n] == edges[..n];
    } else {
      assert r[..n] == edges[..n][i := edges[i].(flow := f)];
      NetOutUpdate(edges[..n], i, f, v);
    }
  }

  /** Pushing `x` on an edge moves `x` out of its source and into its destination. */
  lemma PushNetOut(edges: seq<Edge>, e: nat, x: real, v: nat)
    requires Twinned(edges) && e < |edges|
    ensures edges[e].reverse < |edges|
    ensures NetOut(Push(edges, e, x), v) == NetOut(edges, v)
            + (if edges[e].source == v then x else 0.0) - (if edges[e].dest == v then x else 0.0)
  {
    assert TwinAt(edges, e);
    var t := edges[e].reverse;
    var once := edges[e := edges[e].(flow := edges[e].flow + x)];
    NetOutUpdate(edges, e, edges[e].flow + x, v);
    NetOutUpdate(once, t, once[t].flow - x, v);
  }

  /** What pushing `x` along `path` does to the outflow of `v`: `x` out for
      every edge leaving `v`, `x` in for every edge entering it. */
  function PathShift(edges: seq<Edge>, path: seq<nat>, x: real, v: nat): real
    requires OnArena(edges, path)
    decreases |path|
  {
    if path == [] then 0.0
    else
      var e := path[|path| - 1];
      PathShift(edges, path[..|path| - 1], x, v)
      + (if edges[e].source == v then x else 0.0) - (if edges[e].dest == v then x else 0.0)
  }

  /** The outflow of every node after an augmentation is its old outflow plus its shift. */
  lemma {:induction false} PushAlongNetOut(edges: seq<Edge>, path: seq<nat>, x: real, v: nat)
    requires Twinned(edges) && OnArena(edges, path)
    ensures NetOut(PushAlong(edges, path, x), v) == NetOut(edges, v) + PathShift(edges, path, x, v)
    decreases |path|
  {
    if path != [] {
      var n := |path| - 1;
      var before := PushAlong(edges, path[..n], x);
      PushAlongNetOut(edges, path[..n], x, v);
      SameShapesKeepTwins(edges, before);
      assert SameShape(edges[path[n]], before[path[n]]);
      PushNetOut(before, path[n], x, v);
    }
  }

  /** Along a chain of edges, each ending where the next starts, the shifts of
      the interior nodes cancel: only the first source loses and the last
      destination gains. */
  lemma {:induction false} ChainShift(edges: seq<Edge>, path: seq<nat>, x: real, v: nat)
    requires OnArena(edges, path) && path != []
    requires forall k :: 0 < k < |path| ==> edges[path[k]].source == edges[path[k - 1]].dest
    ensures PathShift(edges, path, x, v)
            == (if edges[path[0]].source == v then x else 0.0) - (if edges[path[|path| - 1]].dest == v then x else 0.0)
    decreases |path|
  {
    var n := |path| - 1;
    if n > 0 {
      var prefix := path[..n];
      ChainShift(edges, prefix, x, v);
      assert prefix[0] == path[0] && prefix[n - 1] == path[n - 1];
    } else {
      assert path[..n] == [];
    }
  }
}
