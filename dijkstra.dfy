/**
 * The path search of the successive-shortest-path solver: a Dijkstra over
 * the residual graph, without potentials, run from one source node. Only
 * edges with positive residual capacity are relaxed; a node is finalised the
 * first time it is polled and skipped when polled again.
 */
module Search {
  import opened JavaStrings
  import opened Edges
  import opened Graphs
  import opened Options

  /** A usable augmenting path from s to t in the arena: a non-empty chain of
      edges with positive residual capacity, each starting where the previous
      one ends, whose end nodes are pairwise distinct and never s. */
  ghost predicate IsAugmentingPath(edges: seq<Edge>, s: nat, t: nat, path: seq<nat>)
  {
    |path| > 0
    && (forall k :: 0 <= k < |path| ==> path[k] < |edges| && Residual(edges[path[k]]) > 0.0 && edges[path[k]].dest != s)
    && edges[path[0]].source == s
    && edges[path[|path| - 1]].dest == t
    && (forall k :: 0 < k < |path| ==> edges[path[k]].source == edges[path[k - 1]].dest)
    && (forall k, l :: 0 <= k < l < |path| ==> edges[path[k]].dest != edges[path[l]].dest)
  }

  /** The node indices 0 .. n-1. */
  function Below(n: nat): (r: set<nat>)
    ensures forall v: int :: v in r <==> 0 <= v < n
    ensures |r| == n
  {
    if n == 0 then {} else Below(n - 1) + {n - 1}
  }

  /** Every set of nodes below n that misses one of them has fewer than n members. */
  lemma BelowMissing(done: set<nat>, u: nat, n: nat)
    requires done <= Below(n) && u < n && u !in done
    ensures |done| + 1 <= n
  {
    var more := done + {u};
    assert Below(n) == more + (Below(n) - more);
  }

  /** PriorityQueue.poll, abstracted: a queued node of least distance (the lowest index among equals). */
  method PollLeast(queue: set<nat>, distance: array<real>) returns (u: nat)
    requires queue != {}
    requires forall q :: q in queue ==> q < distance.Length
    ensures u in queue
    ensures forall q :: q in queue ==> distance[u] <= distance[q]
    ensures forall q :: q in queue && distance[q] == distance[u] ==> u <= q
  {
    var found := false;
    var i := 0;
    u := 0;
    while i < distance.Length
      invariant 0 <= i <= distance.Length
      invariant found <==> exists q :: q in queue && q < i
      invariant found ==> u in queue && u < i
      invariant found ==> forall q :: q in queue && q < i ==> distance[u] <= distance[q]
      invariant found ==> forall q :: q in queue && q < i && distance[q] == distance[u] ==> u <= q
    {
      if i in queue && (!found || distance[i] < distance[u]) {
        u := i;
        found := true;
      }
      i := i + 1;
    }
  }

  /** The largest edge cost of the arena, or 0 when no cost is positive. */
  function MaxCost(edges: seq<Edge>): (m: real)
    ensures 0.0 <= m
    ensures forall e :: 0 <= e < |edges| ==> edges[e].cost <= m
    ensures m == 0.0 || exists e :: 0 <= e < |edges| && edges[e].cost == m
    decreases |edges|
  {
    if edges == [] then 0.0
    else
      var n := |edges| - 1;
      var m := MaxCost(edges[..n]);
      assert forall e :: 0 <= e < n ==> edges[..n][e] == edges[e];
      if edges[n].cost > m then edges[n].cost else m
  }

  /** k times m, as k copies of m added up. */
  function Times(k: nat, m: real): real
  {
    if k == 0 then 0.0 else Times(k - 1, m) + m
  }

  lemma {:induction false} TimesMono(a: nat, b: nat, m: real)
    requires a <= b && 0.0 <= m
    ensures Times(a, m) <= Times(b, m)
    decreases b
  {
    if a < b {
      TimesMono(a, b - 1, m);
    }
  }

  /** The costs are small enough for n nodes: n times any edge cost stays
      below Double.MAX_VALUE, so no distance along a walk of n edges reaches
      the "unreached" mark. */
  ghost predicate Tame(edges: seq<Edge>, n: nat)
  {
    forall e :: 0 <= e < |edges| ==> Times(n, edges[e].cost) < MAX_DOUBLE
  }

  lemma TameBound(edges: seq<Edge>, n: nat)
    requires Tame(edges, n)
    ensures Times(n, MaxCost(edges)) < MAX_DOUBLE
  {
    if MaxCost(edges) != 0.0 {
      var e :| 0 <= e < |edges| && edges[e].cost == MaxCost(edges);
    }
  }

  /** Every usable edge has a positive cost. */
  ghost predicate PositiveCosts(edges: seq<Edge>)
  {
    forall e :: 0 <= e < |edges| && Residual(edges[e]) > 0.0 ==> edges[e].cost > 0.0
  }

  /** `walk` is a chain of usable edges from s to t, each starting where
      the previous one ends; the empty walk leads from a node to itself. */
  ghost predicate IsWalk(edges: seq<Edge>, s: nat, t: nat, walk: seq<nat>)
  {
    (forall k :: 0 <= k < |walk| ==> walk[k] < |edges| && Residual(edges[walk[k]]) > 0.0)
    && (walk == [] ==> s == t)
    && (walk != [] ==>
          edges[walk[0]].source == s && edges[walk[|walk| - 1]].dest == t
          && forall k :: 0 < k < |walk| ==> edges[walk[k]].source == edges[walk[k - 1]].dest)
  }

  /** Some chain of usable edges leads from s to t. */
  ghost predicate Reachable(edges: seq<Edge>, s: nat, t: nat)
  {
    exists walk :: IsWalk(edges, s, t, walk)
  }

  /** Every usable edge leaving a finalised node u brings its end node
      within u's distance at finalisation plus the edge's cost. */
  ghost predicate Closed(edges: seq<Edge>, dist: seq<real>, atVisit: map<nat, real>)
  {
    forall e :: 0 <= e < |edges| && Residual(edges[e]) > 0.0 && edges[e].source in atVisit && edges[e].dest < |dist|
      ==> dist[edges[e].dest] <= atVisit[edges[e].source] + edges[e].cost
  }

  /** No node was finalised at a distance above k times the largest cost. */
  ghost predicate Capped(edges: seq<Edge>, k: nat, atVisit: map<nat, real>)
  {
    forall u :: u in atVisit ==> atVisit[u] <= Times(k, MaxCost(edges))
  }

  lemma CappedExtend(edges: seq<Edge>, k: nat, atVisit: map<nat, real>, u: nat, du: real)
    requires Capped(edges, k, atVisit) && du <= Times(k, MaxCost(edges))
    ensures Capped(edges, k, atVisit[u := du])
  {
  }

  /** Finalising u at distance du keeps the finalised nodes closed, when
      distances only fell and every usable edge listed for u brings its end
      within du plus the edge's cost. */
  lemma ClosedAfterVisit(edges: seq<Edge>, adjacency: seq<seq<nat>>, before: seq<real>, after: seq<real>,
                         atVisit: map<nat, real>, u: nat, du: real)
    requires AdjacencyFits(adjacency, edges) && u < |adjacency| && |after| == |before|
    requires Closed(edges, before, atVisit)
    requires forall v :: 0 <= v < |after| ==> after[v] <= before[v]
    requires RelaxedUpTo(edges, adjacency[u], |adjacency[u]|, du, after)
    ensures Closed(edges, after, atVisit[u := du])
  {
    var visited := atVisit[u := du];
    forall e | 0 <= e < |edges| && Residual(edges[e]) > 0.0 && edges[e].source in visited && edges[e].dest < |after|
      ensures after[edges[e].dest] <= visited[edges[e].source] + edges[e].cost
    {
      if edges[e].source == u {
        OutEdgesMembers(edges, u);
        assert e in adjacency[u];
        var j :| 0 <= j < |adjacency[u]| && adjacency[u][j] == e;
        assert edges[adjacency[u][j]].dest < |after|;
      } else {
        assert after[edges[e].dest] <= before[edges[e].dest];
      }
    }
  }

  /** What the finished search leaves: every node with a distance below
      Double.MAX_VALUE was finalised, at the distance `atVisit` records,
      the finalised nodes are closed under usable edges, and their
      distances are capped. */
  ghost predicate Settled(edges: seq<Edge>, dist: seq<real>, atVisit: map<nat, real>)
  {
    |dist| > 0
    && (forall v :: 0 <= v < |dist| && dist[v] < MAX_DOUBLE ==> v in atVisit)
    && Closed(edges, dist, atVisit)
    && Capped(edges, |dist| - 1, atVisit)
  }

  /** What relaxation does to the distances, from `before` to `after`: none
      rises, every one that falls is queued, the queue only grows and holds
      reached nodes, and every reached distance stays within `cap`. */
  ghost predicate Lowered(before: seq<real>, after: seq<real>, queue0: set<nat>, queue: set<nat>, cap: real)
  {
    |after| == |before| && queue0 <= queue
    && (forall q :: q in queue ==> q < |after| && after[q] < MAX_DOUBLE)
    && (forall v :: 0 <= v < |after| ==> after[v] <= before[v])
    && (forall v :: 0 <= v < |after| && after[v] < before[v] ==> v in queue)
    && (forall v :: 0 <= v < |after| && after[v] < MAX_DOUBLE ==> after[v] <= cap)
  }

  lemma LoweredTrans(a: seq<real>, b: seq<real>, c: seq<real>, q0: set<nat>, q1: set<nat>, q2: set<nat>, cap: real)
    requires Lowered(a, b, q0, q1, cap) && Lowered(b, c, q1, q2, cap)
    ensures Lowered(a, c, q0, q2, cap)
  {
  }

  /** Every usable edge among the first k listed in `list` ends within du
      plus its cost, by the distances `dist`. */
  ghost predicate RelaxedUpTo(edges: seq<Edge>, list: seq<nat>, k: nat, du: real, dist: seq<real>)
  {
    forall j :: 0 <= j < k && j < |list| && list[j] < |edges| && Residual(edges[list[j]]) > 0.0 && edges[list[j]].dest < |dist|
      ==> dist[edges[list[j]].dest] <= du + edges[list[j]].cost
  }

  /** Relaxing the next listed edge extends RelaxedUpTo by one, as
      distances only fall. */
  lemma RelaxedUpToStep(edges: seq<Edge>, list: seq<nat>, k: nat, du: real, before: seq<real>, after: seq<real>)
    requires RelaxedUpTo(edges, list, k, du, before) && k < |list| && list[k] < |edges|
    requires |after| == |before| && forall v :: 0 <= v < |after| ==> after[v] <= before[v]
    requires Residual(edges[list[k]]) > 0.0 && edges[list[k]].dest < |after| ==> after[edges[list[k]].dest] <= du + edges[list[k]].cost
    ensures RelaxedUpTo(edges, list, k + 1, du, after)
  {
  }

  /** The search's bookkeeping, over snapshots of its state: the finalised
      nodes are exactly `done`, nodes below n marked in `visited`, listed
      once each in `order` and recorded in `atVisit`. */
  ghost predicate Marks(n: nat, visited: seq<bool>, order: seq<nat>, atVisit: map<nat, real>, done: set<nat>)
  {
    |visited| == n && done <= Below(n)
    && (forall v :: v in done <==> v in order)
    && (forall v :: v in atVisit <==> v in done)
    && (forall v :: 0 <= v < n ==> (visited[v] <==> v in done))
    && (forall k, l :: 0 <= k < l < |order| ==> order[k] != order[l])
  }

  /** The search's distances, over snapshots of its state: queued nodes are
      reached; every reached node is finalised or queued; reached distances
      are at most |done| times the largest cost; and the finalised nodes
      are closed and capped. */
  ghost predicate Reach(edges: seq<Edge>, dist: seq<real>, atVisit: map<nat, real>, done: set<nat>, queue: set<nat>)
  {
    |dist| > 0
    && (forall q :: q in queue ==> q < |dist| && dist[q] < MAX_DOUBLE)
    && (forall v :: 0 <= v < |dist| && dist[v] < MAX_DOUBLE ==> v in done || v in queue)
    && (forall v :: 0 <= v < |dist| && dist[v] < MAX_DOUBLE ==> dist[v] <= Times(|done|, MaxCost(edges)))
    && Closed(edges, dist, atVisit)
    && Capped(edges, |dist| - 1, atVisit)
  }

  /** The search's loop invariant: its bookkeeping and its distances. */
  ghost predicate Frontier(edges: seq<Edge>, dist: seq<real>, visited: seq<bool>, order: seq<nat>,
                           atVisit: map<nat, real>, done: set<nat>, queue: set<nat>)
  {
    Marks(|dist|, visited, order, atVisit, done) && Reach(edges, dist, atVisit, done, queue)
  }

  /** Before the first poll only the source is reached, at distance 0. */
  lemma FrontierStart(edges: seq<Edge>, dist: seq<real>, visited: seq<bool>, s: nat)
    requires s < |dist| && |visited| == |dist| && dist[s] == 0.0
    requires forall v :: 0 <= v < |dist| && v != s ==> dist[v] == MAX_DOUBLE
    requires forall v :: 0 <= v < |visited| ==> !visited[v]
    ensures Frontier(edges, dist, visited, [], map[], {}, {s})
  {
  }

  /** Once the queue runs dry every reached node is finalised. */
  lemma FrontierDone(edges: seq<Edge>, dist: seq<real>, visited: seq<bool>, order: seq<nat>,
                     atVisit: map<nat, real>, done: set<nat>)
    requires Frontier(edges, dist, visited, order, atVisit, done, {})
    ensures forall k, l :: 0 <= k < l < |order| ==> order[k] != order[l]
    ensures forall v :: 0 <= v < |visited| ==> (visited[v] <==> v in order)
    ensures forall v :: v in atVisit <==> v in order
    ensures Settled(edges, dist, atVisit)
  {
  }

  /** Polling a node that was already finalised keeps the invariant. */
  lemma FrontierSkip(edges: seq<Edge>, dist: seq<real>, visited: seq<bool>, order: seq<nat>,
                     atVisit: map<nat, real>, done: set<nat>, queue: set<nat>, u: nat)
    requires Frontier(edges, dist, visited, order, atVisit, done, queue) && u in done
    ensures Frontier(edges, dist, visited, order, atVisit, done, queue - {u})
  {
  }

  /** Finalising a node outside `done` keeps the bookkeeping. */
  lemma MarksStep(n: nat, visited: seq<bool>, order: seq<nat>, atVisit: map<nat, real>, done: set<nat>, u: nat, du: real)
    requires Marks(n, visited, order, atVisit, done) && u < n && u !in done
    ensures Marks(n, visited[u := true], order + [u], atVisit[u := du], done + {u})
    ensures |done + {u}| == |done| + 1 <= n
  {
    BelowMissing(done, u, n);
    OrderStep(order, done, u);
  }

  /** Appending a node outside `done` to an order listing `done` once each. */
  lemma OrderStep(order: seq<nat>, done: set<nat>, u: nat)
    requires forall v :: v in done <==> v in order
    requires forall k, l :: 0 <= k < l < |order| ==> order[k] != order[l]
    requires u !in done
    ensures forall v :: v in done + {u} <==> v in order + [u]
    ensures forall k, l :: 0 <= k < l < |order + [u]| ==> (order + [u])[k] != (order + [u])[l]
  {
    var order' := order + [u];
    forall v ensures v in done + {u} <==> v in order' {
      assert v in order' <==> v in order || v == u;
    }
    forall k, l | 0 <= k < l < |order'| ensures order'[k] != order'[l] {
      if l == |order| {
        assert order'[k] == order[k] && order[k] in done;
      }
    }
  }

  /** After the relaxation every reached node is finalised or queued. */
  lemma PendingStep(before: seq<real>, after: seq<real>, done: set<nat>, polled: set<nat>, u: nat, queue: set<nat>)
    requires |after| == |before| && polled - {u} <= queue
    requires forall v :: 0 <= v < |before| && before[v] < MAX_DOUBLE ==> v in done || v in polled
    requires forall v :: 0 <= v < |after| ==> after[v] <= before[v]
    requires forall v :: 0 <= v < |after| && after[v] < before[v] ==> v in queue
    ensures forall v :: 0 <= v < |after| && after[v] < MAX_DOUBLE ==> v in done + {u} || v in queue
  {
    forall v | 0 <= v < |after| && after[v] < MAX_DOUBLE ensures v in done + {u} || v in queue {
      if after[v] == before[v] {
        assert v in done || v in polled;
      }
    }
  }

  /** Finalising u at its distance and relaxing the edges it lists keeps
      the distance half of the invariant: `before`/`after` are the
      distances around the relaxation, which started from the polled queue
      without u, queued every improved node, only lowered distances, kept
      them within |done| + 1 times the largest cost and brought the end of
      each usable edge of u within u's distance plus the edge's cost. */
  lemma ReachStep(edges: seq<Edge>, adjacency: seq<seq<nat>>, before: seq<real>, after: seq<real>,
                  atVisit: map<nat, real>, done: set<nat>, polled: set<nat>, u: nat, queue: set<nat>)
    requires Reach(edges, before, atVisit, done, polled) && u in polled && u !in done && |done| + 1 <= |before|
    requires AdjacencyFits(adjacency, edges) && |adjacency| == |before|
    requires Lowered(before, after, polled - {u}, queue, Times(|done| + 1, MaxCost(edges)))
    requires RelaxedUpTo(edges, adjacency[u], |adjacency[u]|, before[u], after)
    ensures Reach(edges, after, atVisit[u := before[u]], done + {u}, queue)
  {
    var n, m := |before|, MaxCost(edges);
    TimesMono(|done|, n - 1, m);
    CappedExtend(edges, n - 1, atVisit, u, before[u]);
    ClosedAfterVisit(edges, adjacency, before, after, atVisit, u, before[u]);
    PendingStep(before, after, done, polled, u, queue);
    assert |done + {u}| == |done| + 1;
  }

  /** After a settled search from s, the end of every walk from s has a
      distance below Double.MAX_VALUE. */
  lemma {:induction false} ReachedAlong(edges: seq<Edge>, dist: seq<real>, atVisit: map<nat, real>, s: nat, t: nat, walk: seq<nat>)
    requires Settled(edges, dist, atVisit) && Tame(edges, |dist|)
    requires forall e :: 0 <= e < |edges| ==> edges[e].dest < |dist|
    requires s < |dist| && dist[s] < MAX_DOUBLE
    requires IsWalk(edges, s, t, walk)
    ensures t < |dist| && dist[t] < MAX_DOUBLE
    decreases |walk|
  {
    if walk != [] {
      var n := |walk| - 1;
      var e := walk[n];
      var mid := edges[e].source;
      var prefix := walk[..n];
      assert forall k :: 0 <= k < n ==> prefix[k] == walk[k];
      assert IsWalk(edges, s, mid, prefix);
      ReachedAlong(edges, dist, atVisit, s, mid, prefix);
      var m := MaxCost(edges);
      TameBound(edges, |dist|);
      assert dist[t] <= atVisit[mid] + edges[e].cost;
    }
  }

  /** After a settled search from s, a node left at Double.MAX_VALUE is
      not reachable from s at all. */
  lemma Unreachable(edges: seq<Edge>, dist: seq<real>, atVisit: map<nat, real>, s: nat, t: nat)
    requires Settled(edges, dist, atVisit) && Tame(edges, |dist|)
    requires forall e :: 0 <= e < |edges| ==> edges[e].dest < |dist|
    requires s < |dist| && dist[s] < MAX_DOUBLE
    requires t < |dist| && dist[t] == MAX_DOUBLE
    ensures !Reachable(edges, s, t)
  {
    if Reachable(edges, s, t) {
      var walk :| IsWalk(edges, s, t, walk);
      ReachedAlong(edges, dist, atVisit, s, t, walk);
    }
  }

  /** The node k predecessor links back from v, or -1 once a link leaves the nodes. */
  function Back(prev: seq<int>, v: nat, k: nat): int
  {
    if k == 0 then v
    else
      var u := Back(prev, v, k - 1);
      if 0 <= u < |prev| then prev[u] else -1
  }

  /** The predecessor chain from t comes back to a node it already passed,
      and none of the nodes it passes up to there is s. */
  ghost predicate Cycles(prev: seq<int>, s: nat, t: nat)
  {
    exists i: nat, j: nat :: i < j && Back(prev, t, i) == Back(prev, t, j)
      && forall k: nat :: k <= j ==> 0 <= Back(prev, t, k) < |prev| && Back(prev, t, k) != s
  }

  /** The first n nodes of the predecessor chain from t are in range and
      not s, and `seen` holds only such nodes. */
  ghost predicate Traced(prev: seq<int>, s: nat, t: nat, n: nat, seen: set<nat>)
  {
    (forall k: nat :: k < n ==> 0 <= Back(prev, t, k) < |prev| && Back(prev, t, k) != s)
    && (forall x :: x in seen ==> exists k: nat :: k < n && Back(prev, t, k) == x)
  }

  /** One more step along the chain, from a node in range that is not s. */
  lemma TracedStep(prev: seq<int>, s: nat, t: nat, n: nat, seen: set<nat>)
    requires Traced(prev, s, t, n, seen)
    requires 0 <= Back(prev, t, n) < |prev| && Back(prev, t, n) != s
    ensures Traced(prev, s, t, n + 1, seen + {Back(prev, t, n)})
    ensures Back(prev, t, n + 1) == prev[Back(prev, t, n)]
  {
    forall x | x in seen + {Back(prev, t, n)} ensures exists k: nat :: k < n + 1 && Back(prev, t, k) == x {
      if x != Back(prev, t, n) {
        var k: nat :| k < n && Back(prev, t, k) == x;
      }
    }
  }

  /** Meeting a node already seen, before s, closes a cycle. */
  lemma TracedCycle(prev: seq<int>, s: nat, t: nat, n: nat, seen: set<nat>)
    requires Traced(prev, s, t, n, seen)
    requires 0 <= Back(prev, t, n) < |prev| && Back(prev, t, n) != s && Back(prev, t, n) in seen
    ensures Cycles(prev, s, t)
  {
    var i: nat :| i < n && Back(prev, t, i) == Back(prev, t, n);
    assert forall k: nat :: k <= n ==> 0 <= Back(prev, t, k) < |prev| && Back(prev, t, k) != s;
    assert i < n && Back(prev, t, i) == Back(prev, t, n);
  }

  lemma {:induction false} BackShift(prev: seq<int>, t: nat, i: nat, j: nat, d: nat)
    requires Back(prev, t, i) == Back(prev, t, j)
    ensures Back(prev, t, i + d) == Back(prev, t, j + d)
    decreases d
  {
    if d > 0 {
      BackShift(prev, t, i, j, d - 1);
    }
  }

  /** A cycling predecessor chain never reaches s, however far it is
      followed: getShortestPathTo's walk from t would not end. */
  lemma CycleAvoidsSource(prev: seq<int>, s: nat, t: nat)
    requires Cycles(prev, s, t)
    ensures forall k: nat :: 0 <= Back(prev, t, k) < |prev| && Back(prev, t, k) != s
  {
    var i: nat, j: nat :| i < j && Back(prev, t, i) == Back(prev, t, j)
      && forall k: nat :: k <= j ==> 0 <= Back(prev, t, k) < |prev| && Back(prev, t, k) != s;
    forall k: nat ensures 0 <= Back(prev, t, k) < |prev| && Back(prev, t, k) != s {
      AvoidsAt(prev, s, t, i, j, k);
    }
  }

  lemma {:induction false} AvoidsAt(prev: seq<int>, s: nat, t: nat, i: nat, j: nat, k: nat)
    requires i < j && Back(prev, t, i) == Back(prev, t, j)
    requires forall k: nat :: k <= j ==> 0 <= Back(prev, t, k) < |prev| && Back(prev, t, k) != s
    ensures 0 <= Back(prev, t, k) < |prev| && Back(prev, t, k) != s
    decreases k
  {
    if k > j {
      BackShift(prev, t, i, j, k - j);
      AvoidsAt(prev, s, t, i, j, i + (k - j));
    }
  }

  /** Stepping back to a nearer node keeps every node passed further away. */
  lemma Closer(dist: seq<real>, seen: set<nat>, current: nat, p: nat)
    requires current < |dist| && p < |dist| && dist[p] < dist[current]
    requires forall x :: x in seen ==> x < |dist| && dist[current] < dist[x]
    ensures forall x :: x in seen + {current} ==> x < |dist| && dist[p] < dist[x]
  {
  }

  /** v's predecessor link: a node u that was reached and a usable edge from
      u into v, with v's distance at least u's plus the edge's cost. */
  ghost predicate LinkedAt(edges: seq<Edge>, dist: seq<real>, prev: seq<int>, prevEdge: seq<int>, v: nat)
    requires v < |dist| && |prev| == |dist| && |prevEdge| == |dist|
  {
    var u, e := prev[v], prevEdge[v];
    0 <= u < |dist| && 0 <= e < |edges|
    && edges[e].source == u && edges[e].dest == v
    && Residual(edges[e]) > 0.0 && dist[u] < MAX_DOUBLE
    && dist[u] + edges[e].cost <= dist[v]
  }

  /** What the search keeps true of its arrays: the source is at distance at
      most 0, no distance exceeds Double.MAX_VALUE, every reached node other
      than the source has a predecessor, and every predecessor link is usable. */
  ghost predicate Tree(edges: seq<Edge>, source: nat, dist: seq<real>, prev: seq<int>, prevEdge: seq<int>)
  {
    |prev| == |dist| && |prevEdge| == |dist| && source < |dist|
    && dist[source] <= 0.0
    && (forall v :: 0 <= v < |dist| ==> dist[v] <= MAX_DOUBLE)
    && (forall v :: 0 <= v < |dist| && dist[v] < MAX_DOUBLE && v != source ==> prev[v] >= 0)
    && (forall v :: 0 <= v < |dist| && prev[v] >= 0 ==> LinkedAt(edges, dist, prev, prevEdge, v))
  }

  /** The arrays as the constructor fills them: only the source is reached. */
  lemma Started(edges: seq<Edge>, source: nat, dist: seq<real>, prev: seq<int>, prevEdge: seq<int>)
    requires source < |dist| && |prev| == |dist| && |prevEdge| == |dist|
    requires forall v :: 0 <= v < |dist| ==> dist[v] == (if v == source then 0.0 else MAX_DOUBLE) && prev[v] == -1
    ensures Tree(edges, source, dist, prev, prevEdge)
  {
  }

  /** Relaxing a usable edge u -> v to u's distance plus its cost, when that
      is shorter than v's, keeps the tree. */
  lemma Relaxed(edges: seq<Edge>, source: nat, dist: seq<real>, prev: seq<int>, prevEdge: seq<int>, e: nat, newDist: real)
    requires Tree(edges, source, dist, prev, prevEdge)
    requires e < |edges| && edges[e].source < |dist| && edges[e].dest < |dist|
    requires dist[edges[e].source] < MAX_DOUBLE && Residual(edges[e]) > 0.0
    requires newDist == dist[edges[e].source] + edges[e].cost && newDist < dist[edges[e].dest]
    ensures Tree(edges, source, dist[edges[e].dest := newDist], prev[edges[e].dest := edges[e].source], prevEdge[edges[e].dest := e])
  {
    var u, v := edges[e].source, edges[e].dest;
    var d, p, pe := dist[v := newDist], prev[v := u], prevEdge[v := e];
    forall w | 0 <= w < |d| && p[w] >= 0 ensures LinkedAt(edges, d, p, pe, w) {
      if w != v {
        assert LinkedAt(edges, dist, prev, prevEdge, w);
      }
    }
  }

  class Dijkstra {
    const graph: Graph
    const source: nat
    const distance: array<real>
    /** previous[v]: the node before v on its best-known path, or -1. */
    const previous: array<int>
    /** previousEdge[v]: the arena index of the edge into v on that path, or -1 (Java's null). */
    const previousEdge: array<int>
    const visited: array<bool>
    /** The nodes in the order they were finalised. */
    ghost var order: seq<nat>
    /** The distance each finalised node had when it was finalised. */
    ghost var atVisit: map<nat, real>

    /** The arrays fit the graph and hold a predecessor tree over its usable edges. */
    ghost predicate Valid()
      reads graph, distance, previous, previousEdge
    {
      |graph.adjacency| == graph.nodeCount && AdjacencyFits(graph.adjacency, graph.edges)
      && distance.Length == graph.nodeCount && previous.Length == graph.nodeCount
      && previousEdge.Length == graph.nodeCount && visited.Length == graph.nodeCount
      && previous != previousEdge
      && Tree(graph.edges, source, distance[..], previous[..], previousEdge[..])
    }

    /** The Dijkstra constructor: fills the arrays by running the search.
        Every node left below Double.MAX_VALUE was finalised, and the
        search is settled over the usable edges. */
    constructor(graph: Graph, source: nat)
      requires graph.Valid() && source < graph.nodeCount
      ensures Valid() && this.graph == graph && this.source == source
      ensures fresh(distance) && fresh(previous) && fresh(previousEdge) && fresh(visited)
      ensures |order| > 0 && order[0] == source
      ensures forall k, l :: 0 <= k < l < |order| ==> order[k] != order[l]
      ensures forall v :: 0 <= v < visited.Length ==> (visited[v] <==> v in order)
      ensures forall v :: v in atVisit <==> v in order
      ensures Settled(graph.edges, distance[..], atVisit)
    {
      this.graph := graph;
      this.source := source;
      var n := graph.nodeCount;
      distance := new real[n](_ => MAX_DOUBLE);
      previous := new int[n](_ => -1);
      previousEdge := new int[n](_ => -1);
      visited := new bool[n](_ => false);
      order := [];
      atVisit := map[];
      new;
      distance[source] := 0.0;
      Started(graph.edges, source, distance[..], previous[..], previousEdge[..]);
      Explore();
    }

    /** The constructor's main loop: poll the nearest queued node, skip it
        if already finalised, otherwise finalise it and relax its edges.
        When the queue runs dry every node with a distance below
        Double.MAX_VALUE has been finalised. */
    method Explore()
      requires Valid() && order == [] && atVisit == map[] && distance[source] == 0.0
      requires forall v :: 0 <= v < distance.Length && v != source ==> distance[v] == MAX_DOUBLE
      requires forall v :: 0 <= v < visited.Length ==> !visited[v]
      modifies this, visited, distance, previous, previousEdge
      ensures Valid()
      ensures |order| > 0 && order[0] == source
      ensures forall k, l :: 0 <= k < l < |order| ==> order[k] != order[l]
      ensures forall v :: 0 <= v < visited.Length ==> (visited[v] <==> v in order)
      ensures forall v :: v in atVisit <==> v in order
      ensures Settled(graph.edges, distance[..], atVisit)
    {
      var n := graph.nodeCount;
      var queue: set<nat> := {source};
      ghost var done: set<nat> := {};
      FrontierStart(graph.edges, distance[..], visited[..], source);
      while queue != {}
        invariant Valid()
        invariant Frontier(graph.edges, distance[..], visited[..], order, atVisit, done, queue)
        invariant done <= Below(n)
        invariant (|order| > 0 && order[0] == source) || (order == [] && queue == {source})
        decreases Below(n) - done, |queue|
      {
        var u := PollLeast(queue, distance);
        ghost var polled := queue;
        queue := queue - {u};
        if !visited[u] {
          queue := Visit(u, queue, done, polled);
          done := done + {u};
        } else {
          FrontierSkip(graph.edges, distance[..], visited[..], order, atVisit, done, polled, u);
        }
      }
      FrontierDone(graph.edges, distance[..], visited[..], order, atVisit, done);
    }

    /** Finalise u, then relax the edges leaving it. */
    method Visit(u: nat, rest: set<nat>, ghost done: set<nat>, ghost polled: set<nat>) returns (queue': set<nat>)
      requires Valid() && u < visited.Length && !visited[u]
      requires Frontier(graph.edges, distance[..], visited[..], order, atVisit, done, polled) && u in polled && rest == polled - {u}
      modifies this, visited, distance, previous, previousEdge
      ensures Valid() && order == old(order) + [u] && atVisit == old(atVisit)[u := old(distance[u])]
      ensures Frontier(graph.edges, distance[..], visited[..], order, atVisit, done + {u}, queue')
    {
      ghost var before, visited0, order0, atVisit0 := distance[..], visited[..], order, atVisit;
      ghost var m := MaxCost(graph.edges);
      assert distance[u] < MAX_DOUBLE && distance[u] <= Times(|done|, m);
      TimesMono(|done|, |done| + 1, m);
      visited[u] := true;
      order := order + [u];
      atVisit := atVisit[u := distance[u]];
      assert Lowered(distance[..], distance[..], rest, rest, Times(|done| + 1, m));
      queue' := RelaxFrom(u, rest, Times(|done| + 1, m));
      MarksStep(|before|, visited0, order0, atVisit0, done, u, before[u]);
      ReachStep(graph.edges, graph.adjacency, before, distance[..], atVisit0, done, polled, u, queue');
      assert visited[..] == visited0[u := true];
    }

    /** The inner loop: relax every usable edge leaving u. Improved nodes
        are queued, and every usable edge leaving u brings its end node
        within u's distance plus the edge's cost. */
    method RelaxFrom(u: nat, queue: set<nat>, ghost cap: real) returns (queue': set<nat>)
      requires Valid() && u < distance.Length && distance[u] < MAX_DOUBLE
      requires distance[u] + MaxCost(graph.edges) <= cap
      requires Lowered(distance[..], distance[..], queue, queue, cap)
      modifies distance, previous, previousEdge
      ensures Valid()
      ensures Lowered(old(distance[..]), distance[..], queue, queue', cap)
      ensures RelaxedUpTo(graph.edges, graph.adjacency[u], |graph.adjacency[u]|, old(distance[u]), distance[..])
    {
      queue' := queue;
      var adj := graph.adjacency[u];
      var k := 0;
      while k < |adj|
        invariant 0 <= k <= |adj|
        invariant Valid() && distance[u] <= old(distance[u])
        invariant Lowered(old(distance[..]), distance[..], queue, queue', cap)
        invariant RelaxedUpTo(graph.edges, adj, k, old(distance[u]), distance[..])
      {
        ghost var mid, queue1 := distance[..], queue';
        queue' := Relax(u, adj[k], queue', cap);
        LoweredTrans(old(distance[..]), mid, distance[..], queue, queue1, queue', cap);
        RelaxedUpToStep(graph.edges, adj, k, old(distance[u]), mid, distance[..]);
        k := k + 1;
      }
    }

    /** One pass of the inner loop: a usable edge u -> v whose end is
        improved by going through u gets u and the edge as v's predecessor
        link, and v is queued again. */
    method Relax(u: nat, e: nat, queue: set<nat>, ghost cap: real) returns (queue': set<nat>)
      requires Valid() && u < distance.Length && distance[u] < MAX_DOUBLE
      requires e < |graph.edges| && graph.edges[e].source == u
      requires distance[u] + graph.edges[e].cost <= cap
      requires Lowered(distance[..], distance[..], queue, queue, cap)
      modifies distance, previous, previousEdge
      ensures Valid()
      ensures Lowered(old(distance[..]), distance[..], queue, queue', cap)
      ensures Residual(graph.edges[e]) > 0.0 ==> distance[graph.edges[e].dest] <= old(distance[u]) + graph.edges[e].cost
    {
      queue' := queue;
      var edge := graph.edges[e];
      if Residual(edge) > 0.0 {
        var v := edge.dest;
        var newDist := distance[u] + edge.cost;
        if newDist < distance[v] {
          Relaxed(graph.edges, source, distance[..], previous[..], previousEdge[..], e, newDist);
          ghost var d, p, pe := distance[..][v := newDist], previous[..][v := u], previousEdge[..][v := e];
          distance[v] := newDist;
          previous[v] := u;
          previousEdge[v] := e;
          assert distance[..] == d && previous[..] == p && previousEdge[..] == pe;
          queue' := queue' + {v};
        }
      }
    }

    /** getShortestPathTo: empty when the target was never reached, and
        then, with tame costs, no chain of usable edges leads to it;
        otherwise the walk back along the predecessor chain. */
    method GetShortestPathTo(target: nat) returns (path: Option<seq<nat>>)
      requires Valid() && target < distance.Length
      requires Settled(graph.edges, distance[..], atVisit)
      ensures distance[target] == MAX_DOUBLE || target == source ==> path == Some([])
      ensures path.Some? && path.value != [] ==> IsAugmentingPath(graph.edges, source, target, path.value)
      ensures path.Some? && path.value == [] ==> distance[target] == MAX_DOUBLE || target == source
      ensures path == Some([]) && target != source && Tame(graph.edges, distance.Length) ==> !Reachable(graph.edges, source, target)
      ensures path.None? ==> Cycles(previous[..], source, target)
      ensures PositiveCosts(graph.edges) ==> path.Some?
    {
      if distance[target] == MAX_DOUBLE {
        if target != source && Tame(graph.edges, distance.Length) {
          Unreachable(graph.edges, distance[..], atVisit, source, target);
        }
        return Some([]);
      }
      path := TraceBack(target);
    }

    /** The walk of getShortestPathTo from a reached target: prepend the
        predecessor edge until the source is met. The walk is empty for the
        source itself. None exactly where the program would loop forever:
        the chain comes back to a node it passed without meeting the
        source, which cannot happen when every usable edge has a positive
        cost. */
    method TraceBack(target: nat) returns (path: Option<seq<nat>>)
      requires Valid() && target < distance.Length && distance[target] < MAX_DOUBLE
      ensures target == source ==> path == Some([])
      ensures path.Some? && path.value != [] ==> IsAugmentingPath(graph.edges, source, target, path.value)
      ensures path.Some? && path.value == [] ==> target == source
      ensures path.None? ==> Cycles(previous[..], source, target)
      ensures PositiveCosts(graph.edges) ==> path.Some?
    {
      var current: nat := target;
      var walk: seq<nat> := [];
      var seen: set<nat> := {};
      while current != source
        invariant Walking(target, current, walk, seen)
        decreases Below(distance.Length) - seen
      {
        if current in seen {
          WalkingCycle(target, current, walk, seen);
          return None;
        }
        WalkingStep(target, current, walk, seen);
        walk := [previousEdge[current]] + walk;
        seen := seen + {current};
        current := previous[current];
      }
      WalkingDone(target, walk, seen);
      return Some(walk);
    }

    /** The walk's loop invariant: `walk` leads from `current` to the target
        along predecessor links, `current` is the |walk|-th node of the
        chain, and with positive costs every node passed lies further than
        `current`. */
    ghost predicate Walking(target: nat, current: nat, walk: seq<nat>, seen: set<nat>)
      reads this, graph, distance, previous, previousEdge
    {
      Valid() && target < distance.Length && current < distance.Length && distance[current] < MAX_DOUBLE
      && seen <= Below(distance.Length) && source !in seen
      && (walk == [] ==> current == target && seen == {})
      && (walk != [] ==> Chain(current, target, walk, seen))
      && current == Back(previous[..], target, |walk|)
      && Traced(previous[..], source, target, |walk|, seen)
      && (PositiveCosts(graph.edges) ==> forall x :: x in seen ==> x < distance.Length && distance[current] < distance[x])
    }

    lemma WalkingStep(target: nat, current: nat, walk: seq<nat>, seen: set<nat>)
      requires Walking(target, current, walk, seen) && current != source && current !in seen
      ensures previous[current] >= 0
      ensures Walking(target, previous[current], [previousEdge[current]] + walk, seen + {current})
    {
      assert LinkedAt(graph.edges, distance[..], previous[..], previousEdge[..], current);
      ChainExtends(current, target, walk, seen, previousEdge[current]);
      TracedStep(previous[..], source, target, |walk|, seen);
      if PositiveCosts(graph.edges) {
        assert graph.edges[previousEdge[current]].cost > 0.0;
        Closer(distance[..], seen, current, previous[current]);
      }
    }

    lemma WalkingCycle(target: nat, current: nat, walk: seq<nat>, seen: set<nat>)
      requires Walking(target, current, walk, seen) && current != source && current in seen
      ensures Cycles(previous[..], source, target) && !PositiveCosts(graph.edges)
    {
      TracedCycle(previous[..], source, target, |walk|, seen);
    }

    lemma WalkingDone(target: nat, walk: seq<nat>, seen: set<nat>)
      requires Walking(target, source, walk, seen)
      ensures walk == [] ==> target == source
      ensures walk != [] ==> IsAugmentingPath(graph.edges, source, target, walk)
    {
    }

    /** `walk` leads from `from` to `target` through usable edges whose end
        nodes are exactly the distinct nodes of `seen`, none of them the source. */
    ghost predicate Chain(from: nat, target: nat, walk: seq<nat>, seen: set<nat>)
      reads this, graph
    {
      |walk| > 0
      && (forall k :: 0 <= k < |walk| ==> walk[k] < |graph.edges| && Residual(graph.edges[walk[k]]) > 0.0)
      && graph.edges[walk[0]].source == from
      && graph.edges[walk[|walk| - 1]].dest == target
      && (forall k :: 0 < k < |walk| ==> graph.edges[walk[k]].source == graph.edges[walk[k - 1]].dest)
      && (forall k, l :: 0 <= k < l < |walk| ==> graph.edges[walk[k]].dest != graph.edges[walk[l]].dest)
      && (forall k :: 0 <= k < |walk| ==> graph.edges[walk[k]].dest in seen)
      && source !in seen
    }

    lemma ChainExtends(current: nat, target: nat, walk: seq<nat>, seen: set<nat>, e: int)
      requires Valid() && current < distance.Length && current != source && current !in seen
      requires previous[current] >= 0 && e == previousEdge[current]
      requires LinkedAt(graph.edges, distance[..], previous[..], previousEdge[..], current)
      requires source !in seen
      requires walk == [] ==> current == target && seen == {}
      requires walk != [] ==> Chain(current, target, walk, seen)
      ensures 0 <= e < |graph.edges|
      ensures Chain(previous[current], target, [e] + walk, seen + {current})
    {
      var w := [e] + walk;
      assert forall k :: 0 < k < |w| ==> w[k] == walk[k - 1];
    }
  }
}
