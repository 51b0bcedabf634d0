/**
 * The successive-shortest-path solver. Each round runs the path search from
 * the source, takes the least residual capacity along the path it finds,
 * caps it by the source's balance, pushes that much along the path, writes
 * the balances of the path's end nodes and logs one transaction per edge.
 *
 * Balances are overwritten rather than adjusted: after a round the source
 * holds minus the amount moved, so the next round finds no funds and stops.
 * A computation therefore augments along at most one path.
 */
module Flow {
  import opened JavaStrings
  import opened Edges
  import opened Graphs
  import opened Transactions
  import opened Options
  import opened Search
  import opened NodeTypes

  /** The minimum loop: Double.MAX_VALUE lowered to each residual capacity on the path. */
  method Bottleneck(edges: seq<Edge>, path: seq<nat>) returns (m: real)
    requires forall k :: 0 <= k < |path| ==> path[k] < |edges|
    ensures m <= MAX_DOUBLE
    ensures forall k :: 0 <= k < |path| ==> m <= Residual(edges[path[k]])
    ensures m == MAX_DOUBLE || exists k :: 0 <= k < |path| && m == Residual(edges[path[k]])
  {
    m := MAX_DOUBLE;
    var k := 0;
    while k < |path|
      invariant 0 <= k <= |path|
      invariant m <= MAX_DOUBLE
      invariant forall j :: 0 <= j < k ==> m <= Residual(edges[path[j]])
      invariant m == MAX_DOUBLE || exists j :: 0 <= j < k && m == Residual(edges[path[j]])
    {
      var r := Residual(edges[path[k]]);
      if r < m {
        m := r;
      }
      k := k + 1;
    }
  }

  /** Both end nodes of every edge on the path have an id. */
  ghost predicate Labelled(ids: map<nat, string>, edges: seq<Edge>, path: seq<nat>)
  {
    forall k :: 0 <= k < |path| ==> path[k] < |edges| && edges[path[k]].source in ids && edges[path[k]].dest in ids
  }

  /** The transactions one augmentation logs: one per edge of the path, in
      path order, each moving `amount` at the edge's unit cost. */
  function Ledger(ids: map<nat, string>, edges: seq<Edge>, path: seq<nat>, amount: real): (r: seq<TransactionRecord>)
    requires Labelled(ids, edges, path)
    ensures |r| == |path|
    decreases |path|
  {
    if path == [] then []
    else
      var e := edges[path[|path| - 1]];
      Ledger(ids, edges, path[..|path| - 1], amount) + [TransactionRecord(ids[e.source], ids[e.dest], amount, e.cost)]
  }

  /** Record k of the ledger names the ids of edge k's end nodes, the amount and the edge's unit cost. */
  lemma {:induction false} LedgerRecords(ids: map<nat, string>, edges: seq<Edge>, path: seq<nat>, amount: real)
    requires Labelled(ids, edges, path)
    ensures forall k :: 0 <= k < |path| ==>
      var r := Ledger(ids, edges, path, amount)[k];
      r.sourceNode == ids[edges[path[k]].source] && r.destNode == ids[edges[path[k]].dest]
      && r.amount == amount && r.cost == edges[path[k]].cost
    decreases |path|
  {
    if path != [] {
      var prefix := path[..|path| - 1];
      LedgerRecords(ids, edges, prefix, amount);
      var l := Ledger(ids, edges, path, amount);
      forall k | 0 <= k < |prefix| ensures l[k] == Ledger(ids, edges, prefix, amount)[k] && path[k] == prefix[k] {
      }
    }
  }

  /** The unit costs of the edges on a path, added up in order. */
  function PathCost(edges: seq<Edge>, path: seq<nat>): real
    requires forall k :: 0 <= k < |path| ==> path[k] < |edges|
  {
    if path == [] then 0.0 else PathCost(edges, path[..|path| - 1]) + edges[path[|path| - 1]].cost
  }

  /** The unit costs a ledger records are those of its path's edges. */
  lemma {:induction false} LedgerUnitCosts(ids: map<nat, string>, edges: seq<Edge>, path: seq<nat>, amount: real)
    requires Labelled(ids, edges, path)
    ensures SumOfUnitCosts(Ledger(ids, edges, path, amount)) == PathCost(edges, path)
    decreases |path|
  {
    if path != [] {
      var prefix := path[..|path| - 1];
      var l := Ledger(ids, edges, path, amount);
      assert l[..|l| - 1] == Ledger(ids, edges, prefix, amount);
      LedgerUnitCosts(ids, edges, prefix, amount);
    }
  }

  /** The cost an augmentation adds is the amount times the path's unit cost. */
  lemma LedgerCharge(ids: map<nat, string>, edges: seq<Edge>, path: seq<nat>, amount: real)
    requires Labelled(ids, edges, path)
    ensures TotalCharge(Ledger(ids, edges, path, amount)) == amount * PathCost(edges, path)
  {
    LedgerRecords(ids, edges, path, amount);
    TotalChargeOfUniformAmount(Ledger(ids, edges, path, amount), amount);
    LedgerUnitCosts(ids, edges, path, amount);
  }

  /** The balance updates of an augmentation: for each logged transaction
      the source's balance is set to minus the amount, then the
      destination's to the amount. */
  function Overwrite(balances: map<string, real>, ledger: seq<TransactionRecord>): (r: map<string, real>)
    ensures balances.Keys <= r.Keys
    ensures forall k :: 0 <= k < |ledger| ==> ledger[k].sourceNode in r && ledger[k].destNode in r
  {
    if ledger == [] then balances
    else
      var t := ledger[|ledger| - 1];
      Overwrite(balances, ledger[..|ledger| - 1])[t.sourceNode := -t.amount][t.destNode := t.amount]
  }

  /** A ledger written along a path: every record moves `amount`, each
      starts where the previous one ends, no node is entered twice and the
      first record's source is never entered. */
  ghost predicate Chained(ledger: seq<TransactionRecord>, amount: real)
  {
    |ledger| > 0
    && (forall k :: 0 <= k < |ledger| ==> ledger[k].amount == amount && ledger[k].destNode != ledger[0].sourceNode)
    && (forall k :: 0 < k < |ledger| ==> ledger[k].sourceNode == ledger[k - 1].destNode)
    && (forall k, l :: 0 <= k < l < |ledger| ==> ledger[k].destNode != ledger[l].destNode)
  }

  /** The ids a ledger writes. */
  ghost predicate Touches(ledger: seq<TransactionRecord>, id: string)
  {
    exists k :: 0 <= k < |ledger| && (ledger[k].sourceNode == id || ledger[k].destNode == id)
  }

  /** After overwriting along a chained ledger, every node the amount left
      holds minus the amount, the last node holds the amount, and every
      other balance is as it was. */
  lemma OverwriteAlongChain(balances: map<string, real>, ledger: seq<TransactionRecord>, amount: real)
    requires Chained(ledger, amount)
    ensures forall k :: 0 <= k < |ledger| ==> Overwrite(balances, ledger)[ledger[k].sourceNode] == -amount
    ensures Overwrite(balances, ledger)[ledger[|ledger| - 1].destNode] == amount
    ensures forall id :: id in balances && !Touches(ledger, id) ==> Overwrite(balances, ledger)[id] == balances[id]
  {
    forall k | 0 <= k < |ledger| ensures Overwrite(balances, ledger)[ledger[k].sourceNode] == -amount {
      OverwriteAtSource(balances, ledger, amount, k);
    }
    forall id | id in balances && !Touches(ledger, id) ensures Overwrite(balances, ledger)[id] == balances[id] {
      OverwriteUntouched(balances, ledger, id);
    }
    OverwriteStep(balances, ledger[..|ledger| - 1], ledger[|ledger| - 1]);
    assert ledger[..|ledger| - 1] + [ledger[|ledger| - 1]] == ledger;
  }

  /** The node record k leaves holds minus the amount at the end of a chained ledger. */
  lemma {:induction false} OverwriteAtSource(balances: map<string, real>, ledger: seq<TransactionRecord>, amount: real, k: nat)
    requires Chained(ledger, amount) && k < |ledger|
    ensures Overwrite(balances, ledger)[ledger[k].sourceNode] == -amount
    decreases |ledger|
  {
    var n := |ledger| - 1;
    var t := ledger[n];
    var prefix := ledger[..n];
    assert prefix + [t] == ledger;
    OverwriteStep(balances, prefix, t);
    var id := ledger[k].sourceNode;
    if k < n {
      assert Chained(prefix, amount);
      OverwriteAtSource(balances, prefix, amount, k);
      assert prefix[k] == ledger[k];
      // no later record enters a node the amount already left
      if k > 0 {
        assert id == ledger[k - 1].destNode;
      }
      assert id != t.destNode;
    } else if n > 0 {
      assert t.sourceNode == ledger[n - 1].destNode;
    }
  }

  /** A balance the ledger never names is left as it was. */
  lemma {:induction false} OverwriteUntouched(balances: map<string, real>, ledger: seq<TransactionRecord>, id: string)
    requires id in balances && !Touches(ledger, id)
    ensures Overwrite(balances, ledger)[id] == balances[id]
    decreases |ledger|
  {
    if ledger != [] {
      var n := |ledger| - 1;
      var prefix := ledger[..n];
      assert prefix + [ledger[n]] == ledger;
      OverwriteStep(balances, prefix, ledger[n]);
      forall k | 0 <= k < |prefix| ensures prefix[k].sourceNode != id && prefix[k].destNode != id {
        assert prefix[k] == ledger[k];
      }
      OverwriteUntouched(balances, prefix, id);
    }
  }

  /** Distinct node indices carry distinct ids. */
  lemma IdsInjective(toIndex: map<string, nat>, toId: map<nat, string>, count: nat, i: nat, j: nat)
    requires IdMaps(toIndex, toId, count) && i in toId && j in toId && i != j
    ensures toId[i] != toId[j]
  {
    assert toIndex[toId[i]] == i && toIndex[toId[j]] == j;
  }

  /** The ledger of an augmenting path is chained, starts at the source's id and ends at the sink's. */
  lemma LedgerOfPathIsChained(toIndex: map<string, nat>, ids: map<nat, string>, count: nat,
                              edges: seq<Edge>, s: nat, t: nat, path: seq<nat>, amount: real)
    requires IdMaps(toIndex, ids, count) && IsAugmentingPath(edges, s, t, path)
    requires s in ids && Labelled(ids, edges, path)
    ensures Chained(Ledger(ids, edges, path, amount), amount)
    ensures Ledger(ids, edges, path, amount)[0].sourceNode == ids[s]
    ensures Ledger(ids, edges, path, amount)[|path| - 1].destNode == ids[t]
  {
    var l := Ledger(ids, edges, path, amount);
    LedgerRecords(ids, edges, path, amount);
    forall k | 0 <= k < |l| ensures l[k].destNode != l[0].sourceNode {
      IdsInjective(toIndex, ids, count, edges[path[k]].dest, s);
    }
    forall k, m | 0 <= k < m < |l| ensures l[k].destNode != l[m].destNode {
      IdsInjective(toIndex, ids, count, edges[path[k]].dest, edges[path[m]].dest);
    }
  }

  /** An augmenting path in a twinned arena never uses an edge twice, nor both twins of a pair. */
  lemma AugmentingPathIsTwinFree(edges: seq<Edge>, s: nat, t: nat, path: seq<nat>)
    requires Twinned(edges) && IsAugmentingPath(edges, s, t, path)
    ensures OnArena(edges, path) && TwinFree(edges, path)
  {
    forall k | 0 <= k < |path| ensures edges[path[k]].reverse < |edges| {
      assert TwinAt(edges, path[k]);
    }
    forall i, j | 0 <= i < |path| && 0 <= j < |path| && i != j
      ensures path[i] != path[j] && edges[path[i]].reverse != path[j]
    {
      assert edges[path[i]].dest != edges[path[j]].dest;
      var r := edges[path[i]].reverse;
      assert TwinAt(edges, path[i]);
      if j == i - 1 {
        // path[j] ends where path[i] starts, but r starts where path[i] ends
        if j > 0 {
          assert edges[path[j]].source == edges[path[j - 1]].dest;
          assert edges[path[j - 1]].dest != edges[path[i]].dest;
        }
        assert edges[path[j]].source != edges[r].source;
      } else {
        // r ends where path[i] starts, which no other edge of the path than path[i - 1] does
        if i > 0 {
          assert edges[path[i]].source == edges[path[i - 1]].dest;
          assert edges[path[i - 1]].dest != edges[path[j]].dest;
        }
        assert edges[path[j]].dest != edges[r].dest;
      }
    }
  }

  /** Overwriting along a ledger with one more record applies that record's two writes last. */
  lemma OverwriteStep(balances: map<string, real>, ledger: seq<TransactionRecord>, t: TransactionRecord)
    ensures Overwrite(balances, ledger + [t]) == Overwrite(balances, ledger)[t.sourceNode := -t.amount][t.destNode := t.amount]
  {
    assert (ledger + [t])[..|ledger|] == ledger;
  }

  /** The record the augmentation logs for edge `e`. */
  function StepRecord(ids: map<nat, string>, edges: seq<Edge>, e: nat, amount: real): (r: TransactionRecord)
    requires e < |edges| && edges[e].source in ids && edges[e].dest in ids
    ensures r.amount == amount && r.cost == edges[e].cost
  {
    TransactionRecord(ids[edges[e].source], ids[edges[e].dest], amount, edges[e].cost)
  }

  /** Extending the augmented prefix by one edge: its ledger, charge and
      balance updates grow by that edge's record, and its push comes last. */
  lemma LedgerStep(ids: map<nat, string>, edges0: seq<Edge>, before: seq<Edge>, path: seq<nat>, k: nat, amount: real)
    requires k < |path| && Labelled(ids, edges0, path) && OnArena(edges0, path)
    requires before == PushAlong(edges0, path[..k], amount)
    ensures path[..k + 1][..k] == path[..k] && OnArena(edges0, path[..k + 1])
    ensures StepRecord(ids, before, path[k], amount) == StepRecord(ids, edges0, path[k], amount)
    ensures Ledger(ids, edges0, path[..k + 1], amount) == Ledger(ids, edges0, path[..k], amount) + [StepRecord(ids, edges0, path[k], amount)]
    ensures PushAlong(edges0, path[..k + 1], amount) == Push(before, path[k], amount)
    ensures TotalCharge(Ledger(ids, edges0, path[..k + 1], amount)) == TotalCharge(Ledger(ids, edges0, path[..k], amount)) + Charge(StepRecord(ids, edges0, path[k], amount))
  {
    assert path[..k + 1][..k] == path[..k];
    assert SameShape(edges0[path[k]], before[path[k]]);
    var l := Ledger(ids, edges0, path[..k + 1], amount);
    assert l[..|l| - 1] == Ledger(ids, edges0, path[..k], amount);
  }

  /** The state one augmentation along `path` leaves behind: the pushes, the
      log extended by the path's ledger, that ledger's charge added to the
      cost, and the balances overwritten along the ledger. */
  ghost predicate Augmented(ids: map<nat, string>, edges0: seq<Edge>, balances0: map<string, real>,
                            log0: seq<TransactionRecord>, cost0: real, path: seq<nat>, amount: real,
                            edges: seq<Edge>, balances: map<string, real>, log: seq<TransactionRecord>, cost: real)
    requires Labelled(ids, edges0, path) && OnArena(edges0, path)
  {
    edges == PushAlong(edges0, path, amount)
    && log == log0 + Ledger(ids, edges0, path, amount)
    && cost == cost0 + TotalCharge(Ledger(ids, edges0, path, amount))
    && balances == Overwrite(balances0, Ledger(ids, edges0, path, amount))
  }

  /** The state after the first `k` edges of the path have been augmented. */
  ghost predicate AugmentedUpTo(ids: map<nat, string>, edges0: seq<Edge>, balances0: map<string, real>,
                                log0: seq<TransactionRecord>, cost0: real, path: seq<nat>, amount: real, k: nat,
                                edges: seq<Edge>, balances: map<string, real>, log: seq<TransactionRecord>, cost: real)
    requires k <= |path| && Labelled(ids, edges0, path) && OnArena(edges0, path)
  {
    assert Labelled(ids, edges0, path[..k]) && OnArena(edges0, path[..k]);
    Augmented(ids, edges0, balances0, log0, cost0, path[..k], amount, edges, balances, log, cost)
  }

  /** One more edge: pushing on it, logging its record, charging it and
      overwriting its end nodes' balances extends the augmented prefix. */
  lemma AugmentedStep(ids: map<nat, string>, edges0: seq<Edge>, balances0: map<string, real>,
                      log0: seq<TransactionRecord>, cost0: real, path: seq<nat>, amount: real, k: nat,
                      edges: seq<Edge>, balances: map<string, real>, log: seq<TransactionRecord>, cost: real)
    requires k < |path| && Labelled(ids, edges0, path) && OnArena(edges0, path)
    requires AugmentedUpTo(ids, edges0, balances0, log0, cost0, path, amount, k, edges, balances, log, cost)
    ensures path[k] < |edges| && edges[path[k]].reverse < |edges|
    ensures edges[path[k]].source in ids && edges[path[k]].dest in ids
    ensures var r := StepRecord(ids, edges, path[k], amount);
      AugmentedUpTo(ids, edges0, balances0, log0, cost0, path, amount, k + 1,
                    Push(edges, path[k], amount), balances[r.sourceNode := -amount][r.destNode := amount], log + [r], cost + Charge(r))
  {
    LedgerStep(ids, edges0, edges, path, k, amount);
    var prefix := Ledger(ids, edges0, path[..k], amount);
    var r := StepRecord(ids, edges0, path[k], amount);
    OverwriteStep(balances0, prefix, r);
    assert log0 + prefix + [r] == log0 + (prefix + [r]);
  }

  /** One round that went ahead: `path` is an augmenting path from `s` to
      `t` with bottleneck `b`, which lies above EPSILON; the amount moved is `b` capped by the
      source's funds and is positive; the augmentation along the path is
      done; and the source's balance is overwritten with minus the amount. */
  /** `b` is what the minimum loop gives for `path`, an augmenting path
      from `s` to `t`: at most every residual capacity on it, and one of
      them unless it stayed at Double.MAX_VALUE. */
  ghost predicate Bottlenecked(edges: seq<Edge>, s: nat, t: nat, path: seq<nat>, b: real)
  {
    IsAugmentingPath(edges, s, t, path)
    && b <= MAX_DOUBLE && (forall k :: 0 <= k < |path| ==> b <= Residual(edges[path[k]]))
    && (b == MAX_DOUBLE || exists k :: 0 <= k < |path| && b == Residual(edges[path[k]]))
  }

  /** Every usable edge has more than EPSILON of residual capacity. */
  ghost predicate Thick(edges: seq<Edge>)
  {
    forall e :: 0 <= e < |edges| && Residual(edges[e]) > 0.0 ==> Residual(edges[e]) > EPSILON
  }

  /** A state in which a round of the program moves money: source and
      sink differ, the source has funds, some chain of usable edges leads
      from the source to the sink, every usable edge has a positive cost
      and more than EPSILON of residual capacity, and the costs of the n
      nodes' paths stay below Double.MAX_VALUE. */
  ghost predicate Movable(edges: seq<Edge>, n: nat, s: nat, t: nat, funds: real)
  {
    s != t && 0.0 < funds && Reachable(edges, s, t)
    && Tame(edges, n) && PositiveCosts(edges) && Thick(edges)
  }

  ghost predicate AugmentedOnce(ids: map<nat, string>, edges0: seq<Edge>, balances0: map<string, real>,
                                log0: seq<TransactionRecord>, cost0: real, s: nat, t: nat, funds: real,
                                path: seq<nat>, b: real, amount: real,
                                edges: seq<Edge>, balances: map<string, real>, log: seq<TransactionRecord>, cost: real)
  {
    Bottlenecked(edges0, s, t, path, b) && EPSILON < b
    && amount == (if b > funds then funds else b) && 0.0 < amount
    && Labelled(ids, edges0, path) && OnArena(edges0, path)
    && Augmented(ids, edges0, balances0, log0, cost0, path, amount, edges, balances, log, cost)
    && s in ids && ids[s] in balances && balances[ids[s]] == -amount
  }

  /** What computeMinCostMaxFlow leaves, from reset totals: the cost is the
      log's charge, and either nothing moved and the graph is as it was, or
      exactly one round moved along `path`. */
  ghost predicate Outcome(ids: map<nat, string>, edges0: seq<Edge>, balances0: map<string, real>,
                          s: nat, t: nat, funds: real, path: seq<nat>, b: real, flow: real,
                          edges: seq<Edge>, balances: map<string, real>, log: seq<TransactionRecord>, cost: real)
  {
    cost == TotalCharge(log)
    && (path == [] ==> log == [] && flow == 0.0 && edges == edges0 && balances == balances0)
    && (path != [] ==> AugmentedOnce(ids, edges0, balances0, [], 0.0, s, t, funds, path, b, flow, edges, balances, log, cost))
  }

  /** A source without positive funds moves nothing. */
  lemma NoFundsNoFlow(ids: map<nat, string>, edges0: seq<Edge>, balances0: map<string, real>,
                      s: nat, t: nat, funds: real, path: seq<nat>, b: real, flow: real,
                      edges: seq<Edge>, balances: map<string, real>, log: seq<TransactionRecord>, cost: real)
    requires Outcome(ids, edges0, balances0, s, t, funds, path, b, flow, edges, balances, log, cost)
    requires funds <= 0.0
    ensures path == [] && log == [] && flow == 0.0 && edges == edges0 && balances == balances0
  {
  }

  /** Why a round stops: the search gave the empty path; the walk back
      from the sink never met the source; the bottleneck `b` of `path` is
      at most EPSILON; or the amount capped by the source's funds is not
      positive. */
  datatype Stop = NoPath | Stalled | Thin(path: seq<nat>, b: real) | Broke(path: seq<nat>, b: real)

  /** What a round decides before touching anything: stop, or go ahead
      and move `amount` along `path`, whose bottleneck is `b`. */
  datatype Plan = Halt(reason: Stop) | Go(path: seq<nat>, b: real, amount: real)

  class MinCostMaxFlow {
    const graph: Graph
    var totalCost: real
    var totalFlow: real
    var transactions: seq<TransactionRecord>
    /** The path the last computation augmented along, or [] when it moved nothing. */
    ghost var augmented: seq<nat>
    /** The least residual capacity on that path. */
    ghost var bottleneck: real
    /** The last computation met a predecessor chain that never reaches the source. */
    ghost var stalled: bool

    constructor(graph: Graph)
      ensures this.graph == graph && totalCost == 0.0 && totalFlow == 0.0 && transactions == []
      ensures augmented == [] && !stalled
    {
      this.graph := graph;
      totalCost := 0.0;
      totalFlow := 0.0;
      transactions := [];
      augmented := [];
      bottleneck := 0.0;
      stalled := false;
    }

    /** One pass of the augmentation loop: push on edge `e`, overwrite the
        balances of its end nodes, add its charge and log it. */
    method Step(e: nat, amount: real) returns (ghost record: TransactionRecord)
      requires graph.Valid() && e < |graph.edges|
      modifies this, graph
      ensures graph.Valid()
      ensures old(graph.edges)[e].reverse < |old(graph.edges)| && graph.edges == Push(old(graph.edges), e, amount)
      ensures record == StepRecord(graph.indexToNodeId, old(graph.edges), e, amount)
      ensures transactions == old(transactions) + [record]
      ensures totalCost == old(totalCost) + Charge(record)
      ensures graph.balances == old(graph.balances)[record.sourceNode := -amount][record.destNode := amount]
      ensures graph.nodeIdToIndex == old(graph.nodeIdToIndex) && graph.indexToNodeId == old(graph.indexToNodeId)
      ensures graph.nodeTypes == old(graph.nodeTypes) && graph.nodeCount == old(graph.nodeCount) && graph.adjacency == old(graph.adjacency)
      ensures totalFlow == old(totalFlow) && augmented == old(augmented) && bottleneck == old(bottleneck) && stalled == old(stalled)
    {
      var edge := graph.edges[e];
      var logged := TransactionRecord(graph.indexToNodeId[edge.source], graph.indexToNodeId[edge.dest], amount, edge.cost);
      assert logged == StepRecord(graph.indexToNodeId, graph.edges, e, amount);
      graph.AddFlow(e, amount);
      graph.SetBalance(logged.sourceNode, -amount);
      graph.SetBalance(logged.destNode, amount);
      totalCost := totalCost + Charge(logged);
      transactions := transactions + [logged];
      record := logged;
    }

    /** The augmentation loop: push `amount` along each edge of the path,
        overwrite the balances of its end nodes and log it. */
    method Augment(path: seq<nat>, amount: real)
      requires graph.Valid() && forall k :: 0 <= k < |path| ==> path[k] < |graph.edges|
      modifies this, graph
      ensures graph.Valid()
      ensures Labelled(old(graph.indexToNodeId), old(graph.edges), path) && OnArena(old(graph.edges), path)
      ensures Augmented(old(graph.indexToNodeId), old(graph.edges), old(graph.balances), old(transactions), old(totalCost),
                        path, amount, graph.edges, graph.balances, transactions, totalCost)
      ensures graph.nodeIdToIndex == old(graph.nodeIdToIndex) && graph.indexToNodeId == old(graph.indexToNodeId)
      ensures graph.nodeTypes == old(graph.nodeTypes) && graph.nodeCount == old(graph.nodeCount) && graph.adjacency == old(graph.adjacency)
      ensures totalFlow == old(totalFlow) && augmented == old(augmented) && bottleneck == old(bottleneck) && stalled == old(stalled)
    {
      ghost var edges0, ids, balances0 := graph.edges, graph.indexToNodeId, graph.balances;
      ghost var transactions0, cost0 := transactions, totalCost;
      forall k | 0 <= k < |path|
        ensures edges0[path[k]].reverse < |edges0| && edges0[path[k]].source in ids && edges0[path[k]].dest in ids
      {
        assert TwinAt(edges0, path[k]);
      }
      assert path[..0] == [];
      var k := 0;
      while k < |path|
        invariant 0 <= k <= |path|
        invariant graph.Valid()
        invariant graph.nodeIdToIndex == old(graph.nodeIdToIndex) && graph.indexToNodeId == ids
        invariant graph.nodeTypes == old(graph.nodeTypes) && graph.nodeCount == old(graph.nodeCount) && graph.adjacency == old(graph.adjacency)
        invariant AugmentedUpTo(ids, edges0, balances0, transactions0, cost0, path, amount, k, graph.edges, graph.balances, transactions, totalCost)
        invariant totalFlow == old(totalFlow) && augmented == old(augmented) && bottleneck == old(bottleneck) && stalled == old(stalled)
      {
        AugmentedStep(ids, edges0, balances0, transactions0, cost0, path, amount, k, graph.edges, graph.balances, transactions, totalCost);
        ghost var record := Step(path[k], amount);
        k := k + 1;
      }
      assert path[..|path|] == path;
    }

    /** The search of one round: a fresh Dijkstra from the source, and the
        path it traces back from the sink. */
    method Search(source: nat, sink: nat) returns (found: Option<seq<nat>>)
      requires graph.Valid() && source < graph.nodeCount && sink < graph.nodeCount
      ensures sink == source ==> found == Some([])
      ensures found.Some? && found.value != [] ==> IsAugmentingPath(graph.edges, source, sink, found.value)
      ensures found == Some([]) && sink != source && Tame(graph.edges, graph.nodeCount) ==> !Reachable(graph.edges, source, sink)
      ensures PositiveCosts(graph.edges) ==> found.Some?
    {
      var dijkstra := new Dijkstra(graph, source);
      found := dijkstra.GetShortestPathTo(sink);
    }

    /** The augmenting half of a round that goes ahead: push `amount`, which
        fits every residual capacity on the path, along it, add it to the
        total flow and record the path and its bottleneck `b`. */
    method Transfer(sourceId: string, source: nat, sink: nat, path: seq<nat>, b: real, amount: real)
      requires graph.Valid() && IsAugmentingPath(graph.edges, source, sink, path)
      requires source in graph.indexToNodeId && graph.indexToNodeId[source] == sourceId
      requires 0.0 < amount && forall k :: 0 <= k < |path| ==> amount <= Residual(graph.edges[path[k]])
      modifies this, graph
      ensures graph.Valid()
      ensures graph.nodeIdToIndex == old(graph.nodeIdToIndex) && graph.indexToNodeId == old(graph.indexToNodeId)
      ensures graph.nodeTypes == old(graph.nodeTypes) && graph.nodeCount == old(graph.nodeCount)
      ensures augmented == path && bottleneck == b && stalled == old(stalled) && totalFlow == old(totalFlow) + amount
      ensures Labelled(graph.indexToNodeId, old(graph.edges), path) && OnArena(old(graph.edges), path)
      ensures Augmented(old(graph.indexToNodeId), old(graph.edges), old(graph.balances), old(transactions), old(totalCost),
                        path, amount, graph.edges, graph.balances, transactions, totalCost)
      ensures sourceId in graph.balances && graph.balances[sourceId] == -amount
      ensures FlowsCancel(old(graph.edges)) ==> FlowsCancel(graph.edges)
      ensures ResidualsNonneg(old(graph.edges)) ==> ResidualsNonneg(graph.edges)
    {
      ghost var edges0, balances0, log0, cost0 := graph.edges, graph.balances, transactions, totalCost;
      augmented := path;
      bottleneck := b;
      Augment(path, amount);
      AugmentationOutcome(graph.nodeIdToIndex, graph.indexToNodeId, graph.nodeCount, edges0, balances0, log0, cost0,
                          source, sink, path, amount, graph.edges, graph.balances, transactions, totalCost);
      totalFlow := totalFlow + amount;
    }

    /** The deciding half of a round: search, take the bottleneck of the
        path found, cap it by the source's funds, and go ahead only when
        the path is non-empty, the bottleneck exceeds EPSILON and the
        capped amount is positive. */
    method Decide(sourceId: string, source: nat, sink: nat) returns (plan: Plan)
      requires graph.Valid() && source < graph.nodeCount && sink < graph.nodeCount
      requires source in graph.indexToNodeId && graph.indexToNodeId[source] == sourceId
      ensures sink == source ==> plan == Halt(NoPath)
      ensures graph.GetBalance(sourceId) <= 0.0 ==> plan.Halt?
      ensures plan == Halt(NoPath) && sink != source && Tame(graph.edges, graph.nodeCount) ==> !Reachable(graph.edges, source, sink)
      ensures plan == Halt(Stalled) ==> !PositiveCosts(graph.edges)
      ensures plan.Halt? && plan.reason.Thin? ==> Bottlenecked(graph.edges, source, sink, plan.reason.path, plan.reason.b) && plan.reason.b <= EPSILON
      ensures plan.Halt? && plan.reason.Broke? ==>
        Bottlenecked(graph.edges, source, sink, plan.reason.path, plan.reason.b) && EPSILON < plan.reason.b
        && graph.GetBalance(sourceId) <= 0.0
      ensures plan.Go? ==>
        Bottlenecked(graph.edges, source, sink, plan.path, plan.b) && EPSILON < plan.b
        && plan.amount == (if plan.b > graph.GetBalance(sourceId) then graph.GetBalance(sourceId) else plan.b)
        && 0.0 < plan.amount
      ensures Movable(graph.edges, graph.nodeCount, source, sink, graph.GetBalance(sourceId)) ==> plan.Go?
    {
      var found := Search(source, sink);
      if found.None? {
        return Halt(Stalled);
      }
      var path := found.value;
      if path == [] {
        return Halt(NoPath);
      }
      var b := Bottleneck(graph.edges, path);
      if b <= EPSILON {
        if b != MAX_DOUBLE {
          var k :| 0 <= k < |path| && b == Residual(graph.edges[path[k]]);
          assert !Thick(graph.edges);
        }
        return Halt(Thin(path, b));
      }
      var funds := graph.GetBalance(graph.indexToNodeId[graph.edges[path[0]].source]);
      var capped := if b > funds then funds else b;
      if capped <= 0.0 {
        return Halt(Broke(path, b));
      }
      return Go(path, b, capped);
    }

    /** One round of computeMinCostMaxFlow's loop: search, take the
        bottleneck, cap it by the source's funds and augment. `moved` is
        false exactly when the round ends the computation, and then only
        `stalled` may have changed. */
    method Round(sourceId: string, source: nat, sink: nat) returns (moved: bool, ghost amount: real)
      requires graph.Valid() && source < graph.nodeCount && sink < graph.nodeCount
      requires source in graph.indexToNodeId && graph.indexToNodeId[source] == sourceId
      modifies this, graph
      ensures graph.Valid()
      ensures graph.nodeIdToIndex == old(graph.nodeIdToIndex) && graph.indexToNodeId == old(graph.indexToNodeId)
      ensures graph.nodeTypes == old(graph.nodeTypes) && graph.nodeCount == old(graph.nodeCount)
      ensures !moved ==>
        unchanged(graph) && transactions == old(transactions) && totalCost == old(totalCost)
        && totalFlow == old(totalFlow) && augmented == old(augmented) && bottleneck == old(bottleneck)
      ensures moved ==>
        totalFlow == old(totalFlow) + amount
        && AugmentedOnce(graph.indexToNodeId, old(graph.edges), old(graph.balances), old(transactions), old(totalCost),
                         source, sink, old(graph.GetBalance(sourceId)), augmented, bottleneck, amount,
                         graph.edges, graph.balances, transactions, totalCost)
      ensures moved ==> old(graph.GetBalance(sourceId)) > 0.0
      ensures Movable(old(graph.edges), graph.nodeCount, source, sink, old(graph.GetBalance(sourceId))) ==> moved
      ensures FlowsCancel(old(graph.edges)) ==> FlowsCancel(graph.edges)
      ensures ResidualsNonneg(old(graph.edges)) ==> ResidualsNonneg(graph.edges)
    {
      var plan := Decide(sourceId, source, sink);
      if plan.Halt? {
        if plan.reason == Stalled {
          stalled := true;
        }
        return false, 0.0;
      }
      Transfer(sourceId, source, sink, plan.path, plan.b, plan.amount);
      moved, amount := true, plan.amount;
    }

    /** computeMinCostMaxFlow: unknown ids leave everything as it was;
        otherwise the totals and the log are reset and rounds run until one
        moves nothing. */
    method Compute(sourceId: string, sinkId: string)
      requires graph.Valid()
      modifies this, graph
      ensures graph.Valid()
      ensures graph.nodeIdToIndex == old(graph.nodeIdToIndex) && graph.indexToNodeId == old(graph.indexToNodeId)
      ensures graph.nodeTypes == old(graph.nodeTypes) && graph.nodeCount == old(graph.nodeCount)
      ensures sourceId !in graph.nodeIdToIndex || sinkId !in graph.nodeIdToIndex ==> unchanged(this, graph)
      ensures sourceId in graph.nodeIdToIndex && sinkId in graph.nodeIdToIndex ==>
        Outcome(graph.indexToNodeId, old(graph.edges), old(graph.balances),
                graph.nodeIdToIndex[sourceId], graph.nodeIdToIndex[sinkId], old(graph.GetBalance(sourceId)),
                augmented, bottleneck, totalFlow, graph.edges, graph.balances, transactions, totalCost)
      ensures sourceId in graph.nodeIdToIndex && sinkId in graph.nodeIdToIndex
              && Movable(old(graph.edges), graph.nodeCount, graph.nodeIdToIndex[sourceId], graph.nodeIdToIndex[sinkId], old(graph.GetBalance(sourceId)))
              ==> augmented != [] && 0.0 < totalFlow
      ensures FlowsCancel(old(graph.edges)) ==> FlowsCancel(graph.edges)
      ensures ResidualsNonneg(old(graph.edges)) ==> ResidualsNonneg(graph.edges)
    {
      var source := graph.GetNodeIndex(sourceId);
      var sink := graph.GetNodeIndex(sinkId);
      if source == -1 || sink == -1 {
        return;
      }
      totalCost := 0.0;
      totalFlow := 0.0;
      transactions := [];
      augmented := [];
      stalled := false;
      Run(sourceId, source, sink);
    }

    /** The loop of computeMinCostMaxFlow, from reset totals: rounds run
        until one moves nothing. The first round that moves leaves the
        source with minus the amount, so the round after it stops. */
    method Run(sourceId: string, source: nat, sink: nat)
      requires graph.Valid() && source < graph.nodeCount && sink < graph.nodeCount
      requires source in graph.indexToNodeId && graph.indexToNodeId[source] == sourceId
      requires totalCost == 0.0 && totalFlow == 0.0 && transactions == [] && augmented == []
      modifies this, graph
      ensures graph.Valid()
      ensures graph.nodeIdToIndex == old(graph.nodeIdToIndex) && graph.indexToNodeId == old(graph.indexToNodeId)
      ensures graph.nodeTypes == old(graph.nodeTypes) && graph.nodeCount == old(graph.nodeCount)
      ensures Outcome(graph.indexToNodeId, old(graph.edges), old(graph.balances), source, sink, old(graph.GetBalance(sourceId)),
                      augmented, bottleneck, totalFlow, graph.edges, graph.balances, transactions, totalCost)
      ensures Movable(old(graph.edges), graph.nodeCount, source, sink, old(graph.GetBalance(sourceId))) ==> augmented != [] && 0.0 < totalFlow
      ensures FlowsCancel(old(graph.edges)) ==> FlowsCancel(graph.edges)
      ensures ResidualsNonneg(old(graph.edges)) ==> ResidualsNonneg(graph.edges)
    {
      ghost var edges0, balances0, funds0 := graph.edges, graph.balances, graph.GetBalance(sourceId);
      while true
        invariant graph.Valid()
        invariant graph.nodeIdToIndex == old(graph.nodeIdToIndex) && graph.indexToNodeId == old(graph.indexToNodeId)
        invariant graph.nodeTypes == old(graph.nodeTypes) && graph.nodeCount == old(graph.nodeCount)
        invariant Outcome(graph.indexToNodeId, edges0, balances0, source, sink, funds0,
                          augmented, bottleneck, totalFlow, graph.edges, graph.balances, transactions, totalCost)
        invariant FlowsCancel(edges0) ==> FlowsCancel(graph.edges)
        invariant ResidualsNonneg(edges0) ==> ResidualsNonneg(graph.edges)
        decreases if augmented == [] then 1 else 0
      {
        ghost var first := augmented == [];
        if !first {
          assert graph.balances[sourceId] < 0.0;
          assert graph.GetBalance(sourceId) < 0.0;
        }
        var moved, amount := Round(sourceId, source, sink);
        if !moved {
          break;
        }
        assert first;
        assert transactions == [] + Ledger(graph.indexToNodeId, edges0, augmented, amount) == Ledger(graph.indexToNodeId, edges0, augmented, amount);
      }
    }
  }

  /** What a round's augmentation leaves: the source holds minus the amount
      moved, and both flow invariants survive. */
  lemma AugmentationOutcome(toIndex: map<string, nat>, ids: map<nat, string>, count: nat,
                            edges0: seq<Edge>, balances0: map<string, real>, log0: seq<TransactionRecord>, cost0: real,
                            s: nat, t: nat, path: seq<nat>, amount: real,
                            edges: seq<Edge>, balances: map<string, real>, log: seq<TransactionRecord>, cost: real)
    requires IdMaps(toIndex, ids, count) && Twinned(edges0) && IsAugmentingPath(edges0, s, t, path) && s in ids
    requires 0.0 <= amount && forall k :: 0 <= k < |path| ==> amount <= Residual(edges0[path[k]])
    requires Labelled(ids, edges0, path) && OnArena(edges0, path)
    requires Augmented(ids, edges0, balances0, log0, cost0, path, amount, edges, balances, log, cost)
    ensures ids[s] in balances && balances[ids[s]] == -amount
    ensures FlowsCancel(edges0) ==> FlowsCancel(edges)
    ensures ResidualsNonneg(edges0) ==> ResidualsNonneg(edges)
  {
    AugmentPreserves(edges0, s, t, path, amount);
    LedgerOfPathIsChained(toIndex, ids, count, edges0, s, t, path, amount);
    var ledger := Ledger(ids, edges0, path, amount);
    OverwriteAlongChain(balances0, ledger, amount);
    assert balances[ledger[0].sourceNode] == -amount;
  }

  /** One augmentation within the bottleneck along an augmenting path keeps both flow invariants. */
  lemma AugmentPreserves(edges: seq<Edge>, s: nat, t: nat, path: seq<nat>, amount: real)
    requires Twinned(edges) && IsAugmentingPath(edges, s, t, path)
    requires 0.0 <= amount && forall k :: 0 <= k < |path| ==> amount <= Residual(edges[path[k]])
    ensures OnArena(edges, path)
    ensures FlowsCancel(edges) ==> FlowsCancel(PushAlong(edges, path, amount))
    ensures ResidualsNonneg(edges) ==> ResidualsNonneg(PushAlong(edges, path, amount))
  {
    AugmentingPathIsTwinFree(edges, s, t, path);
    if FlowsCancel(edges) {
      PushAlongKeepsFlowsCancel(edges, path, amount);
    }
    if ResidualsNonneg(edges) {
      PushAlongKeepsResidualsNonneg(edges, path, amount);
    }
  }

  /** Flow conservation for one augmentation by `amount` along an augmenting
      path: every edge of the path carries `amount` more and its twin
      `amount` less, the source sends out `amount` more, the sink takes in
      `amount` more, and the outflow of every other node is unchanged. */
  lemma AugmentConserves(edges: seq<Edge>, s: nat, t: nat, path: seq<nat>, amount: real, v: nat)
    requires Twinned(edges) && IsAugmentingPath(edges, s, t, path)
    ensures OnArena(edges, path) && s != t
    ensures forall k :: 0 <= k < |path| ==>
              PushAlong(edges, path, amount)[path[k]].flow == edges[path[k]].flow + amount
              && PushAlong(edges, path, amount)[edges[path[k]].reverse].flow == edges[edges[path[k]].reverse].flow - amount
    ensures NetOut(PushAlong(edges, path, amount), v)
            == NetOut(edges, v) + (if v == s then amount else if v == t then -amount else 0.0)
  {
    AugmentingPathIsTwinFree(edges, s, t, path);
    forall k | 0 <= k < |path|
      ensures PushAlong(edges, path, amount)[path[k]].flow == edges[path[k]].flow + amount
      ensures PushAlong(edges, path, amount)[edges[path[k]].reverse].flow == edges[edges[path[k]].reverse].flow - amount
    {
      PushAlongOnPath(edges, path, amount, k);
    }
    assert edges[path[|path| - 1]].dest != s;
    PushAlongNetOut(edges, path, amount, v);
    ChainShift(edges, path, amount, v);
  }

  /** The arena the three-node example builds, nodes A = 0, B = 1, C = 2:
      A -> B (capacity 50, cost 1), B -> C (capacity 50, cost 1) and
      A -> C (capacity 30, cost 5), each followed by its reverse twin. */
  function ExampleArena(): (r: seq<Edge>)
    ensures |r| == 6
  {
    [Edge(0, 1, 50.0, 0.0, 1.0, 1), Edge(1, 0, 0.0, 0.0, -1.0, 0),
     Edge(1, 2, 50.0, 0.0, 1.0, 3), Edge(2, 1, 0.0, 0.0, -1.0, 2),
     Edge(0, 2, 30.0, 0.0, 5.0, 5), Edge(2, 0, 0.0, 0.0, -5.0, 4)]
  }

  /** The pair addEdge appends, written out. */
  lemma TwinsSpelled(source: nat, dest: nat, capacity: real, cost: real, at: nat)
    ensures Twins(source, dest, capacity, cost, at)
         == [Edge(source, dest, capacity, 0.0, cost, at + 1), Edge(dest, source, 0.0, 0.0, -cost, at)]
  {
  }

  /** The three pairs the example's addEdge calls append, written out. */
  lemma ExamplePairsSpelled()
    ensures Twins(0, 1, 50.0, 1.0, 0) + Twins(1, 2, 50.0, 1.0, 2) + Twins(0, 2, 30.0, 5.0, 4)
         == [Edge(0, 1, 50.0, 0.0, 1.0, 1), Edge(1, 0, 0.0, 0.0, -1.0, 0),
            Edge(1, 2, 50.0, 0.0, 1.0, 3), Edge(2, 1, 0.0, 0.0, -1.0, 2),
            Edge(0, 2, 30.0, 0.0, 5.0, 5), Edge(2, 0, 0.0, 0.0, -5.0, 4)]
  {
    TwinsSpelled(0, 1, 50.0, 1.0, 0);
    TwinsSpelled(1, 2, 50.0, 1.0, 2);
    TwinsSpelled(0, 2, 30.0, 5.0, 4);
  }

  /** It is the arena the three addEdge calls build, in that order. */
  lemma ExampleArenaBuilt()
    ensures ExampleArena() == Twins(0, 1, 50.0, 1.0, 0) + Twins(1, 2, 50.0, 1.0, 2) + Twins(0, 2, 30.0, 5.0, 4)
  {
    ExamplePairsSpelled();
  }

  const EXAMPLE_IDS: map<nat, string> := map[0 := "A", 1 := "B", 2 := "C"]

  /** A -> B -> C is an augmenting path of the fresh example arena, with
      residual capacity 50 on both edges. */
  lemma ExamplePath()
    ensures IsAugmentingPath(ExampleArena(), 0, 2, [0, 2])
    ensures Residual(ExampleArena()[0]) == 50.0 && Residual(ExampleArena()[2]) == 50.0
  {
  }

  /** Moving 50 along it (the bottleneck, below A's 100) logs two
      transactions of 50 at unit cost 1, for a cost of 100. */
  lemma ExampleLedger()
    ensures Labelled(EXAMPLE_IDS, ExampleArena(), [0, 2])
    ensures Ledger(EXAMPLE_IDS, ExampleArena(), [0, 2], 50.0)
         == [TransactionRecord("A", "B", 50.0, 1.0), TransactionRecord("B", "C", 50.0, 1.0)]
    ensures TotalCharge(Ledger(EXAMPLE_IDS, ExampleArena(), [0, 2], 50.0)) == 100.0
  {
    var edges := ExampleArena();
    assert [0, 2][..1] == [0] && [0][..0] == [];
    assert Ledger(EXAMPLE_IDS, edges, [], 50.0) == [];
    assert Ledger(EXAMPLE_IDS, edges, [0], 50.0) == [TransactionRecord("A", "B", 50.0, 1.0)];
    var ledger := Ledger(EXAMPLE_IDS, edges, [0, 2], 50.0);
    assert ledger == [TransactionRecord("A", "B", 50.0, 1.0), TransactionRecord("B", "C", 50.0, 1.0)];
    assert ledger[..1] == [ledger[0]] && ledger[..1][..0] == [];
    assert TotalCharge(ledger[..1]) == Charge(ledger[0]) == 50.0;
    assert TotalCharge(ledger) == TotalCharge(ledger[..1]) + Charge(ledger[1]);
  }

  /** The balances are overwritten to A = -50, B = -50 (the second edge
      overwrites the 50 the first wrote) and C = 50. */
  lemma ExampleBalances()
    ensures Overwrite(map["A" := 100.0, "B" := 0.0, "C" := 0.0],
                      [TransactionRecord("A", "B", 50.0, 1.0), TransactionRecord("B", "C", 50.0, 1.0)])
         == map["A" := -50.0, "B" := -50.0, "C" := 50.0]
  {
    var ledger := [TransactionRecord("A", "B", 50.0, 1.0), TransactionRecord("B", "C", 50.0, 1.0)];
    assert ledger[..1] == [ledger[0]] && ledger[..1][..0] == [];
  }

  /** The A -> C edge and its twin keep their flow of 0. */
  lemma ExampleDirectEdgeUnused()
    ensures OnArena(ExampleArena(), [0, 2])
    ensures PushAlong(ExampleArena(), [0, 2], 50.0)[4].flow == 0.0
    ensures PushAlong(ExampleArena(), [0, 2], 50.0)[5].flow == 0.0
  {
    PushAlongUntouched(ExampleArena(), [0, 2], 50.0, 4);
    PushAlongUntouched(ExampleArena(), [0, 2], 50.0, 5);
  }

  const EXAMPLE_BALANCES: map<string, real> := map["A" := 100.0, "B" := 0.0, "C" := 0.0]

  /** The fresh example arena lets a round of the program move money from
      A to C: A -> C is usable, every usable edge costs more than 0 and
      carries more than EPSILON, and the costs stay far below
      Double.MAX_VALUE. */
  lemma ExampleMovable()
    ensures Movable(ExampleArena(), 3, 0, 2, 100.0)
  {
    var edges := ExampleArena();
    assert IsWalk(edges, 0, 2, [4]);
    forall e | 0 <= e < |edges| ensures Times(3, edges[e].cost) < MAX_DOUBLE {
      assert Times(3, edges[e].cost) == Times(2, edges[e].cost) + edges[e].cost;
      assert Times(2, edges[e].cost) == Times(1, edges[e].cost) + edges[e].cost;
      assert Times(1, edges[e].cost) == Times(0, edges[e].cost) + edges[e].cost;
    }
  }

  /** The usable edges of the fresh example arena are its three forward edges. */
  lemma ExampleUsable(e: nat)
    requires e < |ExampleArena()| && Residual(ExampleArena()[e]) > 0.0
    ensures e == 0 || e == 2 || e == 4
    ensures var edge := ExampleArena()[e];
      (e == 0 && edge.source == 0 && edge.dest == 1) || (e == 2 && edge.source == 1 && edge.dest == 2)
      || (e == 4 && edge.source == 0 && edge.dest == 2)
  {
  }

  /** The fresh example arena has exactly two augmenting paths from A to
      C: A -> B -> C and the direct edge A -> C. */
  lemma ExamplePaths(path: seq<nat>)
    requires IsAugmentingPath(ExampleArena(), 0, 2, path)
    ensures path == [0, 2] || path == [4]
  {
    var edges := ExampleArena();
    var n := |path| - 1;
    ExampleUsable(path[0]);
    ExampleUsable(path[n]);
    if path[0] == 4 {
      // it already ends at C, which no later edge may enter again
      assert edges[path[0]].dest == edges[path[n]].dest;
      assert n == 0;
    } else {
      // A -> B, then the only usable edge leaving B, which ends at C
      assert n != 0;
      ExampleUsable(path[1]);
      assert path[1] == 2;
      assert edges[path[1]].dest == edges[path[n]].dest;
      assert n == 1;
    }
  }

  /** Moving 30 along A -> C alone logs one transaction of 30 at unit cost
      5, for a cost of 150, and leaves A = -30, B = 0, C = 30. */
  lemma ExampleDirectLedger()
    ensures Labelled(EXAMPLE_IDS, ExampleArena(), [4])
    ensures Ledger(EXAMPLE_IDS, ExampleArena(), [4], 30.0) == [TransactionRecord("A", "C", 30.0, 5.0)]
    ensures TotalCharge([TransactionRecord("A", "C", 30.0, 5.0)]) == 150.0
    ensures Overwrite(EXAMPLE_BALANCES, [TransactionRecord("A", "C", 30.0, 5.0)]) == map["A" := -30.0, "B" := 0.0, "C" := 30.0]
  {
    assert [4][..0] == [];
    var ledger := [TransactionRecord("A", "C", 30.0, 5.0)];
    assert ledger[..0] == [];
  }

  /** Moving along A -> B -> C from the fresh example arena: the
      bottleneck is 50, below A's 100, so 50 moves for a cost of 100. */
  lemma ExampleViaB(b: real, flow: real, balances: map<string, real>, log: seq<TransactionRecord>, cost: real)
    requires Bottlenecked(ExampleArena(), 0, 2, [0, 2], b) && flow == (if b > 100.0 then 100.0 else b)
    requires log == Ledger(EXAMPLE_IDS, ExampleArena(), [0, 2], flow)
    requires cost == TotalCharge(log) && balances == Overwrite(EXAMPLE_BALANCES, log)
    ensures flow == 50.0 && cost == 100.0 && balances == map["A" := -50.0, "B" := -50.0, "C" := 50.0]
    ensures log == [TransactionRecord("A", "B", 50.0, 1.0), TransactionRecord("B", "C", 50.0, 1.0)]
  {
    ExamplePath();
    assert b == 50.0;
    ExampleLedger();
    ExampleBalances();
  }

  /** Moving along A -> C from the fresh example arena: the bottleneck is
      30, below A's 100, so 30 moves for a cost of 150. */
  lemma ExampleDirect(b: real, flow: real, balances: map<string, real>, log: seq<TransactionRecord>, cost: real)
    requires Bottlenecked(ExampleArena(), 0, 2, [4], b) && flow == (if b > 100.0 then 100.0 else b)
    requires log == Ledger(EXAMPLE_IDS, ExampleArena(), [4], flow)
    requires cost == TotalCharge(log) && balances == Overwrite(EXAMPLE_BALANCES, log)
    ensures flow == 30.0 && cost == 150.0 && balances == map["A" := -30.0, "B" := 0.0, "C" := 30.0]
    ensures log == [TransactionRecord("A", "C", 30.0, 5.0)]
  {
    assert b == 30.0;
    ExampleDirectLedger();
  }

  /** What a computation from A to C on the fresh example arena leaves
      once it moved something: 50 along A -> B -> C for a cost of 100, or
      30 along A -> C for a cost of 150, with the balances overwritten
      accordingly. */
  lemma ExampleAugmentation(path: seq<nat>, b: real, flow: real, edges: seq<Edge>, balances: map<string, real>,
                            log: seq<TransactionRecord>, cost: real)
    requires Outcome(EXAMPLE_IDS, ExampleArena(), EXAMPLE_BALANCES, 0, 2, 100.0, path, b, flow, edges, balances, log, cost)
    requires path != []
    ensures path == [0, 2] ==>
      flow == 50.0 && cost == 100.0 && balances == map["A" := -50.0, "B" := -50.0, "C" := 50.0]
      && log == [TransactionRecord("A", "B", 50.0, 1.0), TransactionRecord("B", "C", 50.0, 1.0)]
    ensures path == [4] ==>
      flow == 30.0 && cost == 150.0 && balances == map["A" := -30.0, "B" := 0.0, "C" := 30.0]
      && log == [TransactionRecord("A", "C", 30.0, 5.0)]
    ensures path == [0, 2] || path == [4]
  {
    assert AugmentedOnce(EXAMPLE_IDS, ExampleArena(), EXAMPLE_BALANCES, [], 0.0, 0, 2, 100.0, path, b, flow, edges, balances, log, cost);
    var ledger := Ledger(EXAMPLE_IDS, ExampleArena(), path, flow);
    assert log == [] + ledger == ledger;
    ExamplePaths(path);
    if path == [0, 2] {
      ExampleViaB(b, flow, balances, log, cost);
    } else {
      ExampleDirect(b, flow, balances, log, cost);
    }
  }

  /** The example's nodes: A (revenue, 100), B (account, 0) and C (expense, 0). */
  method ExampleNodes() returns (graph: Graph)
    ensures fresh(graph) && graph.Valid() && graph.nodeCount == 3
    ensures graph.nodeIdToIndex == map["A" := 0, "B" := 1, "C" := 2]
    ensures graph.indexToNodeId == EXAMPLE_IDS && graph.balances == EXAMPLE_BALANCES
    ensures graph.edges == [] && graph.adjacency == [[], [], []]
  {
    graph := new Graph();
    var a := graph.AddNode("A", Revenue, 100.0);
    var b := graph.AddNode("B", Account, 0.0);
    var c := graph.AddNode("C", Expense, 0.0);
  }

  /** The example graph: nodes A (100), B (0) and C (0), then addEdge for
      A -> B and B -> C (capacity 50, cost 1) and A -> C (capacity 30, cost 5). */
  method ExampleGraph() returns (graph: Graph)
    ensures fresh(graph) && graph.Valid() && graph.nodeCount == 3
    ensures graph.nodeIdToIndex == map["A" := 0, "B" := 1, "C" := 2]
    ensures graph.indexToNodeId == EXAMPLE_IDS && graph.balances == EXAMPLE_BALANCES
    ensures graph.edges == ExampleArena()
  {
    graph := ExampleNodes();
    var ok := graph.AddEdge("A", "B", 50.0, 1.0);
    ok := graph.AddEdge("B", "C", 50.0, 1.0);
    ok := graph.AddEdge("A", "C", 30.0, 5.0);
    ExampleArenaBuilt();
  }

  /** The three-node example run through the solver: A holds 100 and B
      and C nothing; addEdge builds A -> B and B -> C (capacity 50, cost 1)
      and A -> C (capacity 30, cost 5); then computeMinCostMaxFlow("A", "C")
      runs. Money moves, along one of the two augmenting paths. */
  method ExampleComputation() returns (flow: real, cost: real, log: seq<TransactionRecord>, balances: map<string, real>)
    ensures 0.0 < flow
    ensures (flow == 50.0 && cost == 100.0 && balances == map["A" := -50.0, "B" := -50.0, "C" := 50.0]
             && log == [TransactionRecord("A", "B", 50.0, 1.0), TransactionRecord("B", "C", 50.0, 1.0)])
         || (flow == 30.0 && cost == 150.0 && balances == map["A" := -30.0, "B" := 0.0, "C" := 30.0]
             && log == [TransactionRecord("A", "C", 30.0, 5.0)])
  {
    var graph := ExampleGraph();
    ghost var s, t, funds := graph.nodeIdToIndex["A"], graph.nodeIdToIndex["C"], graph.GetBalance("A");
    assert s == 0 && t == 2 && funds == 100.0;
    ExampleMovable();
    var solver := new MinCostMaxFlow(graph);
    solver.Compute("A", "C");
    assert Outcome(EXAMPLE_IDS, ExampleArena(), EXAMPLE_BALANCES, s, t, funds, solver.augmented, solver.bottleneck, solver.totalFlow,
                   graph.edges, graph.balances, solver.transactions, solver.totalCost);
    ExampleAugmentation(solver.augmented, solver.bottleneck, solver.totalFlow, graph.edges, graph.balances,
                        solver.transactions, solver.totalCost);
    flow, cost, log, balances := solver.totalFlow, solver.totalCost, solver.transactions, graph.balances;
  }
}
