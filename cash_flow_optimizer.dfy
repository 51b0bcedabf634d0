/**
 * CashFlowOptimizer: the driver. It owns the graph and the Q-learning agent;
 * optimize() evaluates every (revenue, expense) pair on a throw-away copy of
 * the graph, scores it by the cost of the min-cost flow found there, feeds
 * that to the agent and keeps the best ledger; displayResults() finally
 * applies that ledger to the real balances. The balance update after each
 * simulation is commented out in the program, so the real graph never
 * changes while optimizing, and every pair is judged from the same state.
 */
module Optimizer {
  import opened NodeTypes
  import opened Transactions
  import opened Graphs
  import opened Options
  import Edges
  import JavaStrings
  import Flow
  import States
  import Actions
  import Agent

  /** The factor decreaseExplorationRate is given after every iteration. */
  const DECAY: real := 0.95

  /** The ids of `ids`, in order, whose type is `t`: the revenue or the
      expense list that optimize() collects. */
  function OfType(ids: seq<string>, types: map<string, NodeType>, t: NodeType): (r: seq<string>)
    ensures |r| <= |ids|
  {
    if ids == [] then []
    else
      var id := ids[|ids| - 1];
      var rest := OfType(ids[..|ids| - 1], types, t);
      if id in types && types[id] == t then rest + [id] else rest
  }

  /** The list holds exactly the ids of that type, in their original order. */
  lemma {:induction false} OfTypeMembers(ids: seq<string>, types: map<string, NodeType>, t: NodeType)
    ensures forall id :: id in OfType(ids, types, t) <==> id in ids && id in types && types[id] == t
  {
    if ids != [] {
      var prefix := ids[..|ids| - 1];
      OfTypeMembers(prefix, types, t);
      assert ids == prefix + [ids[|ids| - 1]];
    }
  }

  /** One more id extends each list by that id when it has the list's type. */
  lemma OfTypeStep(ids: seq<string>, types: map<string, NodeType>, i: nat)
    requires i < |ids|
    ensures forall t :: OfType(ids[..i + 1], types, t) ==
                        (if ids[i] in types && types[ids[i]] == t then OfType(ids[..i], types, t) + [ids[i]]
                         else OfType(ids[..i], types, t))
  {
    assert ids[..i + 1][..i] == ids[..i];
  }

  /** Graph.getBalance on a balance map: an absent id reads as 0. */
  function Lookup(balances: map<string, real>, id: string): real
  {
    if id in balances then balances[id] else 0.0
  }

  /** The snapshot taken for a State: each listed id with its balance. */
  function Snap(balances: map<string, real>, ids: seq<string>): (r: map<string, real>)
    ensures r.Keys == set id | id in ids
    ensures forall id :: id in r ==> r[id] == Lookup(balances, id)
  {
    map id | id in ids :: Lookup(balances, id)
  }

  /** The balances after applyTransactionsAndUpdateBalancesToJson: for each
      record in order, its amount leaves the source and joins the destination. */
  function Applied(balances: map<string, real>, ledger: seq<TransactionRecord>): (r: map<string, real>)
  {
    if ledger == [] then balances
    else
      var b := Applied(balances, ledger[..|ledger| - 1]);
      var t := ledger[|ledger| - 1];
      var debited := b[t.sourceNode := Lookup(b, t.sourceNode) - t.amount];
      debited[t.destNode := Lookup(debited, t.destNode) + t.amount]
  }

  /** The sum of the balances of the listed ids. */
  function Total(balances: map<string, real>, ids: seq<string>): real
  {
    if ids == [] then 0.0 else Total(balances, ids[..|ids| - 1]) + Lookup(balances, ids[|ids| - 1])
  }

  predicate Distinct(ids: seq<string>)
  {
    forall i, j :: 0 <= i < j < |ids| ==> ids[i] != ids[j]
  }

  /** Overwriting one balance moves the total by the difference when the id
      is listed once, and not at all when it is not listed. */
  lemma {:induction false} TotalUpdate(balances: map<string, real>, ids: seq<string>, id: string, v: real)
    requires Distinct(ids)
    ensures Total(balances[id := v], ids) == Total(balances, ids) + (if id in ids then v - Lookup(balances, id) else 0.0)
  {
    if ids != [] {
      var prefix := ids[..|ids| - 1];
      assert Distinct(prefix);
      TotalUpdate(balances, prefix, id, v);
      assert ids == prefix + [ids[|ids| - 1]];
      assert id == ids[|ids| - 1] ==> id !in prefix;
    }
  }

  /** Applying a ledger between listed nodes leaves the total unchanged:
      every amount taken from a source is given to a destination. */
  lemma {:induction false} AppliedConserves(balances: map<string, real>, ledger: seq<TransactionRecord>, ids: seq<string>)
    requires Distinct(ids)
    requires forall k :: 0 <= k < |ledger| ==> ledger[k].sourceNode in ids && ledger[k].destNode in ids
    ensures Total(Applied(balances, ledger), ids) == Total(balances, ids)
  {
    if ledger != [] {
      var b := Applied(balances, ledger[..|ledger| - 1]);
      var t := ledger[|ledger| - 1];
      AppliedConserves(balances, ledger[..|ledger| - 1], ids);
      var debited := b[t.sourceNode := Lookup(b, t.sourceNode) - t.amount];
      TotalUpdate(b, ids, t.sourceNode, Lookup(b, t.sourceNode) - t.amount);
      TotalUpdate(debited, ids, t.destNode, Lookup(debited, t.destNode) + t.amount);
    }
  }

  /** A node that no record touches keeps its balance. */
  lemma {:induction false} AppliedUntouched(balances: map<string, real>, ledger: seq<TransactionRecord>, id: string)
    requires forall k :: 0 <= k < |ledger| ==> ledger[k].sourceNode != id && ledger[k].destNode != id
    ensures Lookup(Applied(balances, ledger), id) == Lookup(balances, id)
  {
    if ledger != [] {
      AppliedUntouched(balances, ledger[..|ledger| - 1], id);
    }
  }

  /** One record between two different nodes moves its amount from the
      source to the destination. */
  lemma AppliedOne(balances: map<string, real>, t: TransactionRecord)
    requires t.sourceNode != t.destNode
    ensures Lookup(Applied(balances, [t]), t.sourceNode) == Lookup(balances, t.sourceNode) - t.amount
    ensures Lookup(Applied(balances, [t]), t.destNode) == Lookup(balances, t.destNode) + t.amount
  {
    assert [t][..0] == [];
  }

  /** The actions for one revenue node, one per expense node in order. */
  function Row(revenueId: string, expense: seq<string>): (r: seq<Actions.Action>)
  {
    if expense == [] then [] else Row(revenueId, expense[..|expense| - 1]) + [Actions.Action(revenueId, expense[|expense| - 1])]
  }

  lemma {:induction false} RowMembers(revenueId: string, expense: seq<string>)
    ensures |Row(revenueId, expense)| == |expense|
    ensures forall a :: a in Row(revenueId, expense) <==> a.sourceNodeId == revenueId && a.sinkNodeId in expense
  {
    if expense != [] {
      var prefix := expense[..|expense| - 1];
      RowMembers(revenueId, prefix);
      assert expense == prefix + [expense[|expense| - 1]];
    }
  }

  lemma RowStep(revenueId: string, expense: seq<string>, j: nat)
    requires j < |expense|
    ensures Row(revenueId, expense[..j + 1]) == Row(revenueId, expense[..j]) + [Actions.Action(revenueId, expense[j])]
  {
    assert expense[..j + 1][..j] == expense[..j];
  }

  lemma PairsStep(revenue: seq<string>, expense: seq<string>, i: nat)
    requires i < |revenue|
    ensures Pairs(revenue[..i + 1], expense) == Pairs(revenue[..i], expense) + Row(revenue[i], expense)
  {
    assert revenue[..i + 1][..i] == revenue[..i];
  }

  /** The order in which optimize() visits the pairs: by revenue node, then
      by expense node. */
  function Pairs(revenue: seq<string>, expense: seq<string>): (r: seq<Actions.Action>)
  {
    if revenue == [] then [] else Pairs(revenue[..|revenue| - 1], expense) + Row(revenue[|revenue| - 1], expense)
  }

  lemma OneMoreRow(n: nat, m: nat)
    ensures (n + 1) * m == n * m + m
  {
  }

  /** One pair per revenue node and expense node. */
  lemma {:induction false} PairsLength(revenue: seq<string>, expense: seq<string>)
    ensures |Pairs(revenue, expense)| == |revenue| * |expense|
  {
    if revenue != [] {
      var prefix := revenue[..|revenue| - 1];
      var row := Row(revenue[|revenue| - 1], expense);
      PairsLength(prefix, expense);
      RowMembers(revenue[|revenue| - 1], expense);
      assert Pairs(revenue, expense) == Pairs(prefix, expense) + row;
      assert |Pairs(revenue, expense)| == |prefix| * |expense| + |expense|;
      OneMoreRow(|prefix|, |expense|);
    }
  }

  /** Every pair is visited, and only pairs are. */
  lemma {:induction false} PairsMembers(revenue: seq<string>, expense: seq<string>)
    ensures forall a :: a in Pairs(revenue, expense) <==> a.sourceNodeId in revenue && a.sinkNodeId in expense
  {
    if revenue != [] {
      var prefix := revenue[..|revenue| - 1];
      var r := revenue[|revenue| - 1];
      PairsMembers(prefix, expense);
      RowMembers(r, expense);
      assert revenue == prefix + [r];
    }
  }

  /** Whatever a computation leaves, its balances are the starting ones
      overwritten along its log, and its cost is the log's charge. */
  lemma OutcomeOverwrites(ids: map<nat, string>, edges0: seq<Edges.Edge>, balances0: map<string, real>,
                          s: nat, t: nat, funds: real, path: seq<nat>, b: real, flow: real,
                          edges: seq<Edges.Edge>, balances: map<string, real>, log: seq<TransactionRecord>, cost: real)
    requires Flow.Outcome(ids, edges0, balances0, s, t, funds, path, b, flow, edges, balances, log, cost)
    ensures balances == Flow.Overwrite(balances0, log) && cost == TotalCharge(log)
  {
    if path != [] {
      assert [] + Flow.Ledger(ids, edges0, path, flow) == Flow.Ledger(ids, edges0, path, flow);
    }
  }

  /** A ledger the solver can log from `revenueId` to `expenseId`: empty,
      or a chain of records between listed ids that leaves the revenue
      node, ends at the expense node, never enters a node twice and moves
      the same positive amount, at most the revenue node's funds, on every
      record. */
  ghost predicate Routed(ledger: seq<TransactionRecord>, revenueId: string, expenseId: string, ids: seq<string>, funds: real)
  {
    ledger != [] ==>
      0.0 < ledger[0].amount <= funds && Flow.Chained(ledger, ledger[0].amount)
      && ledger[0].sourceNode == revenueId && ledger[|ledger| - 1].destNode == expenseId
      && forall k :: 0 <= k < |ledger| ==> ledger[k].sourceNode in ids && ledger[k].destNode in ids
  }

  /** Whatever a computation from s to t logs is routed from s's id to t's
      id between the graph's ids, within the source's funds. */
  lemma OutcomeRouted(toIndex: map<string, nat>, ids: map<nat, string>, count: nat, listed: seq<string>,
                      edges0: seq<Edges.Edge>, balances0: map<string, real>,
                      s: nat, t: nat, funds: real, path: seq<nat>, b: real, flow: real,
                      edges: seq<Edges.Edge>, balances: map<string, real>, log: seq<TransactionRecord>, cost: real)
    requires IdMaps(toIndex, ids, count) && s in ids && t in ids
    requires forall id :: id in listed <==> id in toIndex
    requires Flow.Outcome(ids, edges0, balances0, s, t, funds, path, b, flow, edges, balances, log, cost)
    ensures Routed(log, ids[s], ids[t], listed, funds)
  {
    if path != [] {
      var ledger := Flow.Ledger(ids, edges0, path, flow);
      assert log == [] + ledger == ledger;
      Flow.LedgerOfPathIsChained(toIndex, ids, count, edges0, s, t, path, flow);
      Flow.LedgerRecords(ids, edges0, path, flow);
      forall k | 0 <= k < |log| ensures log[k].sourceNode in listed && log[k].destNode in listed {
        var e := edges0[path[k]];
        assert ids[e.source] in toIndex && ids[e.dest] in toIndex;
      }
    }
  }

  /** The ids of a valid graph are listed once each. */
  lemma IdsDistinct(g: Graph)
    requires g.Valid()
    ensures Distinct(g.Ids())
  {
    var ids := g.Ids();
    forall i, j | 0 <= i < j < |ids| ensures ids[i] != ids[j] {
      assert g.nodeIdToIndex[ids[i]] == i && g.nodeIdToIndex[ids[j]] == j;
    }
  }

  /** The balances a copy of a graph starts with are its snapshot. */
  lemma CopiedBalances(toIndex: map<string, nat>, balances: map<string, real>, ids: seq<string>)
    requires toIndex.Keys <= balances.Keys
    requires forall id :: id in ids <==> id in toIndex
    ensures (map id | id in toIndex :: balances[id]) == Snap(balances, ids)
  {
  }

  /** The balance loop that builds a State: every listed id with its balance in `g`. */
  method Snapshot(g: Graph, ids: seq<string>) returns (s: States.State)
    ensures s == States.State(Snap(g.balances, ids))
  {
    var balances := map[];
    var i := 0;
    while i < |ids|
      invariant 0 <= i <= |ids|
      invariant balances == Snap(g.balances, ids[..i])
    {
      assert ids[..i + 1] == ids[..i] + [ids[i]];
      balances := balances[ids[i] := g.GetBalance(ids[i])];
      i := i + 1;
    }
    assert ids[..i] == ids;
    s := States.State(balances);
  }

  /** One simulation: min-cost flow from the revenue node to the expense
      node on a copy of `g`. The cost is the charge of the ledger it logs,
      the ledger is routed from the revenue node to the expense node, the
      next state is the current snapshot overwritten along that ledger, and
      a revenue node without positive funds moves nothing. */
  method Simulate(g: Graph, revenueId: string, expenseId: string)
    returns (flowCost: real, ledger: seq<TransactionRecord>, next: States.State)
    requires g.Valid() && revenueId in g.nodeIdToIndex && expenseId in g.nodeIdToIndex
    ensures flowCost == TotalCharge(ledger)
    ensures next == States.State(Snap(Flow.Overwrite(Snap(g.balances, g.Ids()), ledger), g.Ids()))
    ensures g.GetBalance(revenueId) <= 0.0 ==> ledger == [] && flowCost == 0.0
    ensures Routed(ledger, revenueId, expenseId, g.Ids(), g.GetBalance(revenueId))
  {
    var ids := g.Ids();
    var temp := g.Copy();
    CopiedBalances(g.nodeIdToIndex, g.balances, ids);
    ghost var edges0 := temp.edges;
    var mcmf := new Flow.MinCostMaxFlow(temp);
    mcmf.Compute(revenueId, expenseId);
    flowCost := mcmf.totalCost;
    ledger := mcmf.transactions;
    var s, t := g.nodeIdToIndex[revenueId], g.nodeIdToIndex[expenseId];
    OutcomeOverwrites(g.indexToNodeId, edges0, Snap(g.balances, ids), s, t, g.GetBalance(revenueId),
                      mcmf.augmented, mcmf.bottleneck, mcmf.totalFlow, temp.edges, temp.balances, ledger, flowCost);
    if g.GetBalance(revenueId) <= 0.0 {
      Flow.NoFundsNoFlow(g.indexToNodeId, edges0, Snap(g.balances, ids), s, t, g.GetBalance(revenueId),
                         mcmf.augmented, mcmf.bottleneck, mcmf.totalFlow, temp.edges, temp.balances, ledger, flowCost);
    }
    OutcomeRouted(g.nodeIdToIndex, g.indexToNodeId, g.nodeCount, ids, edges0, Snap(g.balances, ids), s, t, g.GetBalance(revenueId),
                  mcmf.augmented, mcmf.bottleneck, mcmf.totalFlow, temp.edges, temp.balances, ledger, flowCost);
    next := Snapshot(temp, ids);
  }

  /** One evaluation as optimize() makes it: the pair tried, the state the
      agent saw before and after, the flow cost and the ledger logged. */
  datatype PairRun = PairRun(action: Actions.Action, current: States.State, next: States.State,
                             cost: real, ledger: seq<TransactionRecord>)

  /** What an evaluation on a graph with these balances and ids is bound to:
      the current state is the graph's snapshot, the cost is the ledger's
      charge, the ledger is routed along the pair within the revenue node's
      funds, a revenue node without positive funds moves nothing, and the
      next state is the one the simulation leaves (`Followed`). */
  ghost predicate Judged(run: PairRun, balances: map<string, real>, ids: seq<string>)
  {
    run.current == States.State(Snap(balances, ids))
    && run.cost == TotalCharge(run.ledger)
    && Routed(run.ledger, run.action.sourceNodeId, run.action.sinkNodeId, ids, Lookup(balances, run.action.sourceNodeId))
    && (Lookup(balances, run.action.sourceNodeId) <= 0.0 ==> run.ledger == [] && run.cost == 0.0)
    && Followed(run, balances, ids)
  }

  /** The state the agent is shown after an evaluation: the snapshot
      overwritten along the ledger the simulation logged. */
  ghost predicate Followed(run: PairRun, balances: map<string, real>, ids: seq<string>)
  {
    run.next == States.State(Snap(Flow.Overwrite(Snap(balances, ids), run.ledger), ids))
  }

  /** Every evaluation of the list is judged on the same graph. */
  ghost predicate AllJudged(run: seq<PairRun>, balances: map<string, real>, ids: seq<string>)
  {
    forall k :: 0 <= k < |run| ==> Judged(run[k], balances, ids)
  }

  lemma AllJudgedAppend(run: seq<PairRun>, more: seq<PairRun>, balances: map<string, real>, ids: seq<string>)
    requires AllJudged(run, balances, ids) && AllJudged(more, balances, ids)
    ensures AllJudged(run + more, balances, ids)
  {
    forall k | 0 <= k < |run + more| ensures Judged((run + more)[k], balances, ids) {
      if k < |run| {
        assert (run + more)[k] == run[k];
      } else {
        assert (run + more)[k] == more[k - |run|];
      }
    }
  }

  /** The reward an evaluation earns: minus its flow cost, a cheaper flow
      being better. */
  function Reward(run: PairRun): real
  {
    -run.cost
  }

  /** The Q-table after training on one evaluation: updateQValue with a
      reward of minus the flow cost and the evaluated action as the only
      next action. */
  function Trained(q: map<string, real>, rate: real, discount: real, run: PairRun): map<string, real>
  {
    Agent.Updated(q, run.current, run.action, rate, discount, Reward(run), run.next, [run.action])
  }

  /** The Q-table after training on each evaluation of the list in turn. */
  function TrainedAll(q: map<string, real>, rate: real, discount: real, run: seq<PairRun>): map<string, real>
    decreases |run|
  {
    if run == [] then q else Trained(TrainedAll(q, rate, discount, run[..|run| - 1]), rate, discount, run[|run| - 1])
  }

  /** Training on two lists in a row is training on their concatenation. */
  lemma {:induction false} TrainedAllAppend(q: map<string, real>, rate: real, discount: real, run: seq<PairRun>, more: seq<PairRun>)
    ensures TrainedAll(q, rate, discount, run + more) == TrainedAll(TrainedAll(q, rate, discount, run), rate, discount, more)
    decreases |more|
  {
    if more == [] {
      assert run + more == run;
    } else {
      var more' := more[..|more| - 1];
      assert (run + more)[..|run + more| - 1] == run + more';
      TrainedAllAppend(q, rate, discount, run, more');
    }
  }

  /** The evaluations of every iteration, one iteration after another. */
  function Flattened(runs: seq<seq<PairRun>>): seq<PairRun>
    decreases |runs|
  {
    if runs == [] then [] else Flattened(runs[..|runs| - 1]) + runs[|runs| - 1]
  }

  /** Training through one more iteration continues from the table the
      earlier iterations left. */
  lemma TrainedFlattened(q: map<string, real>, rate: real, discount: real, runs: seq<seq<PairRun>>, run: seq<PairRun>)
    ensures TrainedAll(q, rate, discount, Flattened(runs + [run]))
            == TrainedAll(TrainedAll(q, rate, discount, Flattened(runs)), rate, discount, run)
  {
    assert (runs + [run])[..|runs|] == runs;
    TrainedAllAppend(q, rate, discount, Flattened(runs), run);
  }

  /** The pairs of a list of evaluations, in order. */
  function ActionsOf(run: seq<PairRun>): (r: seq<Actions.Action>)
    ensures |r| == |run|
  {
    if run == [] then [] else ActionsOf(run[..|run| - 1]) + [run[|run| - 1].action]
  }

  /** The iteration cost: the flow costs of a list of evaluations, added up in order. */
  function RunCost(run: seq<PairRun>): real
  {
    if run == [] then 0.0 else RunCost(run[..|run| - 1]) + run[|run| - 1].cost
  }

  lemma {:induction false} RunAppend(a: seq<PairRun>, b: seq<PairRun>)
    ensures ActionsOf(a + b) == ActionsOf(a) + ActionsOf(b)
    ensures RunCost(a + b) == RunCost(a) + RunCost(b)
    decreases |b|
  {
    if b == [] {
      assert a + b == a;
    } else {
      var b' := b[..|b| - 1];
      assert (a + b)[..|a + b| - 1] == a + b';
      RunAppend(a, b');
    }
  }

  /** The retention rule for one evaluation: on the last iteration, or when
      its cost beats the best so far, it becomes the best; otherwise the
      best stays. */
  ghost predicate Retained(last: bool, cost0: real, ledger0: seq<TransactionRecord>, run: PairRun,
                           cost: real, ledger: seq<TransactionRecord>)
  {
    if last || run.cost < cost0 then cost == run.cost && ledger == run.ledger
    else cost == cost0 && ledger == ledger0
  }

  /** `cost` is at most every cost of the list. */
  ghost predicate Below(cost: real, run: seq<PairRun>)
    decreases |run|
  {
    run != [] ==> Below(cost, run[..|run| - 1]) && cost <= run[|run| - 1].cost
  }

  lemma {:induction false} BelowLower(cost: real, lower: real, run: seq<PairRun>)
    requires Below(cost, run) && lower <= cost
    ensures Below(lower, run)
    decreases |run|
  {
    if run != [] {
      BelowLower(cost, lower, run[..|run| - 1]);
    }
  }

  lemma {:induction false} BelowAppend(cost: real, run: seq<PairRun>, more: seq<PairRun>)
    requires Below(cost, run) && Below(cost, more)
    ensures Below(cost, run + more)
    decreases |more|
  {
    if more == [] {
      assert run + more == run;
    } else {
      var more' := more[..|more| - 1];
      assert (run + more)[..|run + more| - 1] == run + more';
      BelowAppend(cost, run, more');
    }
  }

  /** The retention rule over a list of evaluations. On the last iteration
      the best is the last evaluation; before it, the best cost never rises
      and lies at or below every cost seen. */
  ghost predicate Kept(last: bool, cost0: real, ledger0: seq<TransactionRecord>, run: seq<PairRun>,
                       cost: real, ledger: seq<TransactionRecord>)
  {
    (run == [] ==> cost == cost0 && ledger == ledger0)
    && (last && run != [] ==> cost == run[|run| - 1].cost && ledger == run[|run| - 1].ledger)
    && (!last ==> cost <= cost0 && Below(cost, run))
  }

  lemma RetainedStep(last: bool, cost0: real, ledger0: seq<TransactionRecord>, run: seq<PairRun>,
                     cost1: real, ledger1: seq<TransactionRecord>, p: PairRun, cost: real, ledger: seq<TransactionRecord>)
    requires Kept(last, cost0, ledger0, run, cost1, ledger1)
    requires Retained(last, cost1, ledger1, p, cost, ledger)
    ensures Kept(last, cost0, ledger0, run + [p], cost, ledger)
  {
    assert (run + [p])[..|run|] == run;
    if !last && p.cost < cost1 {
      BelowLower(cost1, cost, run);
    }
  }

  /** The retention rule over two lists of evaluations in a row. */
  lemma RetainedAppend(last: bool, cost0: real, ledger0: seq<TransactionRecord>, run: seq<PairRun>,
                       cost1: real, ledger1: seq<TransactionRecord>, more: seq<PairRun>,
                       cost: real, ledger: seq<TransactionRecord>)
    requires Kept(last, cost0, ledger0, run, cost1, ledger1)
    requires Kept(last, cost1, ledger1, more, cost, ledger)
    ensures Kept(last, cost0, ledger0, run + more, cost, ledger)
  {
    if more == [] {
      assert run + more == run;
    } else {
      assert (run + more)[|run + more| - 1] == more[|more| - 1];
      if !last {
        BelowLower(cost1, cost, run);
        BelowAppend(cost, run, more);
      }
    }
  }

  /** What a stretch of evaluations leaves, from a best cost `cost0`, a
      ledger `ledger0` and a Q-table `q0`: every evaluation is judged on
      the same graph, the best follows the retention rule, the table is
      `q0` trained on every evaluation in order, and it is non-empty once
      it was or once an evaluation has been learnt. */
  ghost predicate Trail(last: bool, cost0: real, ledger0: seq<TransactionRecord>, q0: map<string, real>, rate: real, discount: real,
                       balances: map<string, real>, ids: seq<string>,
                       run: seq<PairRun>, cost: real, ledger: seq<TransactionRecord>, q: map<string, real>)
  {
    AllJudged(run, balances, ids)
    && Kept(last, cost0, ledger0, run, cost, ledger)
    && q == TrainedAll(q0, rate, discount, run)
    && (q0 != map[] || run != [] ==> q != map[])
  }

  /** One more evaluation, trained on and passed through the retention rule, extends the trail. */
  lemma TrailStep(last: bool, cost0: real, ledger0: seq<TransactionRecord>, q0: map<string, real>,
                  balances: map<string, real>, ids: seq<string>,
                  run: seq<PairRun>, cost1: real, ledger1: seq<TransactionRecord>, q1: map<string, real>,
                  rate: real, discount: real, p: PairRun, cost: real, ledger: seq<TransactionRecord>, q: map<string, real>)
    requires Trail(last, cost0, ledger0, q0, rate, discount, balances, ids, run, cost1, ledger1, q1)
    requires Judged(p, balances, ids) && q == Trained(q1, rate, discount, p)
    requires Retained(last, cost1, ledger1, p, cost, ledger)
    ensures Trail(last, cost0, ledger0, q0, rate, discount, balances, ids, run + [p], cost, ledger, q)
    ensures ActionsOf(run + [p]) == ActionsOf(run) + [p.action] && RunCost(run + [p]) == RunCost(run) + p.cost
  {
    assert (run + [p])[..|run|] == run;
    RetainedStep(last, cost0, ledger0, run, cost1, ledger1, p, cost, ledger);
    assert Agent.Key(p.current, p.action) in q;
  }

  /** The next pair of a row, evaluated on the same graph, extends the
      row's trail, its pairs and its cost. */
  lemma RowAdvance(last: bool, cost0: real, ledger0: seq<TransactionRecord>, q0: map<string, real>,
                   balances: map<string, real>, ids: seq<string>,
                   row: seq<PairRun>, cost1: real, ledger1: seq<TransactionRecord>, q1: map<string, real>,
                   rate: real, discount: real, p: PairRun, cost: real, ledger: seq<TransactionRecord>, q: map<string, real>,
                   revenueId: string, expense: seq<string>, j: nat, rowCost: real, row': seq<PairRun>, rowCost': real)
    requires j < |expense| && ActionsOf(row) == Row(revenueId, expense[..j]) && rowCost == RunCost(row)
    requires Trail(last, cost0, ledger0, q0, rate, discount, balances, ids, row, cost1, ledger1, q1)
    requires Judged(p, balances, ids) && p.action == Actions.Action(revenueId, expense[j])
    requires q == Trained(q1, rate, discount, p) && Retained(last, cost1, ledger1, p, cost, ledger)
    requires row' == row + [p] && rowCost' == rowCost + p.cost
    ensures Trail(last, cost0, ledger0, q0, rate, discount, balances, ids, row', cost, ledger, q)
    ensures ActionsOf(row') == Row(revenueId, expense[..j + 1]) && rowCost' == RunCost(row')
  {
    TrailStep(last, cost0, ledger0, q0, balances, ids, row, cost1, ledger1, q1, rate, discount, p, cost, ledger, q);
    RowStep(revenueId, expense, j);
  }

  /** A row's trail, started where the iteration's trail so far ends, extends it. */
  lemma TrailAppend(last: bool, cost0: real, ledger0: seq<TransactionRecord>, q0: map<string, real>, rate: real, discount: real,
                    balances: map<string, real>, ids: seq<string>,
                    run: seq<PairRun>, cost1: real, ledger1: seq<TransactionRecord>, q1: map<string, real>,
                    more: seq<PairRun>, cost: real, ledger: seq<TransactionRecord>, q: map<string, real>)
    requires Trail(last, cost0, ledger0, q0, rate, discount, balances, ids, run, cost1, ledger1, q1)
    requires Trail(last, cost1, ledger1, q1, rate, discount, balances, ids, more, cost, ledger, q)
    ensures Trail(last, cost0, ledger0, q0, rate, discount, balances, ids, run + more, cost, ledger, q)
    ensures ActionsOf(run + more) == ActionsOf(run) + ActionsOf(more) && RunCost(run + more) == RunCost(run) + RunCost(more)
  {
    AllJudgedAppend(run, more, balances, ids);
    RetainedAppend(last, cost0, ledger0, run, cost1, ledger1, more, cost, ledger);
    RunAppend(run, more);
    TrainedAllAppend(q0, rate, discount, run, more);
  }

  /** What an optimisation run leaves: one list of evaluations and one cost
      per iteration, each list covering every pair in order on the same
      graph, and the best ledger taken from the last evaluation. */
  ghost predicate Ran(iterations: int, revenue: seq<string>, expense: seq<string>,
                      balances: map<string, real>, ids: seq<string>,
                      runs: seq<seq<PairRun>>, costHistory: seq<real>, cost: real, ledger: seq<TransactionRecord>)
  {
    |runs| == iterations && |costHistory| == iterations
    && Each(revenue, expense, balances, ids, runs, costHistory)
    && Final(runs, cost, ledger)
  }

  /** Every iteration so far covered all pairs in order on the same graph,
      and its recorded cost is the sum of its flow costs. */
  ghost predicate Each(revenue: seq<string>, expense: seq<string>, balances: map<string, real>, ids: seq<string>,
                       runs: seq<seq<PairRun>>, costHistory: seq<real>)
    decreases |runs|
  {
    |costHistory| == |runs|
    && (runs != [] ==>
          Each(revenue, expense, balances, ids, runs[..|runs| - 1], costHistory[..|runs| - 1])
          && Covers(revenue, expense, balances, ids, runs[|runs| - 1], costHistory[|runs| - 1]))
  }

  /** One iteration: every pair in order, judged on the graph, at the given cost. */
  ghost predicate Covers(revenue: seq<string>, expense: seq<string>, balances: map<string, real>, ids: seq<string>,
                         run: seq<PairRun>, cost: real)
  {
    ActionsOf(run) == Pairs(revenue, expense) && AllJudged(run, balances, ids) && cost == RunCost(run)
  }

  /** Each iteration of a run covers every pair. */
  lemma {:induction false} EachEvery(revenue: seq<string>, expense: seq<string>, balances: map<string, real>, ids: seq<string>,
                                     runs: seq<seq<PairRun>>, costHistory: seq<real>)
    requires Each(revenue, expense, balances, ids, runs, costHistory)
    ensures forall i :: 0 <= i < |runs| ==> Covers(revenue, expense, balances, ids, runs[i], costHistory[i])
    decreases |runs|
  {
    if runs != [] {
      var n := |runs| - 1;
      EachEvery(revenue, expense, balances, ids, runs[..n], costHistory[..n]);
      forall i | 0 <= i < |runs| ensures Covers(revenue, expense, balances, ids, runs[i], costHistory[i]) {
        if i < n {
          assert runs[..n][i] == runs[i] && costHistory[..n][i] == costHistory[i];
        }
      }
    }
  }

  /** The best cost and ledger are those of the last evaluation of the last iteration. */
  ghost predicate Final(runs: seq<seq<PairRun>>, cost: real, ledger: seq<TransactionRecord>)
  {
    runs != [] && Ends(runs[|runs| - 1], cost, ledger)
  }

  /** The cost and ledger are those of the last evaluation of the list. */
  ghost predicate Ends(run: seq<PairRun>, cost: real, ledger: seq<TransactionRecord>)
  {
    run != [] && cost == run[|run| - 1].cost && ledger == run[|run| - 1].ledger
  }

  /** A non-empty trail ends with trained q-values and, on the last
      iteration, with the best ledger taken from its last evaluation. */
  lemma Closed(last: bool, cost0: real, ledger0: seq<TransactionRecord>, q0: map<string, real>, rate: real, discount: real,
               balances: map<string, real>, ids: seq<string>,
               run: seq<PairRun>, cost: real, ledger: seq<TransactionRecord>, q: map<string, real>)
    requires Trail(last, cost0, ledger0, q0, rate, discount, balances, ids, run, cost, ledger, q) && run != []
    ensures q != map[]
    ensures last ==> Ends(run, cost, ledger)
  {
  }

  /** An iteration that ends with the best ledger ends the run with it. */
  lemma FinalAppend(runs: seq<seq<PairRun>>, run: seq<PairRun>, cost: real, ledger: seq<TransactionRecord>)
    requires Ends(run, cost, ledger)
    ensures Final(runs + [run], cost, ledger)
  {
    assert (runs + [run])[|runs|] == run;
  }

  /** The best ledger an optimisation run ends with moves money between
      listed ids only, so applying it keeps the total of their balances. */
  lemma FinalRouted(revenue: seq<string>, expense: seq<string>, balances: map<string, real>, ids: seq<string>,
                    runs: seq<seq<PairRun>>, costHistory: seq<real>, cost: real, ledger: seq<TransactionRecord>)
    requires Each(revenue, expense, balances, ids, runs, costHistory) && Final(runs, cost, ledger) && Distinct(ids)
    ensures forall k :: 0 <= k < |ledger| ==> ledger[k].sourceNode in ids && ledger[k].destNode in ids
    ensures Total(Applied(balances, ledger), ids) == Total(balances, ids)
  {
    EachEvery(revenue, expense, balances, ids, runs, costHistory);
    var run := runs[|runs| - 1];
    assert Judged(run[|run| - 1], balances, ids);
    AppliedConserves(balances, ledger, ids);
  }

  /** With a revenue node and an expense node there is a pair to visit. */
  lemma PairsNonEmpty(revenue: seq<string>, expense: seq<string>)
    requires revenue != [] && expense != []
    ensures |Pairs(revenue, expense)| > 0
  {
    RowMembers(revenue[|revenue| - 1], expense);
  }

  lemma EachAppend(revenue: seq<string>, expense: seq<string>, balances: map<string, real>, ids: seq<string>,
                   runs: seq<seq<PairRun>>, costHistory: seq<real>, run: seq<PairRun>, cost: real)
    requires Each(revenue, expense, balances, ids, runs, costHistory)
    requires Covers(revenue, expense, balances, ids, run, cost)
    ensures Each(revenue, expense, balances, ids, runs + [run], costHistory + [cost])
  {
    assert (runs + [run])[..|runs|] == runs;
    assert (costHistory + [cost])[..|runs|] == costHistory;
  }

  class CashFlowOptimizer {
    const graph: Graph
    const agent: Agent.RLAgent
    var bestTransactions: seq<TransactionRecord>
    var bestTotalCost: real
    var hasRun: bool
    /** The cost of each iteration of the last optimisation run. */
    var costHistory: seq<real>
    /** The evaluations of the last optimisation run, one list per iteration. */
    ghost var runs: seq<seq<PairRun>>

    ghost predicate Valid()
      reads graph
    {
      graph.Valid()
    }

    /** An empty graph, an agent with learning rate 0.1, discount 0.9 and
        exploration rate 0.3, no best ledger yet and the largest double as
        the best cost. */
    constructor()
      ensures Valid() && fresh(graph) && fresh(agent)
      ensures graph.nodeIdToIndex == map[] && graph.balances == map[] && graph.edges == []
      ensures agent.learningRate == 0.1 && agent.discountFactor == 0.9 && agent.explorationRate == 0.3
      ensures agent.qValues == map[]
      ensures bestTransactions == [] && bestTotalCost == JavaStrings.MAX_DOUBLE
      ensures !hasRun && costHistory == [] && runs == []
    {
      graph := new Graph();
      agent := new Agent.RLAgent(0.1, 0.9, 0.3);
      bestTransactions := [];
      bestTotalCost := JavaStrings.MAX_DOUBLE;
      hasRun := false;
      costHistory := [];
      runs := [];
    }

    /** addNode: registers a new id with its type and balance; a known id is left as it is. */
    method AddNode(nodeId: string, nodeType: NodeType, balance: real)
      requires Valid()
      modifies graph
      ensures Valid()
      ensures nodeId in old(graph.nodeIdToIndex) ==> unchanged(graph)
      ensures nodeId !in old(graph.nodeIdToIndex) ==>
        graph.nodeIdToIndex == old(graph.nodeIdToIndex)[nodeId := old(graph.nodeCount)]
        && graph.nodeTypes == old(graph.nodeTypes)[nodeId := nodeType]
        && graph.balances == old(graph.balances)[nodeId := balance]
        && graph.edges == old(graph.edges)
    {
      var _ := graph.AddNode(nodeId, nodeType, balance);
    }

    /** addEdge: true exactly when both ids are known, and then the edge and its twin are added. */
    method AddEdge(sourceId: string, destId: string, capacity: real, cost: real) returns (ok: bool)
      requires Valid()
      modifies graph
      ensures Valid()
      ensures ok <==> sourceId in graph.nodeIdToIndex && destId in graph.nodeIdToIndex
      ensures graph.nodeIdToIndex == old(graph.nodeIdToIndex) && graph.balances == old(graph.balances)
      ensures graph.nodeTypes == old(graph.nodeTypes)
      ensures !ok ==> graph.edges == old(graph.edges)
      ensures ok ==>
        graph.edges == old(graph.edges) + Twins(graph.nodeIdToIndex[sourceId], graph.nodeIdToIndex[destId], capacity, cost, |old(graph.edges)|)
    {
      ok := graph.AddEdge(sourceId, destId, capacity, cost);
    }

    /** The first loop of optimize(): the revenue and the expense ids, in id order. */
    method Classify() returns (revenue: seq<string>, expense: seq<string>)
      requires Valid()
      ensures revenue == OfType(graph.Ids(), graph.nodeTypes, Revenue)
      ensures expense == OfType(graph.Ids(), graph.nodeTypes, Expense)
    {
      var ids := graph.Ids();
      revenue, expense := [], [];
      var i := 0;
      while i < |ids|
        invariant 0 <= i <= |ids|
        invariant revenue == OfType(ids[..i], graph.nodeTypes, Revenue)
        invariant expense == OfType(ids[..i], graph.nodeTypes, Expense)
      {
        OfTypeStep(ids, graph.nodeTypes, i);
        var t := graph.GetNodeType(ids[i]);
        if t == Some(Revenue) {
          revenue := revenue + [ids[i]];
        } else if t == Some(Expense) {
          expense := expense + [ids[i]];
        }
        i := i + 1;
      }
      assert ids[..i] == ids;
    }
  
    /** What one pair's evaluation reads: the state the agent sees, the
        action it selects from the one-element list (so that action: the
        program's null check always passes), and a simulation of that pair
        on a copy of the graph. Nothing changes. */
    method Observe(revenueId: string, expenseId: string, coin: real, draw: nat) returns (run: PairRun)
      requires Valid() && revenueId in graph.nodeIdToIndex && expenseId in graph.nodeIdToIndex
      ensures run.action == Actions.Action(revenueId, expenseId)
      ensures Judged(run, graph.balances, graph.Ids()) && Followed(run, graph.balances, graph.Ids())
    {
      var ids := graph.Ids();
      var current := Snapshot(graph, ids);
      var action := Actions.Action(revenueId, expenseId);
      var selected := agent.SelectAction(current, [action], coin, draw).value;
      var flowCost, ledger, next := Simulate(graph, selected.sourceNodeId, selected.sinkNodeId);
      run := PairRun(selected, current, next, flowCost, ledger);
    }

    /** The body of optimize()'s pair loop: the pair is observed, the agent
        learns from a reward of minus the flow cost, and the retention rule
        decides whether the ledger becomes the best one. The graph itself is
        left as it was. */
    method EvaluatePair(revenueId: string, expenseId: string, last: bool, coin: real, draw: nat)
      returns (run: PairRun)
      requires Valid() && revenueId in graph.nodeIdToIndex && expenseId in graph.nodeIdToIndex
      modifies this, agent
      ensures Valid()
      ensures run.action == Actions.Action(revenueId, expenseId)
      ensures Judged(run, graph.balances, graph.Ids()) && Followed(run, graph.balances, graph.Ids())
      ensures agent.qValues == Trained(old(agent.qValues), agent.learningRate, agent.discountFactor, run)
      ensures agent.explorationRate == old(agent.explorationRate)
      ensures Retained(last, old(bestTotalCost), old(bestTransactions), run, bestTotalCost, bestTransactions)
      ensures hasRun == old(hasRun) && costHistory == old(costHistory) && runs == old(runs)
    {
      ghost var balances, ids := graph.balances, graph.Ids();
      run := Observe(revenueId, expenseId, coin, draw);
      ghost var seen := Judged(run, balances, ids) && Followed(run, balances, ids);
      assert seen;
      Learn(run);
      Retain(last, run.cost, run.ledger);
      assert graph.balances == balances && graph.Ids() == ids;
      assert seen;
    }

    /** The next pair of a row evaluated on top of the row's trail so far:
        the trail and the row cost grow by that pair's run. */
    method Advance(revenueId: string, expense: seq<string>, j: nat, last: bool, coin: real, draw: nat,
                   ghost cost0: real, ghost ledger0: seq<TransactionRecord>, ghost q0: map<string, real>,
                   ghost balances: map<string, real>, ghost ids: seq<string>, rowCost: real, ghost row: seq<PairRun>)
      returns (rowCost': real, ghost row': seq<PairRun>)
      requires Valid() && revenueId in graph.nodeIdToIndex && j < |expense| && expense[j] in graph.nodeIdToIndex
      requires graph.balances == balances && graph.Ids() == ids
      requires Trail(last, cost0, ledger0, q0, agent.learningRate, agent.discountFactor, balances, ids, row, bestTotalCost, bestTransactions, agent.qValues)
      requires ActionsOf(row) == Row(revenueId, expense[..j]) && rowCost == RunCost(row)
      modifies this, agent
      ensures Valid() && graph.balances == balances && graph.Ids() == ids
      ensures Trail(last, cost0, ledger0, q0, agent.learningRate, agent.discountFactor, balances, ids, row', bestTotalCost, bestTransactions, agent.qValues)
      ensures ActionsOf(row') == Row(revenueId, expense[..j + 1]) && rowCost' == RunCost(row')
      ensures agent.explorationRate == old(agent.explorationRate)
      ensures hasRun == old(hasRun) && costHistory == old(costHistory) && runs == old(runs)
    {
      ghost var cost1, ledger1, q1 := bestTotalCost, bestTransactions, agent.qValues;
      var run := EvaluatePair(revenueId, expense[j], last, coin, draw);
      rowCost', row' := rowCost + run.cost, row + [run];
      RowAdvance(last, cost0, ledger0, q0, balances, ids, row, cost1, ledger1, q1, agent.learningRate, agent.discountFactor,
                 run, bestTotalCost, bestTransactions, agent.qValues, revenueId, expense, j, rowCost, row', rowCost');
    }

    /** The agent learns from one evaluation, with a reward of minus its flow cost. */
    method Learn(run: PairRun)
      modifies agent
      ensures agent.qValues == Trained(old(agent.qValues), agent.learningRate, agent.discountFactor, run)
      ensures agent.explorationRate == old(agent.explorationRate)
    {
      agent.UpdateQValue(run.current, run.action, Reward(run), run.next, [run.action]);
    }

    /** The retention rule: "if (i == iterations - 1 || flowCost < bestTotalCost)". */
    method Retain(last: bool, flowCost: real, ledger: seq<TransactionRecord>)
      modifies this
      ensures last || flowCost < old(bestTotalCost) ==> bestTotalCost == flowCost && bestTransactions == ledger
      ensures !(last || flowCost < old(bestTotalCost)) ==> bestTotalCost == old(bestTotalCost) && bestTransactions == old(bestTransactions)
      ensures hasRun == old(hasRun) && costHistory == old(costHistory) && runs == old(runs)
    {
      if last || flowCost < bestTotalCost {
        bestTotalCost := flowCost;
        bestTransactions := ledger;
      }
    }
  
    /** The inner pair loop of optimize(): one revenue node with every
        expense node, in order. */
    method EvaluateRow(revenueId: string, expense: seq<string>, last: bool, coin: real, draw: nat)
      returns (rowCost: real, ghost row: seq<PairRun>)
      requires Valid() && revenueId in graph.nodeIdToIndex
      requires forall j :: 0 <= j < |expense| ==> expense[j] in graph.nodeIdToIndex
      modifies this, agent
      ensures Valid()
      ensures ActionsOf(row) == Row(revenueId, expense) && rowCost == RunCost(row)
      ensures Trail(last, old(bestTotalCost), old(bestTransactions), old(agent.qValues), agent.learningRate, agent.discountFactor, graph.balances, graph.Ids(),
                    row, bestTotalCost, bestTransactions, agent.qValues)
      ensures agent.explorationRate == old(agent.explorationRate)
      ensures hasRun == old(hasRun) && costHistory == old(costHistory) && runs == old(runs)
    {
      ghost var balances, ids := graph.balances, graph.Ids();
      ghost var cost0, ledger0, q0 := bestTotalCost, bestTransactions, agent.qValues;
      rowCost, row := 0.0, [];
      var j := 0;
      while j < |expense|
        invariant 0 <= j <= |expense|
        invariant ActionsOf(row) == Row(revenueId, expense[..j]) && rowCost == RunCost(row)
        invariant Trail(last, cost0, ledger0, q0, agent.learningRate, agent.discountFactor, balances, ids, row, bestTotalCost, bestTransactions, agent.qValues)
        invariant agent.explorationRate == old(agent.explorationRate)
        invariant hasRun == old(hasRun) && costHistory == old(costHistory) && runs == old(runs)
      {
        rowCost, row := Advance(revenueId, expense, j, last, coin, draw, cost0, ledger0, q0, balances, ids, rowCost, row);
        j := j + 1;
      }
      assert expense[..j] == expense;
    }

    /** The next row of an iteration evaluated on top of the iteration's
        trail so far: the trail grows by that row's runs. */
    method Sweep(revenue: seq<string>, expense: seq<string>, i: nat, last: bool, coin: real, draw: nat,
                 ghost cost0: real, ghost ledger0: seq<TransactionRecord>, ghost q0: map<string, real>, ghost run: seq<PairRun>)
      returns (rowCost: real, ghost row: seq<PairRun>)
      requires Valid() && i < |revenue| && revenue[i] in graph.nodeIdToIndex
      requires forall j :: 0 <= j < |expense| ==> expense[j] in graph.nodeIdToIndex
      requires Trail(last, cost0, ledger0, q0, agent.learningRate, agent.discountFactor, graph.balances, graph.Ids(), run, bestTotalCost, bestTransactions, agent.qValues)
      requires ActionsOf(run) == Pairs(revenue[..i], expense)
      modifies this, agent
      ensures Trail(last, cost0, ledger0, q0, agent.learningRate, agent.discountFactor, graph.balances, graph.Ids(), run + row, bestTotalCost, bestTransactions, agent.qValues)
      ensures ActionsOf(run + row) == Pairs(revenue[..i + 1], expense)
      ensures RunCost(run + row) == RunCost(run) + rowCost
      ensures agent.explorationRate == old(agent.explorationRate)
      ensures hasRun == old(hasRun) && costHistory == old(costHistory) && runs == old(runs)
    {
      ghost var cost1, ledger1, q1 := bestTotalCost, bestTransactions, agent.qValues;
      rowCost, row := EvaluateRow(revenue[i], expense, last, coin, draw);
      TrailAppend(last, cost0, ledger0, q0, agent.learningRate, agent.discountFactor, graph.balances, graph.Ids(), run, cost1, ledger1, q1,
                  row, bestTotalCost, bestTransactions, agent.qValues);
      PairsStep(revenue, expense, i);
    }

    /** One iteration of optimize(): every (revenue, expense) pair in order,
        the iteration cost being the sum of their flow costs. */
    method Iterate(revenue: seq<string>, expense: seq<string>, last: bool, coin: real, draw: nat)
      returns (iterationCost: real, ghost run: seq<PairRun>)
      requires Valid()
      requires forall i :: 0 <= i < |revenue| ==> revenue[i] in graph.nodeIdToIndex
      requires forall j :: 0 <= j < |expense| ==> expense[j] in graph.nodeIdToIndex
      modifies this, agent
      ensures Valid()
      ensures ActionsOf(run) == Pairs(revenue, expense) && iterationCost == RunCost(run)
      ensures Trail(last, old(bestTotalCost), old(bestTransactions), old(agent.qValues), agent.learningRate, agent.discountFactor, graph.balances, graph.Ids(),
                    run, bestTotalCost, bestTransactions, agent.qValues)
      ensures agent.explorationRate == old(agent.explorationRate)
      ensures hasRun == old(hasRun) && costHistory == old(costHistory) && runs == old(runs)
    {
      ghost var balances, ids := graph.balances, graph.Ids();
      ghost var cost0, ledger0, q0 := bestTotalCost, bestTransactions, agent.qValues;
      iterationCost, run := 0.0, [];
      var i := 0;
      while i < |revenue|
        invariant 0 <= i <= |revenue|
        invariant ActionsOf(run) == Pairs(revenue[..i], expense) && iterationCost == RunCost(run)
        invariant Trail(last, cost0, ledger0, q0, agent.learningRate, agent.discountFactor, balances, ids, run, bestTotalCost, bestTransactions, agent.qValues)
        invariant agent.explorationRate == old(agent.explorationRate)
        invariant hasRun == old(hasRun) && costHistory == old(costHistory) && runs == old(runs)
      {
        var rowCost, row := Sweep(revenue, expense, i, last, coin, draw, cost0, ledger0, q0, run);
        run := run + row;
        iterationCost := iterationCost + rowCost;
        i := i + 1;
      }
      assert revenue[..i] == revenue;
    }

    /** optimize(): nothing happens for a non-positive count or when the graph
        lacks a revenue or an expense node; otherwise every iteration
        evaluates every (revenue, expense) pair on the same, unchanged graph,
        records the iteration's cost and decays the exploration rate, and the
        best ledger ends as the one of the last pair of the last iteration. */
    method Optimize(iterations: int, coin: real, draw: nat)
      requires Valid()
      modifies this, agent
      ensures Valid()
      ensures iterations <= 0 ==> unchanged(this) && unchanged(agent)
      ensures var revenue, expense := OfType(graph.Ids(), graph.nodeTypes, Revenue), OfType(graph.Ids(), graph.nodeTypes, Expense);
        iterations > 0 && (revenue == [] || expense == []) ==> unchanged(this) && unchanged(agent)
      ensures var revenue, expense := OfType(graph.Ids(), graph.nodeTypes, Revenue), OfType(graph.Ids(), graph.nodeTypes, Expense);
        iterations > 0 && revenue != [] && expense != [] ==>
          Ran(iterations, revenue, expense, graph.balances, graph.Ids(), runs, costHistory, bestTotalCost, bestTransactions)
          && hasRun && agent.HasImproved()
          && agent.qValues == TrainedAll(old(agent.qValues), agent.learningRate, agent.discountFactor, Flattened(runs))
          && agent.explorationRate == Agent.DecayedN(old(agent.explorationRate), DECAY, iterations)
    {
      if iterations <= 0 {
        return;
      }
      var revenue, expense := Classify();
      if revenue == [] || expense == [] {
        return;
      }
      OfTypeMembers(graph.Ids(), graph.nodeTypes, Revenue);
      OfTypeMembers(graph.Ids(), graph.nodeTypes, Expense);
      RunIterations(revenue, expense, iterations, coin, draw);
    }

    /** The iteration loop of optimize(), once both lists are known to be non-empty. */
    method RunIterations(revenue: seq<string>, expense: seq<string>, iterations: int, coin: real, draw: nat)
      requires Valid() && revenue != [] && expense != [] && iterations > 0
      requires forall i :: 0 <= i < |revenue| ==> revenue[i] in graph.nodeIdToIndex
      requires forall j :: 0 <= j < |expense| ==> expense[j] in graph.nodeIdToIndex
      modifies this, agent
      ensures Ran(iterations, revenue, expense, graph.balances, graph.Ids(), runs, costHistory, bestTotalCost, bestTransactions)
      ensures hasRun && agent.HasImproved()
      ensures agent.qValues == TrainedAll(old(agent.qValues), agent.learningRate, agent.discountFactor, Flattened(runs))
      ensures agent.explorationRate == Agent.DecayedN(old(agent.explorationRate), DECAY, iterations)
    {
      ghost var balances, ids, rate0, q0 := graph.balances, graph.Ids(), agent.explorationRate, agent.qValues;
      PairsNonEmpty(revenue, expense);
      hasRun := true;
      costHistory := [];
      runs := [];
      var i := 0;
      while i < iterations
        invariant 0 <= i <= iterations && |costHistory| == i && |runs| == i && hasRun
        invariant Each(revenue, expense, balances, ids, runs, costHistory)
        invariant i == iterations ==> Final(runs, bestTotalCost, bestTransactions)
        invariant i > 0 ==> agent.HasImproved()
        invariant agent.qValues == TrainedAll(q0, agent.learningRate, agent.discountFactor, Flattened(runs))
        invariant agent.explorationRate == Agent.DecayedN(rate0, DECAY, i)
      {
        ghost var runs0 := runs;
        var iterationCost, run := Round(revenue, expense, i == iterations - 1, coin, draw);
        Record(revenue, expense, i == iterations - 1, balances, ids, iterationCost, run);
        TrainedFlattened(q0, agent.learningRate, agent.discountFactor, runs0, run);
        agent.DecreaseExplorationRate(DECAY);
        i := i + 1;
      }
    }

    /** costHistory.add(iterationCost), with the iteration's evaluations
        kept beside it. */
    method Record(revenue: seq<string>, expense: seq<string>, last: bool,
                  ghost balances: map<string, real>, ghost ids: seq<string>, iterationCost: real, ghost run: seq<PairRun>)
      requires Each(revenue, expense, balances, ids, runs, costHistory)
      requires Covers(revenue, expense, balances, ids, run, iterationCost)
      requires last ==> Ends(run, bestTotalCost, bestTransactions)
      modifies this
      ensures Each(revenue, expense, balances, ids, runs, costHistory)
      ensures runs == old(runs) + [run] && |costHistory| == |old(costHistory)| + 1
      ensures last ==> Final(runs, bestTotalCost, bestTransactions)
      ensures hasRun == old(hasRun) && bestTotalCost == old(bestTotalCost) && bestTransactions == old(bestTransactions)
    {
      EachAppend(revenue, expense, balances, ids, runs, costHistory, run, iterationCost);
      if last {
        FinalAppend(runs, run, bestTotalCost, bestTransactions);
      }
      costHistory, runs := costHistory + [iterationCost], runs + [run];
    }

    /** One pass of the iteration loop, up to the recording of its cost and
        the decay of the exploration rate: the iteration covers every pair,
        trains the agent, and on the last iteration leaves the best ledger at
        the last evaluation's. */
    method Round(revenue: seq<string>, expense: seq<string>, last: bool, coin: real, draw: nat)
      returns (iterationCost: real, ghost run: seq<PairRun>)
      requires Valid() && |Pairs(revenue, expense)| > 0
      requires forall i :: 0 <= i < |revenue| ==> revenue[i] in graph.nodeIdToIndex
      requires forall j :: 0 <= j < |expense| ==> expense[j] in graph.nodeIdToIndex
      modifies this, agent
      ensures Covers(revenue, expense, graph.balances, graph.Ids(), run, iterationCost)
      ensures last ==> Ends(run, bestTotalCost, bestTransactions)
      ensures agent.qValues == TrainedAll(old(agent.qValues), agent.learningRate, agent.discountFactor, run)
      ensures agent.HasImproved()
      ensures agent.explorationRate == old(agent.explorationRate)
      ensures hasRun == old(hasRun) && costHistory == old(costHistory) && runs == old(runs)
    {
      ghost var cost0, ledger0, q0 := bestTotalCost, bestTransactions, agent.qValues;
      iterationCost, run := Iterate(revenue, expense, last, coin, draw);
      Closed(last, cost0, ledger0, q0, agent.learningRate, agent.discountFactor, graph.balances, graph.Ids(), run, bestTotalCost, bestTransactions, agent.qValues);
    }

    /** applyTransactionsAndUpdateBalancesToJson: every record in order takes
        its amount from the source's balance and adds it to the destination's
        (an id the graph does not know gets a balance entry of its own). */
    method ApplyTransactions(ledger: seq<TransactionRecord>)
      requires Valid()
      modifies graph
      ensures Valid()
      ensures graph.balances == Applied(old(graph.balances), ledger)
      ensures graph.nodeIdToIndex == old(graph.nodeIdToIndex) && graph.nodeTypes == old(graph.nodeTypes)
      ensures graph.edges == old(graph.edges)
    {
      var k := 0;
      while k < |ledger|
        invariant 0 <= k <= |ledger| && graph.Valid()
        invariant graph.balances == Applied(old(graph.balances), ledger[..k])
        invariant graph.nodeIdToIndex == old(graph.nodeIdToIndex) && graph.nodeTypes == old(graph.nodeTypes)
        invariant graph.edges == old(graph.edges)
      {
        var t := ledger[k];
        graph.SetBalance(t.sourceNode, graph.GetBalance(t.sourceNode) - t.amount);
        graph.SetBalance(t.destNode, graph.GetBalance(t.destNode) + t.amount);
        assert ledger[..k + 1][..k] == ledger[..k];
        k := k + 1;
      }
      assert ledger[..k] == ledger;
    }

    /** displayResults: before any optimisation nothing changes; afterwards
        the best ledger is applied to the graph's balances. */
    method DisplayResults()
      requires Valid()
      modifies graph
      ensures Valid()
      ensures !hasRun ==> unchanged(graph)
      ensures hasRun ==>
                graph.balances == Applied(old(graph.balances), bestTransactions)
                && graph.nodeIdToIndex == old(graph.nodeIdToIndex) && graph.nodeTypes == old(graph.nodeTypes)
                && graph.edges == old(graph.edges)
    {
      if !hasRun {
        return;
      }
      ApplyTransactions(bestTransactions);
    }
  }
}
