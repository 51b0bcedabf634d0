/**
 * RLAgent: a tabular Q-learner over (state, action) keys. Selection is
 * epsilon-greedy: with probability `explorationRate` a uniformly drawn
 * action, otherwise one of the actions of greatest Q-value. The draws that
 * java.util.Random makes are parameters: `coin` stands for nextDouble()
 * and `draw` for the argument nextInt(n) reduces modulo n.
 */
module Agent {
  import opened Options
  import States
  import Actions

  /** The exploration rate never decays below this. */
  const FLOOR: real := 0.01

  /** The key for `action` once the state's signature `sig` is known. */
  function KeyOf(sig: string, action: Actions.Action): string
  {
    sig + "|" + Actions.Signature(action)
  }

  /** getStateActionKey: the state's signature, "|", the action's signature. */
  function Key(state: States.State, action: Actions.Action): string
  {
    KeyOf(States.Signature(state), action)
  }

  /** qValues.getOrDefault(key, 0.0): an unseen key counts as 0. */
  function Q(q: map<string, real>, key: string): real
  {
    if key in q then q[key] else 0.0
  }

  /** The Q-value of taking `action` in the state whose signature is `sig`. */
  function Value(q: map<string, real>, sig: string, action: Actions.Action): real
  {
    Q(q, KeyOf(sig, action))
  }

  /** random.nextInt(n) as a draw reduced modulo n. */
  function Pick(draw: nat, n: nat): (k: nat)
    requires n > 0
    ensures k < n
  {
    draw % n
  }

  /** The one-step Q-learning target: reward + discount * m. */
  function Target(reward: real, discount: real, maxNext: real): real
  {
    reward + discount * maxNext
  }

  /** The updated value: Q + rate * (reward + discount * m - Q). */
  function Learned(current: real, rate: real, discount: real, reward: real, maxNext: real): real
  {
    current + rate * (Target(reward, discount, maxNext) - current)
  }

  /** The table after one update: the (state, action) entry moves to the
      learned value; m is MaxNext of the next actions in the next state. */
  function Updated(q: map<string, real>, state: States.State, action: Actions.Action, rate: real, discount: real,
                   reward: real, nextState: States.State, nextActions: seq<Actions.Action>): map<string, real>
  {
    var key := Key(state, action);
    q[key := Learned(Q(q, key), rate, discount, reward, MaxNext(q, States.Signature(nextState), nextActions))]
  }

  /** An update touches one entry only. */
  lemma UpdatedOnly(q: map<string, real>, state: States.State, action: Actions.Action, rate: real, discount: real,
                    reward: real, nextState: States.State, nextActions: seq<Actions.Action>)
    ensures var r := Updated(q, state, action, rate, discount, reward, nextState, nextActions);
      Key(state, action) in r && (forall k :: k in q ==> k in r)
      && (forall k :: k in r && k != Key(state, action) ==> k in q && r[k] == q[k])
  {
  }

  /** With a rate in [0, 1] an update moves the entry from its old value
      part of the way towards the target reward + discount * m, never past it. */
  lemma UpdatedEntry(q: map<string, real>, state: States.State, action: Actions.Action, rate: real, discount: real,
                     reward: real, nextState: States.State, nextActions: seq<Actions.Action>)
    requires 0.0 <= rate <= 1.0
    ensures var key := Key(state, action);
      var v := Updated(q, state, action, rate, discount, reward, nextState, nextActions)[key];
      var target := Target(reward, discount, MaxNext(q, States.Signature(nextState), nextActions));
      (Q(q, key) <= target ==> Q(q, key) <= v <= target) && (target <= Q(q, key) ==> target <= v <= Q(q, key))
  {
    var key := Key(state, action);
    var m := MaxNext(q, States.Signature(nextState), nextActions);
    LearnedBetween(Q(q, key), rate, discount, reward, m);
    assert Updated(q, state, action, rate, discount, reward, nextState, nextActions)[key] == Learned(Q(q, key), rate, discount, reward, m);
  }

  /** Learned lies between the current value and the target reward + discount * m
      when the rate lies in [0, 1]. */
  lemma LearnedBetween(current: real, rate: real, discount: real, reward: real, maxNext: real)
    requires 0.0 <= rate <= 1.0
    ensures var target := Target(reward, discount, maxNext);
      var v := Learned(current, rate, discount, reward, maxNext);
      (current <= target ==> current <= v <= target) && (target <= current ==> target <= v <= current)
  {
    var d := Target(reward, discount, maxNext) - current;
    assert Learned(current, rate, discount, reward, maxNext) == current + rate * d;
    if d >= 0.0 {
      Scaled(rate, d);
    } else {
      Scaled(rate, -d);
      assert rate * (-d) == -(rate * d);
    }
  }

  lemma Scaled(rate: real, d: real)
    requires 0.0 <= rate <= 1.0 && 0.0 <= d
    ensures 0.0 <= rate * d <= d
  {
    assert d - rate * d == (1.0 - rate) * d;
  }

  /** The table is keyed by content: equal states and equal actions share
      one entry, however they were built. */
  lemma KeyByContent(q: map<string, real>, s1: States.State, s2: States.State, a1: Actions.Action, a2: Actions.Action)
    requires States.Equals(s1, s2) && Actions.Equals(a1, a2)
    ensures Key(s1, a1) == Key(s2, a2)
    ensures Q(q, Key(s1, a1)) == Q(q, Key(s2, a2))
  {
    Actions.EqualsIsIdentity(a1, a2, a2);
  }

  /** Two unequal actions whose signatures coincide share a Q-entry. */
  lemma SharedEntry(q: map<string, real>, s: States.State)
    ensures Actions.Action("a->b", "c") != Actions.Action("a", "b->c")
    ensures Q(q, Key(s, Actions.Action("a->b", "c"))) == Q(q, Key(s, Actions.Action("a", "b->c")))
  {
    Actions.SignatureCollision();
  }

  /** The actions of `actions`, in order, whose value is exactly `v`. */
  function Attaining(q: map<string, real>, sig: string, actions: seq<Actions.Action>, v: real): (r: seq<Actions.Action>)
    ensures |r| <= |actions|
    ensures forall i :: 0 <= i < |r| ==> r[i] in actions && Value(q, sig, r[i]) == v
    decreases |actions|
  {
    if actions == [] then []
    else
      var a := actions[|actions| - 1];
      var rest := Attaining(q, sig, actions[..|actions| - 1], v);
      if Value(q, sig, a) == v then rest + [a] else rest
  }

  lemma {:induction false} AttainingAbove(q: map<string, real>, sig: string, actions: seq<Actions.Action>, v: real)
    requires forall i :: 0 <= i < |actions| ==> Value(q, sig, actions[i]) < v
    ensures Attaining(q, sig, actions, v) == []
    decreases |actions|
  {
    if actions != [] {
      AttainingAbove(q, sig, actions[..|actions| - 1], v);
    }
  }

  /** The best-set loop of selectAction. `best` is the greatest value seen
      (None standing for the initial negative infinity) and `ties` the
      actions reaching it: a strictly greater value restarts the list, an
      equal one joins it. */
  function BestScan(q: map<string, real>, sig: string, actions: seq<Actions.Action>): (r: (Option<real>, seq<Actions.Action>))
    ensures r.0.None? <==> actions == []
    ensures r.0.None? ==> r.1 == []
    ensures actions != [] ==> |r.1| > 0
    ensures r.0.Some? ==> forall i :: 0 <= i < |actions| ==> Value(q, sig, actions[i]) <= r.0.value
    ensures r.0.Some? ==> exists i :: 0 <= i < |actions| && Value(q, sig, actions[i]) == r.0.value
    ensures r.0.Some? ==> r.1 == Attaining(q, sig, actions, r.0.value)
    decreases |actions|
  {
    if actions == [] then (None, [])
    else
      var prefix := actions[..|actions| - 1];
      var a := actions[|actions| - 1];
      var v := Value(q, sig, a);
      var (best, ties) := BestScan(q, sig, prefix);
      assert forall i :: 0 <= i < |prefix| ==> prefix[i] == actions[i];
      if best.None? || v > best.value then
        AttainingAbove(q, sig, prefix, v);
        (Some(v), [a])
      else if v == best.value then (best, ties + [a])
      else (best, ties)
  }

  /** The greatest of 0 and the values of `actions` in `state`: the loop of
      updateQValue, whose running maximum starts at 0. */
  function MaxNext(q: map<string, real>, sig: string, actions: seq<Actions.Action>): (m: real)
    ensures 0.0 <= m
    ensures forall i :: 0 <= i < |actions| ==> Value(q, sig, actions[i]) <= m
    ensures m == 0.0 || exists i :: 0 <= i < |actions| && Value(q, sig, actions[i]) == m
    decreases |actions|
  {
    if actions == [] then 0.0
    else
      var prefix := actions[..|actions| - 1];
      var rest := MaxNext(q, sig, prefix);
      var v := Value(q, sig, actions[|actions| - 1]);
      assert forall i :: 0 <= i < |prefix| ==> prefix[i] == actions[i];
      if rest >= v then rest else v
  }

  /** One more action in updateQValue's loop: the running maximum takes it in. */
  lemma MaxNextStep(q: map<string, real>, sig: string, actions: seq<Actions.Action>, i: nat)
    requires i < |actions|
    ensures var m := MaxNext(q, sig, actions[..i]);
      MaxNext(q, sig, actions[..i + 1]) == if m >= Value(q, sig, actions[i]) then m else Value(q, sig, actions[i])
  {
    assert actions[..i + 1][..i] == actions[..i];
  }

  /** decreaseExplorationRate: scale, then clamp up to the floor. */
  function Decayed(rate: real, factor: real): (r: real)
  {
    var scaled := rate * factor;
    if scaled < FLOOR then FLOOR else scaled
  }

  /** Decay never leaves the rate below the floor, and with a factor of at
      most 1 it never raises a rate that is already at or above it. */
  lemma DecayedBounds(rate: real, factor: real)
    ensures FLOOR <= Decayed(rate, factor)
    ensures FLOOR <= rate && 0.0 <= factor <= 1.0 ==> Decayed(rate, factor) <= rate
    ensures Decayed(rate, factor) == rate * factor || Decayed(rate, factor) == FLOOR
  {
    if FLOOR <= rate && 0.0 <= factor <= 1.0 {
      assert rate - rate * factor == rate * (1.0 - factor);
      assert 0.0 <= rate * (1.0 - factor);
    }
  }

  /** `n` decays in a row, as one optimisation run of `n` iterations applies. */
  function DecayedN(rate: real, factor: real, n: nat): real
  {
    if n == 0 then rate else Decayed(DecayedN(rate, factor, n - 1), factor)
  }

  /** After at least one decay the rate sits in [FLOOR, start] when the
      start is at least the floor and the factor lies in [0, 1]. */
  lemma {:induction false} DecayedNBounds(rate: real, factor: real, n: nat)
    requires FLOOR <= rate && 0.0 <= factor <= 1.0
    ensures FLOOR <= DecayedN(rate, factor, n) <= rate
  {
    if n > 0 {
      DecayedNBounds(rate, factor, n - 1);
      DecayedBounds(DecayedN(rate, factor, n - 1), factor);
    }
  }

  class RLAgent {
    /** State-action Q-values, keyed by Key. */
    var qValues: map<string, real>
    const learningRate: real
    const discountFactor: real
    var explorationRate: real

    constructor(learningRate: real, discountFactor: real, explorationRate: real)
      ensures this.learningRate == learningRate && this.discountFactor == discountFactor
      ensures this.explorationRate == explorationRate && qValues == map[]
      ensures !HasImproved()
    {
      this.learningRate := learningRate;
      this.discountFactor := discountFactor;
      this.explorationRate := explorationRate;
      qValues := map[];
    }

    /** selectAction: None exactly for an empty list. Exploration (coin
        below the rate) picks the drawn action; exploitation picks the drawn
        one among the actions of greatest value, so a greatest one. */
    function SelectAction(state: States.State, actions: seq<Actions.Action>, coin: real, draw: nat): (r: Option<Actions.Action>)
      reads this
      ensures r.None? <==> actions == []
      ensures r.Some? ==> r.value in actions
      ensures |actions| == 1 ==> r == Some(actions[0])
      ensures r.Some? && explorationRate <= coin ==>
        forall i :: 0 <= i < |actions| ==>
          Value(qValues, States.Signature(state), actions[i]) <= Value(qValues, States.Signature(state), r.value)
    {
      if actions == [] then None
      else if coin < explorationRate then Some(actions[Pick(draw, |actions|)])
      else
        var sig := States.Signature(state);
        var (best, ties) := BestScan(qValues, sig, actions);
        // Java falls back to the first action when the best list is empty;
        // BestScan shows that it never is for a non-empty list.
        var pick := ties[Pick(draw, |ties|)];
        assert Value(qValues, sig, pick) == best.value;
        Some(pick)
    }

    /** The loop of updateQValue over the next actions: the running maximum
        of their values, starting at 0. */
    method MaxNextQ(nextSig: string, nextActions: seq<Actions.Action>) returns (maxNextQ: real)
      ensures maxNextQ == MaxNext(qValues, nextSig, nextActions)
    {
      maxNextQ := 0.0;
      var i := 0;
      while i < |nextActions|
        invariant 0 <= i <= |nextActions|
        invariant maxNextQ == MaxNext(qValues, nextSig, nextActions[..i])
      {
        var nextQ := Q(qValues, KeyOf(nextSig, nextActions[i]));
        MaxNextStep(qValues, nextSig, nextActions, i);
        maxNextQ := if maxNextQ >= nextQ then maxNextQ else nextQ;
        i := i + 1;
      }
      assert nextActions[..i] == nextActions;
    }

    /** updateQValue: only the (state, action) entry changes, to
        Q + learningRate * (reward + discountFactor * m - Q), where m is
        MaxNext of the next actions in the next state. */
    method UpdateQValue(state: States.State, action: Actions.Action, reward: real,
                        nextState: States.State, nextActions: seq<Actions.Action>)
      modifies this
      ensures qValues == Updated(old(qValues), state, action, learningRate, discountFactor, reward, nextState, nextActions)
      ensures explorationRate == old(explorationRate)
      ensures HasImproved()
    {
      var key := Key(state, action);
      var currentQ := Q(qValues, key);
      var maxNextQ := MaxNextQ(States.Signature(nextState), nextActions);
      var updatedQ := Learned(currentQ, learningRate, discountFactor, reward, maxNextQ);
      qValues := qValues[key := updatedQ];
      assert key in qValues;
    }

    /** decreaseExplorationRate. */
    method DecreaseExplorationRate(factor: real)
      modifies this
      ensures explorationRate == Decayed(old(explorationRate), factor)
      ensures qValues == old(qValues)
    {
      explorationRate := explorationRate * factor;
      if explorationRate < FLOOR {
        explorationRate := FLOOR;
      }
    }

    /** setExplorationRate: any value, with no floor. */
    method SetExplorationRate(rate: real)
      modifies this
      ensures explorationRate == rate && qValues == old(qValues)
    {
      explorationRate := rate;
    }

    /** hasImproved: some entry has been written. */
    predicate HasImproved()
      reads this
    {
      qValues != map[]
    }
  }
}
