/**
 * Action: the ordered (revenue id, expense id) pair the agent chooses to route.
 * Immutable; its signature is the Q-table key half "source->sink".
 */
module Actions {
  import opened JavaStrings

  /** The constructor arguments are the fields; there are no setters. */
  datatype Action = Action(sourceNodeId: string, sinkNodeId: string)

  /** Action.toString. */
  function Signature(a: Action): string
  {
    a.sourceNodeId + "->" + a.sinkNodeId
  }

  /** Action.equals: both ids equal as strings. */
  predicate Equals(a: Action, b: Action)
  {
    a.sourceNodeId == b.sourceNodeId && a.sinkNodeId == b.sinkNodeId
  }

  /** Action.hashCode: the String hash of the signature. */
  function HashCode(a: Action): int
  {
    StrHash(Signature(a))
  }

  /** Equality is field equality, hence an equivalence relation, and the hash agrees with it. */
  lemma EqualsIsIdentity(a: Action, b: Action, c: Action)
    ensures Equals(a, b) <==> a == b
    ensures Equals(a, a)
    ensures Equals(a, b) ==> Equals(b, a)
    ensures Equals(a, b) && Equals(b, c) ==> Equals(a, c)
    ensures Equals(a, b) ==> HashCode(a) == HashCode(b)
  {
  }

  /** The signature is not injective: two unequal actions share it (and so share Q-table entries). */
  lemma SignatureCollision()
    ensures !Equals(Action("a->b", "c"), Action("a", "b->c"))
    ensures Signature(Action("a->b", "c")) == Signature(Action("a", "b->c"))
  {
    assert Signature(Action("a->b", "c")) == "a->b->c";
    assert Signature(Action("a", "b->c")) == "a->b->c";
  }

  /** Position of the first '-' in `s`, or |s| when there is none. */
  function FirstDash(s: string): (i: nat)
    ensures i <= |s|
    ensures forall j :: 0 <= j < i ==> s[j] != '-'
    ensures i < |s| ==> s[i] == '-'
  {
    if s == [] then 0
    else if s[0] == '-' then 0
    else 1 + FirstDash(s[1..])
  }

  /** When source ids contain no '-', the signature does determine the action. */
  lemma {:induction false} SignatureInjectiveWithoutDash(a: Action, b: Action)
    requires '-' !in a.sourceNodeId && '-' !in b.sourceNodeId
    requires Signature(a) == Signature(b)
    ensures a == b
  {
    var s := Signature(a);
    FirstDashOfJoin(a.sourceNodeId, a.sinkNodeId);
    FirstDashOfJoin(b.sourceNodeId, b.sinkNodeId);
    assert |a.sourceNodeId| == |b.sourceNodeId|;
    assert a.sourceNodeId == s[..|a.sourceNodeId|] == b.sourceNodeId;
    assert a.sinkNodeId == s[|a.sourceNodeId| + 2..] == b.sinkNodeId;
  }

  lemma {:induction false} FirstDashOfJoin(source: string, sink: string)
    requires '-' !in source
    ensures FirstDash(source + "->" + sink) == |source|
  {
    var s := source + "->" + sink;
    assert s[|source|] == '-';
    assert forall j :: 0 <= j < |source| ==> s[j] == source[j];
  }
}
