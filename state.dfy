/**
 * State: an immutable snapshot of node balances. Two states are equal when
 * their canonical signatures are: the ids in String.compareTo order, each
 * followed by ":" and its balance rendered with two decimals, then ";".
 */
module States {
  import opened JavaStrings

  /** The snapshot is held by value, so the defensive copy the constructor
      makes is built in: nothing the caller does later can reach it. */
  datatype State = State(nodeBalances: map<string, real>)

  function Entry(key: string, balance: real): string
  {
    key + ":" + Fixed2(balance) + ";"
  }

  /** The signature text for `keys`, in the given order. */
  function Render(m: map<string, real>, keys: seq<string>): (s: string)
    requires forall i :: 0 <= i < |keys| ==> keys[i] in m
    ensures s == [] <==> keys == []
  {
    if keys == [] then [] else Entry(keys[0], m[keys[0]]) + Render(m, keys[1..])
  }

  /** State.toString: one entry per id, ids sorted (see SortedKeys). */
  function Signature(s: State): (sig: string)
    ensures sig == [] <==> s.nodeBalances == map[]
  {
    var keys := SortedKeys(s.nodeBalances.Keys);
    assert s.nodeBalances == map[] <==> |keys| == 0;
    Render(s.nodeBalances, keys)
  }

  /** State.equals. */
  predicate Equals(a: State, b: State)
  {
    Signature(a) == Signature(b)
  }

  /** State.hashCode. */
  function HashCode(s: State): int
  {
    StrHash(Signature(s))
  }

  /** equals is an equivalence, and equal states hash alike. */
  lemma EqualsIsEquivalence(a: State, b: State, c: State)
    ensures Equals(a, a)
    ensures Equals(a, b) ==> Equals(b, a)
    ensures Equals(a, b) && Equals(b, c) ==> Equals(a, c)
    ensures Equals(a, b) ==> HashCode(a) == HashCode(b)
  {
  }

  lemma {:induction false} RenderAgrees(m1: map<string, real>, m2: map<string, real>, keys: seq<string>)
    requires forall i :: 0 <= i < |keys| ==> keys[i] in m1 && keys[i] in m2
    requires forall i :: 0 <= i < |keys| ==> Fixed2(m1[keys[i]]) == Fixed2(m2[keys[i]])
    ensures Render(m1, keys) == Render(m2, keys)
  {
    if keys != [] {
      RenderAgrees(m1, m2, keys[1..]);
    }
  }

  /** The signature sees only the ids and the rendered balances: states whose
      balances agree to the cent (after half-up rounding) are equal. */
  lemma SignatureSeesRoundedBalances(a: State, b: State)
    requires a.nodeBalances.Keys == b.nodeBalances.Keys
    requires forall k :: k in a.nodeBalances ==> Fixed2(a.nodeBalances[k]) == Fixed2(b.nodeBalances[k])
    ensures Equals(a, b)
  {
    RenderAgrees(a.nodeBalances, b.nodeBalances, SortedKeys(a.nodeBalances.Keys));
  }

  /** So equality is coarser than equality of balances. */
  lemma RoundingCollision()
    ensures State(map["a" := 1.0]) != State(map["a" := 1.001])
    ensures Equals(State(map["a" := 1.0]), State(map["a" := 1.001]))
  {
    var a := State(map["a" := 1.0]);
    var b := State(map["a" := 1.001]);
    assert a.nodeBalances["a"] != b.nodeBalances["a"];
    assert (1.0 * 100.0 + 0.5).Floor == 100;
    assert (1.001 * 100.0 + 0.5).Floor == 100;
    SignatureSeesRoundedBalances(a, b);
  }

  lemma RenderedOneAndTwo()
    ensures Fixed2(1.0) == "1.00" && Fixed2(2.0) == "2.00"
  {
    assert (1.0 * 100.0 + 0.5).Floor == 100;
    assert (2.0 * 100.0 + 0.5).Floor == 200;
    assert NatToDecimal(1) == "1" && NatToDecimal(2) == "2";
    assert Digit(0) == '0';
  }

  lemma SortedPair()
    ensures SortedKeys({"a", "b"}) == ["a", "b"]
  {
    var ks := SortedKeys({"a", "b"});
    assert StrLt("a", "b");
    StrLtAsymmetric("a", "b");
    assert |ks| == 2 && "a" in ks && "b" in ks;
  }

  lemma SignatureOfPair()
    ensures Signature(State(map["a" := 1.0, "b" := 2.0])) == "a:1.00;b:2.00;"
  {
    var two := map["a" := 1.0, "b" := 2.0];
    assert two.Keys == {"a", "b"};
    SortedPair();
    RenderPair(two);
  }

  lemma RenderPair(m: map<string, real>)
    requires "a" in m && "b" in m && m["a"] == 1.0 && m["b"] == 2.0
    ensures Render(m, ["a", "b"]) == "a:1.00;b:2.00;"
  {
    var keys := ["a", "b"];
    assert keys[1..] == ["b"] && keys[1..][1..] == [];
    EntriesOfOneAndTwo();
    assert Render(m, keys[1..]) == Entry("b", 2.0);
  }

  lemma EntriesOfOneAndTwo()
    ensures Entry("a", 1.0) == "a:1.00;" && Entry("b", 2.0) == "b:2.00;"
  {
    RenderedOneAndTwo();
  }

  lemma SignatureOfJoinedId()
    ensures Signature(State(map["a:1.00;b" := 2.0])) == "a:1.00;b:2.00;"
  {
    var one := map["a:1.00;b" := 2.0];
    assert SortedKeys(one.Keys) == ["a:1.00;b"] by {
      assert one.Keys == {"a:1.00;b"};
    }
    assert Render(one, ["a:1.00;b"]) == "a:1.00;b:2.00;" by {
      RenderedOneAndTwo();
    }
  }

  /** And the signature is not injective in the ids either: an id holding
      ":" and ";" can imitate two entries. */
  lemma SignatureCollision()
    ensures State(map["a" := 1.0, "b" := 2.0]) != State(map["a:1.00;b" := 2.0])
    ensures Equals(State(map["a" := 1.0, "b" := 2.0]), State(map["a:1.00;b" := 2.0]))
  {
    assert "b" !in map["a:1.00;b" := 2.0];
    SignatureOfPair();
    SignatureOfJoinedId();
  }
}
