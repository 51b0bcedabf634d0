/**
 * TransactionRecord: one ledger line per edge of an augmenting path. The
 * record is a value: its four constructor arguments are its fields, read
 * back unchanged, never validated and never updated.
 */
module Transactions {

  datatype TransactionRecord = TransactionRecord(sourceNode: string, destNode: string, amount: real, cost: real)

  /** What the record reports as its cost: `cost` is per unit moved. */
  function Charge(t: TransactionRecord): real
  {
    t.cost * t.amount
  }

  /** The charges of a ledger, added up in order. */
  function TotalCharge(ledger: seq<TransactionRecord>): real
  {
    if ledger == [] then 0.0 else TotalCharge(ledger[..|ledger| - 1]) + Charge(ledger[|ledger| - 1])
  }

  lemma {:induction false} TotalChargeAppend(a: seq<TransactionRecord>, b: seq<TransactionRecord>)
    ensures TotalCharge(a + b) == TotalCharge(a) + TotalCharge(b)
    decreases |b|
  {
    if b == [] {
      assert a + b == a;
    } else {
      var b' := b[..|b| - 1];
      assert (a + b)[..|a + b| - 1] == a + b';
      assert (a + b)[|a + b| - 1] == b[|b| - 1];
      TotalChargeAppend(a, b');
      assert TotalCharge(a + b) == TotalCharge(a + b') + Charge(b[|b| - 1]);
    }
  }

  /** A ledger whose records all move `amount` costs `amount` times the sum of their unit costs. */
  lemma {:induction false} TotalChargeOfUniformAmount(ledger: seq<TransactionRecord>, amount: real)
    requires forall i :: 0 <= i < |ledger| ==> ledger[i].amount == amount
    ensures TotalCharge(ledger) == amount * SumOfUnitCosts(ledger)
  {
    if ledger != [] {
      TotalChargeOfUniformAmount(ledger[..|ledger| - 1], amount);
    }
  }

  function SumOfUnitCosts(ledger: seq<TransactionRecord>): real
  {
    if ledger == [] then 0.0 else SumOfUnitCosts(ledger[..|ledger| - 1]) + ledger[|ledger| - 1].cost
  }

  /** The sum of a list of amounts, in order. */
  function Sum(xs: seq<real>): real
  {
    if xs == [] then 0.0 else Sum(xs[..|xs| - 1]) + xs[|xs| - 1]
  }
}
