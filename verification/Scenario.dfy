/**
 The seeded review scenario all three arms of the measurement run: its shape, and what a run reports.
 */
module Scenario {
  import opened Provenance

  datatype Shape = Shape(chain: nat, interleave: bool, abortAt: nat, retract: bool, lateReview: bool)

  /** The seed varies the shape of the scenario; a chain of length 0 would divide by zero. */
  function ShapeOf(seed: nat, depth: nat): Shape
    requires depth + seed % 3 >= 1
  {
    var chain := depth + seed % 3;
    Shape(chain, seed % 2 == 1, (seed / 2) % chain, (seed / 7) % 4 != 0, (seed / 11) % 4 == 0)
  }

  datatype Outcome = Outcome(
    a3: bool,
    a3Unpropagated: bool,
    cascaded: nat,
    refused: nat,
    held: nat,
    released: nat,
    live: nat,
    retractionRefused: bool,
    exposed: nat,
    relabeled: nat)

  function BaseCell(seed: nat): nat {
    1000 + (seed % 11) * 100
  }

  function RootValue(seed: nat): nat {
    40 + seed % 5
  }

  /** In these rounds another writer lands inside the reader's window. */
  predicate Interrupted(k: nat, interleave: bool) {
    interleave && k % 2 == 0
  }

  /** How many readers have been interrupted after `k` rounds. */
  function InterruptedBy(k: nat, interleave: bool): (n: nat)
    ensures n <= k
  {
    if k == 0 then 0 else InterruptedBy(k - 1, interleave) + if Interrupted(k - 1, interleave) then 1 else 0
  }

  /** Half of them, in an interleaved chain, and none otherwise. */
  lemma {:induction false} InterruptedAreHalf(k: nat, interleave: bool)
    ensures if interleave then 2 * InterruptedBy(k, interleave) == k + k % 2 else InterruptedBy(k, interleave) == 0
  {
    if k != 0 {
      InterruptedAreHalf(k - 1, interleave);
    }
  }

  /** Aborted after it had committed, other than the reviewed operation. */
  predicate CascadedRecord(r: Prov, reviewed: nat) {
    r.aborted && r.txn != reviewed && r.committed
  }
}
