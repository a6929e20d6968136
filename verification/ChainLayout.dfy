/**
 The chain every arm of the measurement builds, whatever the store: which transactions commit, what each
 rests on, and so every figure of the three arms, in closed form.
 */
module ChainLayout {
  import opened Scenario

  /** Each round begins a reader, and an interrupted one a writer as well. */
  function TxnsAfter(n: nat, interleave: bool): nat {
    1 + n + InterruptedBy(n, interleave)
  }

  /** The transaction that commits in round `k`: the intruder if there is one, and else the reader. */
  function CommitOf(k: nat, interleave: bool): nat {
    TxnsAfter(k, interleave) + if Interrupted(k, interleave) then 1 else 0
  }

  /** The transactions that commit: the root, then one a round. */
  function CommittedIds(n: nat, interleave: bool): (ids: seq<nat>)
    ensures |ids| == n + 1
  {
    if n == 0 then [0] else CommittedIds(n - 1, interleave) + [CommitOf(n - 1, interleave)]
  }

  /** What a round adds: one commit, and one refusal if it was interrupted. */
  lemma RoundAdds(k: nat, interleave: bool)
    ensures CommittedIds(k + 1, interleave) == CommittedIds(k, interleave) + [CommitOf(k, interleave)]
    ensures InterruptedBy(k + 1, interleave)
            == InterruptedBy(k, interleave) + if Interrupted(k, interleave) then 1 else 0
    ensures TxnsAfter(k + 1, interleave) == TxnsAfter(k, interleave) + if Interrupted(k, interleave) then 2 else 1
  {
  }

  lemma RoundCommits(k: nat, interleave: bool, t: nat, sofar: seq<nat>, more: seq<nat>)
    requires t == TxnsAfter(k, interleave)
    requires sofar == if Interrupted(k, interleave)
                      then CommittedIds(k, interleave) + [t + 1] else CommittedIds(k, interleave)
    requires more == if Interrupted(k, interleave) then sofar else sofar + [t]
    ensures more == CommittedIds(k + 1, interleave)
  {
    RoundAdds(k, interleave);
  }

  ghost predicate Increasing(ids: seq<nat>) {
    forall i, j :: 0 <= i < j < |ids| ==> ids[i] < ids[j]
  }

  ghost predicate Below(ids: seq<nat>, n: nat) {
    forall t: nat :: t in ids ==> t < n
  }

  lemma IncreasingNext(ids: seq<nat>, n: nat, x: nat)
    requires Increasing(ids) && Below(ids, n) && n <= x
    ensures Increasing(ids + [x]) && Below(ids + [x], x + 1)
  {
    assert forall i :: 0 <= i < |ids| ==> ids[i] in ids;
  }

  lemma {:induction false} IdsIncrease(n: nat, interleave: bool)
    ensures Increasing(CommittedIds(n, interleave)) && Below(CommittedIds(n, interleave), TxnsAfter(n, interleave))
  {
    for k: nat := 0 to n
      invariant Increasing(CommittedIds(k, interleave)) && Below(CommittedIds(k, interleave), TxnsAfter(k, interleave))
    {
      RoundAdds(k, interleave);
      IncreasingNext(CommittedIds(k, interleave), TxnsAfter(k, interleave), CommitOf(k, interleave));
    }
  }

  /** The `j`-th commit rests on the `i`-th: on every earlier one, unless intruders cut the chain into pairs. */
  predicate RestsOn(j: nat, i: nat, interleave: bool) {
    i < j && (interleave ==> i % 2 == 1 && j == i + 1)
  }

  /** What the `j`-th commit rests on. */
  ghost function Basis(ids: seq<nat>, j: nat, interleave: bool): set<nat>
    requires j <= |ids|
  {
    set i: nat | i < j && RestsOn(j, i, interleave) :: ids[i]
  }

  lemma BasisStays(ids: seq<nat>, x: nat, j: nat, interleave: bool)
    requires j <= |ids|
    ensures Basis(ids + [x], j, interleave) == Basis(ids, j, interleave)
  {
  }

  /** A reader of the last commit's cell rests on that commit and on what it rests on. */
  lemma BasisNext(ids: seq<nat>, k: nat, interleave: bool)
    requires |ids| == k + 1
    ensures Basis(ids, k + 1, interleave)
            == if Interrupted(k, interleave) then {} else {ids[k]} + Basis(ids, k, interleave)
  {
  }

  /** How many commits rest on the `i`-th of a chain of `n` links. */
  function Downstream(n: nat, interleave: bool, i: nat): nat
    requires i <= n
  {
    if interleave then if i % 2 == 1 && i < n then 1 else 0 else n - i
  }

  lemma {:induction false} ElementsCard(ids: seq<nat>, elements: set<nat>)
    requires Increasing(ids) && forall t: nat :: t in elements <==> t in ids
    ensures |elements| == |ids|
  {
    if ids == [] {
      assert elements == {};
    } else {
      var front, last := ids[..|ids| - 1], ids[|ids| - 1];
      assert last !in front;
      assert ids == front + [last];
      ElementsCard(front, elements - {last});
    }
  }

  lemma DownstreamCard(ids: seq<nat>, n: nat, interleave: bool, i: nat, dependents: set<nat>)
    requires Increasing(ids) && |ids| == n + 1 && i <= n
    requires forall t: nat ::
               t in dependents <==> exists j: nat :: j < |ids| && ids[j] == t && RestsOn(j, i, interleave)
    ensures |dependents| == Downstream(n, interleave, i)
  {
    if !interleave {
      var later := ids[i + 1..];
      forall t: nat ensures t in dependents <==> t in later {
        if t in dependents {
          var j: nat :| j < |ids| && ids[j] == t && RestsOn(j, i, interleave);
          assert later[j - i - 1] == t;
        }
        if t in later {
          var j: nat :| j < |later| && later[j] == t;
          assert ids[i + 1 + j] == t && RestsOn(i + 1 + j, i, interleave);
        }
      }
      ElementsCard(later, dependents);
    } else if i % 2 == 1 && i < n {
      assert ids[i + 1] in dependents;
      assert dependents == {ids[i + 1]};
    } else {
      assert dependents == {};
    }
  }

  // ------------------------------------------------ the figures of the arms

  /** The reviewed transaction is the `abortAt`-th commit. */
  function Affected(shape: Shape): nat
    requires shape.abortAt < shape.chain
  {
    Downstream(shape.chain, shape.interleave, shape.abortAt)
  }

  /**
   Output commit: dependents are held for a timely review and aborted by its retraction; a late one comes too late.
   */
  function GuardedOutcome(shape: Shape): Outcome
    requires shape.abortAt < shape.chain
  {
    var timely := shape.retract && !shape.lateReview;
    var live := shape.chain + 1 - if timely then 1 + Affected(shape) else 0;
    Outcome(
      false,
      false,
      if timely then Affected(shape) else 0,
      InterruptedBy(shape.chain, shape.interleave),
      if shape.lateReview then 0 else Affected(shape),
      live,
      live,
      shape.retract && shape.lateReview,
      if shape.retract && shape.lateReview then 1 + Affected(shape) else 0,
      0)
  }

  /** Release at commit: everything is out, and a retraction exposes what rests on it. */
  function UnguardedOutcome(shape: Shape): Outcome
    requires shape.abortAt < shape.chain
  {
    Outcome(
      shape.retract && Affected(shape) > 0,
      shape.retract && Affected(shape) > 0,
      0,
      InterruptedBy(shape.chain, shape.interleave),
      0,
      shape.chain + 1,
      shape.chain + 1 - if shape.retract then 1 else 0,
      false,
      if shape.retract then 1 + Affected(shape) else 0,
      0)
  }

  /** The cascade flags what is out already: it relabels, and nothing else changes. */
  function CascadeOutcome(shape: Shape): Outcome
    requires shape.abortAt < shape.chain
  {
    var relabeled := if shape.retract then Affected(shape) else 0;
    var out := UnguardedOutcome(shape);
    out.(a3Unpropagated := false, cascaded := relabeled, relabeled := relabeled, live := out.live - relabeled)
  }

  /**
   The three arms compared.  They refuse the same readers.  What a retraction would reach is held by output
   commit and out at once in the baselines: a timely one withdraws exactly what the baselines leave exposed,
   and a late one is refused and leaves exactly that exposed in the guarded arm too.
   */
  ghost predicate ArmsAgree(shape: Shape, v: Outcome, u: Outcome, c: Outcome) {
    && v.refused == u.refused == c.refused
    && c.a3 == u.a3 == u.a3Unpropagated && c.exposed == u.exposed && c.released == u.released
    && !v.a3 && !v.a3Unpropagated && !c.a3Unpropagated
    && (u.exposed > 0 <==> shape.retract) && v.retractionRefused == (shape.retract && shape.lateReview)
    && v.exposed == (if v.retractionRefused then u.exposed else 0)
    && (u.exposed > 0 && !v.retractionRefused ==> v.held == v.cascaded == u.exposed - 1)
    && v.relabeled == u.relabeled == 0
    && c.relabeled == c.cascaded == (if c.exposed == 0 then 0 else c.exposed - 1)
    && v.live == v.released && v.released + (if v.retractionRefused then 0 else u.exposed) == u.released
    && u.live + (if u.exposed > 0 then 1 else 0) == u.released && c.live + c.exposed == c.released
  }

  lemma ArmsCompared(shape: Shape)
    requires shape.abortAt < shape.chain
    ensures ArmsAgree(shape, GuardedOutcome(shape), UnguardedOutcome(shape), CascadeOutcome(shape))
  {
  }

  lemma NoWrap(i: nat, n: nat)
    requires i < n
    ensures i % n == i
  {
  }

  lemma ReviewedIsACommit(seed: nat, depth: nat)
    requires depth + seed % 3 >= 1
    ensures ShapeOf(seed, depth).abortAt < ShapeOf(seed, depth).chain
  {
  }
}
