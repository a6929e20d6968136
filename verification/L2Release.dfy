/**
 Output-commit progress: what can leave, and what a pass over the transactions lets out.

 A pass asks every transaction in turn to externalize.  Asking one that may not leave changes
 nothing, so a pass is a run of `Externalize` calls.
 */
module L2Release {
  import opened Common
  import opened L2Model
  import opened L2Invariant
  import opened L2Serial

  /** Committed and not aborted: its effects are due to leave. */
  predicate Live(s: State, t: TxnId) {
    t < |s.txns| && s.txns[t].committed && !s.txns[t].aborted
  }

  predicate Out(s: State, t: TxnId) {
    t < |s.txns| && s.txns[t].externalized
  }

  /** Nothing is stranded: the oldest live transaction still inside may always leave. */
  lemma {:induction false} OldestLiveMayLeave(calls: seq<Action>, t: TxnId)
    requires Live(Run(calls), t) && !Out(Run(calls), t)
    requires forall u: TxnId :: Live(Run(calls), u) && !Out(Run(calls), u) ==>
               Run(calls).txns[t].commitTime <= Run(calls).txns[u].commitTime
    ensures ExternalizeValid(Run(calls), t)
  {
    var s := Run(calls);
    RunKeepsInv(calls);
    forall p: TxnId | p in s.txns[t].predecessors ensures p < |s.txns| && s.txns[p].externalized {
      assert Live(s, p);
    }
  }

  // ------------------------------------------------ a pass in commit order

  function AskAll(ids: seq<TxnId>): seq<Action> {
    seq(|ids|, i requires 0 <= i < |ids| => Externalize(ids[i]))
  }

  /** `s'` is `s` with exactly the transactions of `leaving` released as well. */
  ghost predicate ReleasedIn(s: State, s': State, leaving: iset<TxnId>) {
    && |s'.txns| == |s.txns| && s'.cellValue == s.cellValue && s'.cellWriter == s.cellWriter
    && forall t: TxnId {:trigger s'.txns[t]} :: t < |s.txns| ==>
         s'.txns[t] == s.txns[t].(externalized := s.txns[t].externalized || t in leaving)
  }

  /** Among the transactions still inside, `after` is `before`, with `t` if it was let out. */
  ghost predicate Admits(s: State, before: iset<TxnId>, after: iset<TxnId>, t: TxnId, allowed: bool) {
    forall u: TxnId :: u < |s.txns| && !Out(s, u) ==> (u in after <==> u in before || (u == t && allowed))
  }

  lemma AskingReleases(s: State, s': State, before: iset<TxnId>, after: iset<TxnId>, t: TxnId)
    requires WellFormed(s') && ReleasedIn(s, s', before) && s'.now < MAX_U64
    requires Admits(s, before, after, t, ExternalizeValid(s', t))
    ensures ReleasedIn(s, Step(s', Externalize(t)), after)
    ensures Step(s', Externalize(t)).now <= s'.now + 1
  {
    var s2 := Step(s', Externalize(t));
    forall u: TxnId | u < |s.txns|
      ensures s2.txns[u] == s.txns[u].(externalized := s.txns[u].externalized || u in after)
    {
      assert s'.txns[u] == s.txns[u].(externalized := s.txns[u].externalized || u in before);
    }
  }

  /**
   One pass in commit-time order releases every live transaction, whatever the runtime did before,
   as long as the clock has room; and it changes nothing but their release flags.
   */
  lemma {:induction false} CommitOrderPassReleasesAll(s: State, order: seq<TxnId>)
    requires Inv(s) && IsCommitOrder(s, order) && s.now + |order| <= MAX_U64
    ensures ReleasedIn(s, RunFrom(s, AskAll(order)), iset t: TxnId | Live(s, t))
  {
    CommitOrderPrefixReleases(s, order, |order|);
    assert AskAll(order)[..|order|] == AskAll(order) && order[..|order|] == order;
  }

  ghost function LiveIn(s: State, ids: seq<TxnId>): iset<TxnId> {
    iset t: TxnId | Live(s, t) && t in ids
  }

  lemma {:induction false} CommitOrderPrefixReleases(s: State, order: seq<TxnId>, k: nat)
    requires Inv(s) && IsCommitOrder(s, order) && k <= |order| && s.now + k <= MAX_U64
    ensures RunFrom(s, AskAll(order)[..k]).now <= s.now + k
    ensures ReleasedIn(s, RunFrom(s, AskAll(order)[..k]), LiveIn(s, order[..k]))
  {
    if k != 0 {
      CommitOrderPrefixReleases(s, order, k - 1);
      var mid, t := RunFrom(s, AskAll(order)[..k - 1]), order[k - 1];
      assert AskAll(order)[..k][..k - 1] == AskAll(order)[..k - 1];
      AskedInCommitOrder(s, mid, order, k - 1);
      AskingReleases(s, mid, LiveIn(s, order[..k - 1]), LiveIn(s, order[..k]), t);
    }
  }

  lemma AskedInCommitOrder(s: State, mid: State, order: seq<TxnId>, k: nat)
    requires Inv(s) && IsCommitOrder(s, order) && k < |order|
    requires ReleasedIn(s, mid, LiveIn(s, order[..k]))
    ensures Admits(s, LiveIn(s, order[..k]), LiveIn(s, order[..k + 1]), order[k], ExternalizeValid(mid, order[k]))
  {
    assert order[..k + 1] == order[..k] + [order[k]];
    var t := order[k];
    NotYetAsked(s, order, k);
    if Live(s, t) && !Out(s, t) {
      forall p: TxnId | p in s.txns[t].predecessors ensures p < |s.txns| && mid.txns[p].externalized {
        EarlierIsInPrefix(s, order, k, p);
        assert Live(s, p);
      }
    }
  }

  lemma NotYetAsked(s: State, order: seq<TxnId>, k: nat)
    requires IsCommitOrder(s, order) && k < |order|
    ensures order[k] !in order[..k]
  {
  }

  lemma EarlierIsInPrefix(s: State, order: seq<TxnId>, k: nat, p: TxnId)
    requires IsCommitOrder(s, order) && k < |order|
    requires p < |s.txns| && s.txns[p].committed && s.txns[p].commitTime < s.txns[order[k]].commitTime
    ensures p in order[..k]
  {
    var i :| 0 <= i < |order| && order[i] == p;
    assert i < k;
    assert order[..k][i] == p;
  }

  // ---------------------------------------------------- a pass in id order

  /** What asking `t` does, unless it is exempt. */
  function AskUnless(s: State, exempt: Option<TxnId>, t: TxnId): (s': State)
    requires WellFormed(s)
    ensures WellFormed(s')
  {
    if exempt == Some(t) then s else Step(s, Externalize(t))
  }

  /** Ask ids 0 to `n - 1` in turn, leaving out `exempt`. */
  function IdPass(s: State, exempt: Option<TxnId>, n: nat): (s': State)
    requires WellFormed(s)
    ensures WellFormed(s')
  {
    if n == 0 then s else AskUnless(IdPass(s, exempt, n - 1), exempt, n - 1)
  }

  function IdPassCalls(exempt: Option<TxnId>, n: nat): seq<Action> {
    if n == 0 then []
    else if exempt == Some(n - 1) then IdPassCalls(exempt, n - 1)
    else IdPassCalls(exempt, n - 1) + [Externalize(n - 1)]
  }

  /** A pass is a run of `Externalize` calls. */
  lemma {:induction false} IdPassIsRun(s: State, exempt: Option<TxnId>, n: nat)
    requires WellFormed(s)
    ensures IdPass(s, exempt, n) == RunFrom(s, IdPassCalls(exempt, n))
  {
    if n != 0 {
      IdPassIsRun(s, exempt, n - 1);
      if exempt != Some(n - 1) {
        RunFromSnoc(s, IdPassCalls(exempt, n - 1), Externalize(n - 1));
      }
    }
  }

  /** So a pass after any calls is where the calls and then the pass lead. */
  lemma IdPassFromRun(calls: seq<Action>, exempt: Option<TxnId>, n: nat)
    ensures IdPass(Run(calls), exempt, n) == Run(calls + IdPassCalls(exempt, n))
  {
    IdPassIsRun(Run(calls), exempt, n);
    RunFromSplit(INITIAL, calls, IdPassCalls(exempt, n));
  }

  /** Whatever an unreleased live transaction still waits for has a smaller id. */
  ghost predicate IdCausal(s: State) {
    forall t: TxnId, p: TxnId {:trigger p in s.txns[t].predecessors} ::
      Live(s, t) && !Out(s, t) && p in s.txns[t].predecessors && !Out(s, p) ==> p < t
  }

  /** Not exempt, and not resting on an exempt transaction that is still inside. */
  ghost predicate MayLeave(s: State, exempt: Option<TxnId>, t: TxnId) {
    && Live(s, t) && exempt != Some(t)
    && (exempt.Some? && exempt.value in s.txns[t].predecessors ==> Out(s, exempt.value))
  }

  ghost function Leaving(s: State, exempt: Option<TxnId>, k: nat): iset<TxnId> {
    iset t: TxnId | t < k && MayLeave(s, exempt, t)
  }

  lemma IdPassStep(s: State, mid: State, exempt: Option<TxnId>, t: TxnId)
    requires Inv(s) && IdCausal(s) && t < |s.txns| && mid.now < MAX_U64 && WellFormed(mid)
    requires ReleasedIn(s, mid, Leaving(s, exempt, t))
    ensures ReleasedIn(s, AskUnless(mid, exempt, t), Leaving(s, exempt, t + 1))
    ensures AskUnless(mid, exempt, t).now <= mid.now + 1
  {
    if exempt == Some(t) {
      assert Leaving(s, exempt, t + 1) == Leaving(s, exempt, t);
    } else {
      AskedInIdOrder(s, mid, exempt, t);
      AskingReleases(s, mid, Leaving(s, exempt, t), Leaving(s, exempt, t + 1), t);
    }
  }

  lemma IdPassTurn(s: State, exempt: Option<TxnId>, t: TxnId)
    requires Inv(s) && IdCausal(s) && t < |s.txns| && IdPass(s, exempt, t).now < MAX_U64
    requires ReleasedIn(s, IdPass(s, exempt, t), Leaving(s, exempt, t))
    ensures IdPass(s, exempt, t + 1).now <= IdPass(s, exempt, t).now + 1
    ensures ReleasedIn(s, IdPass(s, exempt, t + 1), Leaving(s, exempt, t + 1))
  {
    var mid := IdPass(s, exempt, t);
    assert IdPass(s, exempt, t + 1) == AskUnless(mid, exempt, t);
    IdPassStep(s, mid, exempt, t);
  }

  /** What an id-order pass lets out, exactly, when it is a causal order. */
  lemma {:induction false} IdPassReleases(s: State, exempt: Option<TxnId>, k: nat)
    requires Inv(s) && IdCausal(s) && k <= |s.txns| && s.now + k <= MAX_U64
    ensures IdPass(s, exempt, k).now <= s.now + k
    ensures ReleasedIn(s, IdPass(s, exempt, k), Leaving(s, exempt, k))
  {
    if k != 0 {
      IdPassReleases(s, exempt, k - 1);
      IdPassTurn(s, exempt, k - 1);
    }
  }

  lemma AskedInIdOrder(s: State, mid: State, exempt: Option<TxnId>, t: TxnId)
    requires Inv(s) && IdCausal(s) && t < |s.txns| && exempt != Some(t)
    requires ReleasedIn(s, mid, Leaving(s, exempt, t))
    ensures Admits(s, Leaving(s, exempt, t), Leaving(s, exempt, t + 1), t, ExternalizeValid(mid, t))
  {
    if MayLeave(s, exempt, t) && !Out(s, t) {
      forall p: TxnId | p in s.txns[t].predecessors ensures p < |s.txns| && mid.txns[p].externalized {
        assert Live(s, p);
        assert Out(s, p) || MayLeave(s, exempt, p);
      }
    }
  }

  /** `t` still waits for `p`; once `p` has been asked that no longer matters. */
  ghost predicate Waiting(s: State, t: TxnId, p: TxnId, k: nat) {
    && t < |s.txns| && p < |s.txns| && p in s.txns[t].predecessors
    && !Out(s, t) && (k <= p ==> !Out(s, p))
  }

  lemma WaitingStep(s: State, t: TxnId, p: TxnId, k: nat)
    requires WellFormed(s) && t < p && Waiting(s, t, p, k)
    ensures Waiting(Step(s, Externalize(k)), t, p, k + 1)
  {
    assert k == t ==> !ExternalizeValid(s, t);
  }

  lemma {:induction false} IdPassKeepsWaiting(s: State, t: TxnId, p: TxnId, k: nat)
    requires WellFormed(s) && t < p && Waiting(s, t, p, 0)
    ensures Waiting(IdPass(s, None, k), t, p, k)
  {
    if k != 0 {
      IdPassKeepsWaiting(s, t, p, k - 1);
      WaitingStep(IdPass(s, None, k - 1), t, p, k - 1);
    }
  }

  /**
   One pass in id order leaves nothing live inside if and only if every transaction still inside
   waits only for smaller ids.  In general it does not: a transaction may read from one that began
   after it.
   */
  lemma {:induction false} IdPassReleasesAllIffCausal(calls: seq<Action>)
    requires Run(calls).now + |Run(calls).txns| <= MAX_U64
    ensures (forall t: TxnId :: Live(Run(calls), t) ==> Out(Run(calls + IdPassCalls(None, |Run(calls).txns|)), t))
            <==> IdCausal(Run(calls))
  {
    var s := Run(calls);
    var n := |s.txns|;
    RunKeepsInv(calls);
    IdPassFromRun(calls, None, n);
    if IdCausal(s) {
      IdPassReleases(s, None, n);
    } else {
      var t: TxnId, p: TxnId :| Live(s, t) && !Out(s, t) && p in s.txns[t].predecessors && !Out(s, p) && p >= t;
      IdPassKeepsWaiting(s, t, p, n);
    }
  }
}
