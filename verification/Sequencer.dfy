/**
 The L3 reorder buffer: effects complete in a shuffled order and are emitted in issuance order.  The
 shuffle reaches every order in exactly one way, and the buffer is right for all of them.
 */
module Sequencer {
  import opened Detectors

  // ------------------------------------------------------------ the shuffle

  function Identity(w: nat): (s: seq<nat>)
    ensures |s| == w && forall i :: 0 <= i < w ==> s[i] == i
  {
    seq(w, i requires 0 <= i < w => i)
  }

  ghost predicate Distinct(s: seq<nat>) {
    forall i, j :: 0 <= i < j < |s| ==> s[i] != s[j]
  }

  function Swap(s: seq<nat>, i: nat, j: nat): (r: seq<nat>)
    requires i < |s| && j < |s|
    ensures |r| == |s|
  {
    s[i := s[j]][j := s[i]]
  }

  /** Draw `i` picks a position not yet settled: the last `i` are. */
  ghost predicate Draws(w: nat, js: seq<nat>) {
    |js| <= w && forall i :: 0 <= i < |js| ==> js[i] < w - i
  }

  /** The order after some draws: each one settles the last unsettled position. */
  ghost function Drawn(s: seq<nat>, js: seq<nat>): (r: seq<nat>)
    requires Draws(|s|, js)
    ensures |r| == |s|
  {
    if js == [] then s
    else
      var n := |js| - 1;
      Swap(Drawn(s, js[..n]), |s| - 1 - n, js[n])
  }

  lemma SwapKeepsItems(s: seq<nat>, i: nat, j: nat)
    requires i < |s| && j < |s|
    ensures multiset(Swap(s, i, j)) == multiset(s)
    ensures Distinct(s) ==> Distinct(Swap(s, i, j))
  {
  }

  /** Whatever is drawn, the result is a permutation. */
  lemma {:induction false} DrawnIsPermutation(s: seq<nat>, js: seq<nat>)
    requires Draws(|s|, js)
    ensures multiset(Drawn(s, js)) == multiset(s)
    ensures Distinct(s) ==> Distinct(Drawn(s, js))
  {
    if js != [] {
      var n := |js| - 1;
      DrawnIsPermutation(s, js[..n]);
      SwapKeepsItems(Drawn(s, js[..n]), |s| - 1 - n, js[n]);
      assert Drawn(s, js) == Swap(Drawn(s, js[..n]), |s| - 1 - n, js[n]);
    }
  }

  /** A settled position keeps what was drawn for it. */
  lemma {:induction false} SettledStays(s: seq<nat>, js: seq<nat>, i: nat)
    requires Draws(|s|, js) && i < |js|
    ensures Drawn(s, js)[|s| - 1 - i] == Drawn(s, js[..i])[js[i]]
  {
    var n := |js| - 1;
    if i < n {
      SettledStays(s, js[..n], i);
      assert js[..n][..i] == js[..i];
    }
  }

  /** Different draws give different orders. */
  lemma {:induction false} DrawsAreUnique(s: seq<nat>, a: seq<nat>, b: seq<nat>, n: nat)
    requires Distinct(s) && Draws(|s|, a) && Draws(|s|, b) && n <= |a| == |b| && Drawn(s, a) == Drawn(s, b)
    ensures a[..n] == b[..n]
  {
    if n != 0 {
      var i := n - 1;
      DrawsAreUnique(s, a, b, i);
      SettledStays(s, a, i);
      SettledStays(s, b, i);
      DrawnIsPermutation(s, a[..i]);
      assert a[i] == b[i];
      assert a[..n] == a[..i] + [a[i]] && b[..n] == b[..i] + [b[i]];
    }
  }

  /** Any permutation can be drawn: settle its positions from the last. */
  lemma {:induction false} EveryOrderIsDrawn(s: seq<nat>, p: seq<nat>, n: nat) returns (js: seq<nat>)
    requires Distinct(s) && multiset(p) == multiset(s) && n <= |s|
    ensures Draws(|s|, js) && |js| == n && |p| == |s|
    ensures forall i :: |s| - n <= i < |s| ==> Drawn(s, js)[i] == p[i]
  {
    SameItems(s, p);
    if n == 0 {
      js := [];
    } else {
      var before := EveryOrderIsDrawn(s, p, n - 1);
      var sofar := Drawn(s, before);
      DrawnIsPermutation(s, before);
      var j := Unsettled(sofar, p, |s| - n);
      js := before + [j];
      assert js[..n - 1] == before;
      assert Drawn(s, js) == Swap(sofar, |s| - n, j);
    }
  }

  lemma SameItems(s: seq<nat>, p: seq<nat>)
    requires multiset(p) == multiset(s)
    ensures |p| == |s|
  {
    assert |multiset(p)| == |p| && |multiset(s)| == |s|;
  }

  /** The item wanted at position `k` is still among the first `k + 1`. */
  lemma Unsettled(sofar: seq<nat>, p: seq<nat>, k: nat) returns (j: nat)
    requires Distinct(sofar) && multiset(p) == multiset(sofar) && |p| == |sofar| && k < |p|
    requires forall i :: k < i < |p| ==> sofar[i] == p[i]
    ensures j <= k && sofar[j] == p[k]
  {
    assert p[k] in multiset(p);
    assert p[k] in multiset(sofar);
    assert p[k] in sofar;
    j :| 0 <= j < |sofar| && sofar[j] == p[k];
    if j > k {
      PermutationIsDistinct(sofar, p);
    }
  }

  lemma PermutationIsDistinct(s: seq<nat>, p: seq<nat>)
    requires Distinct(s) && multiset(p) == multiset(s)
    ensures Distinct(p)
  {
    forall i, j | 0 <= i < j < |p| ensures p[i] != p[j] {
      if p[i] == p[j] {
        TwoOccurrences(p, i, j);
        OneOccurrence(s, p[i]);
      }
    }
  }

  lemma TwoOccurrences(p: seq<nat>, i: nat, j: nat)
    requires i < j < |p| && p[i] == p[j]
    ensures multiset(p)[p[i]] >= 2
  {
    assert p == p[..j] + [p[j]] + p[j + 1..];
    assert p[..j] == p[..i] + [p[i]] + p[i + 1..j];
  }

  lemma {:induction false} OneOccurrence(s: seq<nat>, x: nat)
    requires Distinct(s)
    ensures multiset(s)[x] <= 1
  {
    if s != [] {
      var n := |s| - 1;
      assert s == s[..n] + [s[n]];
      OneOccurrence(s[..n], x);
      if s[n] == x {
        assert x !in s[..n];
        assert x !in multiset(s[..n]);
      }
    }
  }

  /**
   The shuffle is fair in the only sense a seeded one can be: every order of the effects, the identity
   included, comes from exactly one list of draws.
   */
  lemma {:induction false} EveryOrderHasOneDraw(w: nat, p: seq<nat>) returns (js: seq<nat>)
    requires multiset(p) == multiset(Identity(w))
    ensures Draws(w, js) && |js| == w && Drawn(Identity(w), js) == p
    ensures forall other :: Draws(w, other) && |other| == w && Drawn(Identity(w), other) == p ==> other == js
  {
    js := EveryOrderIsDrawn(Identity(w), p, w);
    forall other | Draws(w, other) && |other| == w && Drawn(Identity(w), other) == p ensures other == js {
      DrawsAreUnique(Identity(w), other, js, w);
      assert other[..w] == other && js[..w] == js;
    }
  }

  // ------------------------------------------------------------ the generator

  function FoldDown12(x: bv64): (y: bv64)
    ensures x != 0 ==> y != 0
  {
    x ^ (x >> 12)
  }

  function FoldUp25(x: bv64): (y: bv64)
    ensures x != 0 ==> y != 0
  {
    x ^ (x << 25)
  }

  function FoldDown27(x: bv64): (y: bv64)
    ensures x != 0 ==> y != 0
  {
    x ^ (x >> 27)
  }

  /** Seeded away from zero, the state never gets stuck there. */
  function Mixed(x: bv64): (y: bv64)
    ensures x != 0 ==> y != 0
  {
    FoldDown27(FoldUp25(FoldDown12(x)))
  }

  const MULTIPLIER := 0x2545F4914F6CDD1D

  function StateAfter(x: bv64, n: nat): bv64 {
    if n == 0 then x else Mixed(StateAfter(x, n - 1))
  }

  /** The output of a state: the product, wrapped at 64 bits. */
  function Output(x: bv64): nat {
    (x as nat * MULTIPLIER) % 0x1_0000_0000_0000_0000
  }

  /** The `n`-th output, counted from 1. */
  function OutputAt(x: bv64, n: nat): nat {
    Output(StateAfter(x, n))
  }

  /** From state 1, by hand: 1, folded, is 0x2000001. */
  lemma FirstOutput()
    ensures StateAfter(1, 1) == 0x2000001 && OutputAt(1, 1) == 0x47E4_CE4B_896C_DD1D
  {
    assert Mixed(1) == 0x2000001;
    assert (0x2000001 as bv64) as nat == 0x2000001;
  }

  lemma {:induction false} StatesCompose(x: bv64, m: nat, n: nat)
    ensures StateAfter(StateAfter(x, m), n) == StateAfter(x, m + n)
  {
    if n != 0 {
      StatesCompose(x, m, n - 1);
    }
  }

  function Remainder(x: nat, m: nat): (r: nat)
    requires m > 0
    ensures r < m
  {
    x % m
  }

  /** The draws of a shuffle of `w` effects from state `x`: output after output, each reduced to what is unsettled. */
  ghost function DrawsFrom(x: bv64, w: nat, n: nat): (js: seq<nat>)
    requires n <= w
    ensures |js| == n && Draws(w, js)
  {
    seq(n, i requires 0 <= i < n => Remainder(OutputAt(x, i + 1), w - i))
  }

  /** Every position but the first is settled by a draw. */
  function DrawsNeeded(w: nat): (n: nat)
    ensures n <= w
  {
    if w == 0 then 0 else w - 1
  }

  /** The order a shuffle leaves, and whether it is out of order. */
  ghost function OrderFrom(x: bv64, w: nat): seq<nat> {
    Drawn(Identity(w), DrawsFrom(x, w, DrawsNeeded(w)))
  }

  ghost predicate TopDraws(w: nat, js: seq<nat>) {
    forall i: nat :: i < |js| ==> js[i] + i + 1 == w
  }

  lemma {:induction false} TopDrawsKeepOrder(w: nat, js: seq<nat>)
    requires Draws(w, js) && TopDraws(w, js)
    ensures Drawn(Identity(w), js) == Identity(w)
  {
    if js != [] {
      var n := |js| - 1;
      TopDrawsKeepOrder(w, js[..n]);
      assert js[n] == w - 1 - n;
    }
  }

  ghost function TopDrawsOf(w: nat, n: nat): (js: seq<nat>)
    requires n <= w
    ensures |js| == n && Draws(w, js) && TopDraws(w, js)
  {
    seq(n, i requires 0 <= i < n => w - 1 - i)
  }

  /** The order is kept exactly when every draw is of the position it settles. */
  lemma {:induction false} KeptIffTopDraws(w: nat, js: seq<nat>)
    requires Draws(w, js)
    ensures Drawn(Identity(w), js) == Identity(w) <==> TopDraws(w, js)
  {
    var top := TopDrawsOf(w, |js|);
    TopDrawsKeepOrder(w, top);
    if TopDraws(w, js) {
      TopDrawsKeepOrder(w, js);
    }
    if Drawn(Identity(w), js) == Identity(w) {
      DrawsAreUnique(Identity(w), js, top, |js|);
      assert js[..|js|] == js && top[..|js|] == top;
    }
  }

  function Seeded(seed: bv64): bv64 {
    if seed == 0 then 1 else seed
  }

  class XorShift {
    var state: bv64

    ghost predicate Valid()
      reads this
    {
      state != 0
    }

    constructor (seed: bv64)
      ensures Valid() && state == Seeded(seed)
    {
      state := if seed == 0 then 1 else seed;
    }

    method Next() returns (x: nat)
      requires Valid()
      modifies this
      ensures Valid() && state == StateAfter(old(state), 1) && x == OutputAt(old(state), 1)
    {
      state := Mixed(state);
      x := Output(state);
    }

    method Below(n: nat) returns (r: nat)
      requires Valid()
      modifies this
      ensures Valid() && state == StateAfter(old(state), 1)
      ensures r == Remainder(OutputAt(old(state), 1), if n == 0 then 1 else n)
    {
      var x := Next();
      r := Remainder(x, if n == 0 then 1 else n);
    }
  }

  // ------------------------------------------------------------ the buffer

  datatype Mode = Unsequenced | Sequenced

  /** Issued and committed orders of at least two effects differ. */
  predicate A6Witness(io: seq<nat>, co: seq<nat>) {
    |io| >= 2 && |io| == |co| && io != co
  }

  /** How many of the first effects have all completed. */
  function CompletedPrefix(done: set<nat>, w: nat): (n: nat)
    ensures n <= w && (forall i: nat :: i < n ==> i in done) && (n < w ==> n !in done)
  {
    PrefixFrom(done, w, 0)
  }

  function PrefixFrom(done: set<nat>, w: nat, n: nat): (m: nat)
    requires n <= w && forall i: nat :: i < n ==> i in done
    ensures n <= m <= w && (forall i: nat :: i < m ==> i in done) && (m < w ==> m !in done)
    decreases w - n
  {
    if n < w && n in done then PrefixFrom(done, w, n + 1) else n
  }

  lemma PrefixIsUnique(done: set<nat>, w: nat, n: nat)
    requires n <= w && (forall i: nat :: i < n ==> i in done) && (n < w ==> n !in done)
    ensures n == CompletedPrefix(done, w)
  {
  }

  ghost function CompletedBy(sched: seq<nat>, n: nat): set<nat>
    requires n <= |sched|
  {
    set i: nat | i < n :: sched[i]
  }

  /** The shuffle, in place. */
  method Shuffle(sched: array<nat>, rng: XorShift)
    requires rng.Valid() && sched[..] == Identity(sched.Length)
    modifies sched, rng
    ensures rng.Valid() && rng.state == StateAfter(old(rng.state), DrawsNeeded(sched.Length))
    ensures sched[..] == OrderFrom(old(rng.state), sched.Length)
  {
    var w := sched.Length;
    var k: nat := w;
    ghost var x, n: nat := rng.state, 0;
    while k > 1
      invariant n + k == w && (w > 0 ==> k > 0)
      invariant rng.Valid() && rng.state == StateAfter(x, n)
      invariant sched[..] == Drawn(Identity(w), DrawsFrom(x, w, n))
    {
      k := k - 1;
      NextState(x, n);
      NextDraw(x, w, n, k);
      Settle(sched, rng, k);
      n := n + 1;
    }
  }

  /** One draw settles position `k`. */
  method Settle(sched: array<nat>, rng: XorShift, k: nat)
    requires rng.Valid() && k < sched.Length
    modifies sched, rng
    ensures rng.Valid() && rng.state == StateAfter(old(rng.state), 1)
    ensures sched[..] == Swap(old(sched[..]), k, Remainder(OutputAt(old(rng.state), 1), k + 1))
  {
    var j := rng.Below(k + 1);
    sched[k], sched[j] := sched[j], sched[k];
  }

  lemma NextState(x: bv64, n: nat)
    ensures StateAfter(StateAfter(x, n), 1) == StateAfter(x, n + 1)
    ensures OutputAt(StateAfter(x, n), 1) == OutputAt(x, n + 1)
  {
    StatesCompose(x, n, 1);
  }

  lemma NextDraw(x: bv64, w: nat, n: nat, k: nat)
    requires n + k + 1 == w
    ensures Drawn(Identity(w), DrawsFrom(x, w, n + 1))
            == Swap(Drawn(Identity(w), DrawsFrom(x, w, n)), k, Remainder(OutputAt(x, n + 1), k + 1))
  {
    var before, after := DrawsFrom(x, w, n), DrawsFrom(x, w, n + 1);
    assert after[..n] == before;
  }

  /**
   One completion.  What goes out is the longest prefix all of whose effects have completed now, and nothing
   that was out already: the buffer never runs ahead and never holds back.
   */
  method Complete(completed: array<bool>, i: nat, out: nat, ghost done: set<nat>) returns (batch: seq<nat>, next: nat)
    requires i < completed.Length && out == CompletedPrefix(done, completed.Length)
    requires forall k: nat :: k < completed.Length ==> (completed[k] <==> k in done)
    modifies completed
    ensures forall k: nat :: k < completed.Length ==> (completed[k] <==> k in done + {i})
    ensures next == CompletedPrefix(done + {i}, completed.Length) && out <= next
    ensures batch == Identity(next)[out..]
  {
    completed[i] := true;
    batch, next := [], out;
    while next < completed.Length && completed[next]
      invariant out <= next <= completed.Length && batch == Identity(next)[out..]
      invariant forall k: nat :: k < next ==> k in done + {i}
    {
      batch := batch + [next];
      next := next + 1;
    }
    PrefixIsUnique(done + {i}, completed.Length, next);
  }

  /** Over any completion order everything goes out, in issuance order. */
  method Sequence(sched: seq<nat>) returns (emitted: seq<nat>)
    requires multiset(sched) == multiset(Identity(|sched|))
    ensures emitted == Identity(|sched|)
  {
    var w := |sched|;
    ItemsOfIdentity(sched);
    var completed := new bool[w](_ => false);
    emitted := [];
    var next := 0;
    var n: nat := 0;
    PrefixIsUnique(CompletedBy(sched, 0), w, 0);
    while n < w
      invariant n <= w && next == CompletedPrefix(CompletedBy(sched, n), w) && emitted == Identity(next)
      invariant forall i: nat :: i < w ==> (completed[i] <==> i in CompletedBy(sched, n))
    {
      assert CompletedBy(sched, n + 1) == CompletedBy(sched, n) + {sched[n]};
      var batch;
      ghost var out := next;
      batch, next := Complete(completed, sched[n], next, CompletedBy(sched, n));
      assert emitted + batch == Identity(next);
      emitted := emitted + batch;
      n := n + 1;
    }
    PrefixIsUnique(CompletedBy(sched, w), w, w);
  }

  /** A completion order names each effect once. */
  lemma ItemsOfIdentity(sched: seq<nat>)
    requires multiset(sched) == multiset(Identity(|sched|))
    ensures forall i: nat :: i < |sched| ==> sched[i] < |sched|
    ensures forall x: nat :: x < |sched| ==> x in CompletedBy(sched, |sched|)
  {
    forall i: nat | i < |sched| ensures sched[i] < |sched| {
      assert sched[i] in multiset(sched);
      assert sched[i] in multiset(Identity(|sched|));
      assert sched[i] in Identity(|sched|);
    }
    forall x: nat | x < |sched| ensures x in CompletedBy(sched, |sched|) {
      assert Identity(|sched|)[x] in multiset(Identity(|sched|));
      assert x in multiset(sched);
      assert x in sched;
      var i :| 0 <= i < |sched| && sched[i] == x;
    }
  }

  method IsReordered(sched: seq<nat>) returns (reordered: bool)
    ensures reordered <==> sched != Identity(|sched|)
  {
    var p := 0;
    while p < |sched|
      invariant 0 <= p <= |sched|
      invariant forall i :: 0 <= i < p ==> sched[i] == i
    {
      if sched[p] != p {
        return true;
      }
      p := p + 1;
    }
    return false;
  }

  /** Some draw is not of the position it settles. */
  ghost predicate Reorders(x: bv64, w: nat) {
    !TopDraws(w, DrawsFrom(x, w, DrawsNeeded(w)))
  }

  /** One run: unsequenced effects go out as they complete, sequenced ones in issuance order. */
  method RunOnce(w: nat, mode: Mode, rng: XorShift) returns (co: seq<nat>, reordered: bool)
    requires rng.Valid()
    modifies rng
    ensures rng.Valid() && rng.state == StateAfter(old(rng.state), DrawsNeeded(w))
    ensures reordered <==> Reorders(old(rng.state), w)
    ensures mode == Unsequenced ==> co == OrderFrom(old(rng.state), w)
    ensures |co| == w && multiset(co) == multiset(Identity(w))
    ensures mode == Sequenced ==> co == Identity(w)
    ensures mode == Unsequenced ==> (reordered <==> co != Identity(w))
    ensures A6Witness(Identity(w), co) <==> mode == Unsequenced && reordered
  {
    var sched := new nat[w](i => i);
    assert sched[..] == Identity(w);
    ghost var x := rng.state;
    Shuffle(sched, rng);
    DrawnIsPermutation(Identity(w), DrawsFrom(x, w, DrawsNeeded(w)));
    KeptIffTopDraws(w, DrawsFrom(x, w, DrawsNeeded(w)));
    reordered := IsReordered(sched[..]);
    if reordered {
      AtLeastTwo(sched[..]);
    }
    match mode
    case Unsequenced => co := sched[..];
    case Sequenced => co := Sequence(sched[..]);
  }

  /** One effect cannot be out of order. */
  lemma AtLeastTwo(sched: seq<nat>)
    requires multiset(sched) == multiset(Identity(|sched|)) && sched != Identity(|sched|)
    ensures |sched| >= 2
  {
    ItemsOfIdentity(sched);
  }

  /** Where the generator stands after some runs, and how many of them were out of order. */
  ghost function StateAfterRuns(x: bv64, w: nat, runs: nat): bv64 {
    if runs == 0 then x else StateAfter(StateAfterRuns(x, w, runs - 1), DrawsNeeded(w))
  }

  ghost function ReorderedAmong(x: bv64, w: nat, runs: nat): (n: nat)
    ensures n <= runs
  {
    if runs == 0 then 0
    else ReorderedAmong(x, w, runs - 1) + if Reorders(StateAfterRuns(x, w, runs - 1), w) then 1 else 0
  }

  /**
   Over any number of runs exactly those whose draws say so are reordered; unsequenced, A6 fires in exactly
   these; sequenced, never.
   */
  method RunExperiment(runs: nat, width: nat, mode: Mode, seed: bv64) returns (a6Positive: nat, reorderedRuns: nat)
    ensures reorderedRuns == ReorderedAmong(Seeded(seed), width, runs)
    ensures mode == Unsequenced ==> a6Positive == reorderedRuns
    ensures mode == Sequenced ==> a6Positive == 0
  {
    var rng := new XorShift(seed);
    a6Positive, reorderedRuns := 0, 0;
    for n: nat := 0 to runs
      invariant rng.Valid() && rng.state == StateAfterRuns(Seeded(seed), width, n)
      invariant reorderedRuns == ReorderedAmong(Seeded(seed), width, n)
      invariant a6Positive == if mode == Unsequenced then reorderedRuns else 0
    {
      var co, reordered := RunOnce(width, mode, rng);
      if reordered {
        reorderedRuns := reorderedRuns + 1;
      }
      if A6Witness(Identity(width), co) {
        a6Positive := a6Positive + 1;
      }
    }
  }

  // ---------------------------------------------- the harness's own seeds

  /** The first two states from the seed the harness uses at width 2, and their outputs' last bits. */
  lemma WidthTwoStates()
    ensures StateAfter(0xC0_FFF0, 1) == 0x181_E7FE_F0CF_00 && OutputAt(0xC0_FFF0, 1) % 2 == 0
    ensures StateAfter(0xC0_FFF0, 2) == 0xFFC0_9FA0_009C_D7F3 && OutputAt(0xC0_FFF0, 2) % 2 == 1
  {
    assert Mixed(0xC0_FFF0) == 0x181_E7FE_F0CF_00;
    assert Mixed(0x181_E7FE_F0CF_00) == 0xFFC0_9FA0_009C_D7F3;
    assert (0x181_E7FE_F0CF_00 as bv64) as nat == 0x181_E7FE_F0CF_00;
    assert (0xFFC0_9FA0_009C_D7F3 as bv64) as nat == 0xFFC0_9FA0_009C_D7F3;
  }

  /** And the first ones from those it uses at widths 4 and 8. */
  lemma WidthFourState()
    ensures StateAfter(0xC0_FFF2, 1) == 0x181_E7FA_F0CF_02 && OutputAt(0xC0_FFF2, 1) % 4 == 2
  {
    assert Mixed(0xC0_FFF2) == 0x181_E7FA_F0CF_02;
    assert (0x181_E7FA_F0CF_02 as bv64) as nat == 0x181_E7FA_F0CF_02;
  }

  lemma WidthEightState()
    ensures StateAfter(0xC0_FFF6, 1) == 0x181_E7F2_F0CF_07 && OutputAt(0xC0_FFF6, 1) % 8 == 3
  {
    assert Mixed(0xC0_FFF6) == 0x181_E7F2_F0CF_07;
    assert (0x181_E7F2_F0CF_07 as bv64) as nat == 0x181_E7F2_F0CF_07;
  }

  /** A first draw below the top reorders; at width 2 there is no other draw. */
  lemma FirstDrawReorders(x: bv64, w: nat)
    requires w >= 2
    ensures Remainder(OutputAt(x, 1), w) != w - 1 ==> Reorders(x, w)
    ensures w == 2 ==> (Reorders(x, w) <==> Remainder(OutputAt(x, 1), w) != w - 1)
  {
    var js := DrawsFrom(x, w, DrawsNeeded(w));
    assert js[0] == Remainder(OutputAt(x, 0 + 1), w - 0);
    assert TopDraws(w, js) ==> js[0] + 0 + 1 == w;
  }

  lemma {:induction false} ReorderedGrows(x: bv64, w: nat, first: nat, runs: nat)
    requires first <= runs
    ensures ReorderedAmong(x, w, first) <= ReorderedAmong(x, w, runs) <= ReorderedAmong(x, w, first) + runs - first
    decreases runs
  {
    if first < runs {
      ReorderedGrows(x, w, first, runs - 1);
    }
  }

  /**
   The harness's seeds tell the arms apart.  At each of its widths the first run is already out of order, and
   at width 2 the second is not: however many runs follow, some reorder, and at width 2 some do not.
   */
  lemma {:induction false} HarnessSeedsDiscriminate(runs: nat)
    requires runs >= 2
    ensures 0 < ReorderedAmong(0xC0_FFF0, 2, runs) < runs
    ensures 0 < ReorderedAmong(0xC0_FFF2, 4, runs) && 0 < ReorderedAmong(0xC0_FFF6, 8, runs)
  {
    WidthFourState();
    WidthEightState();
    FirstReorders(0xC0_FFF2, 4, runs);
    FirstReorders(0xC0_FFF6, 8, runs);
    WidthTwoRuns();
    ReorderedGrows(0xC0_FFF0, 2, 2, runs);
  }

  lemma FirstReorders(x: bv64, w: nat, runs: nat)
    requires w >= 2 && runs >= 1 && Remainder(OutputAt(x, 1), w) != w - 1
    ensures ReorderedAmong(x, w, runs) > 0
  {
    FirstDrawReorders(x, w);
    assert ReorderedAmong(x, w, 1) == 1;
    ReorderedGrows(x, w, 1, runs);
  }

  lemma WidthTwoRuns()
    ensures ReorderedAmong(0xC0_FFF0, 2, 2) == 1
  {
    var x: bv64 := 0xC0_FFF0;
    WidthTwoStates();
    NextState(x, 1);
    FirstDrawReorders(x, 2);
    FirstDrawReorders(StateAfter(x, 1), 2);
    assert StateAfterRuns(x, 2, 1) == StateAfter(StateAfterRuns(x, 2, 0), 1) == StateAfter(x, 1);
    assert ReorderedAmong(x, 2, 1) == 1;
  }

  // -------------------------------------------- the record-level detector

  /** Effects as writes of a record. */
  function Effects(order: seq<nat>): (writes: seq<(nat, nat)>)
    ensures |writes| == |order|
  {
    seq(|order|, i requires 0 <= i < |order| => (order[i], order[i]))
  }

  lemma EffectsTellOrders(a: seq<nat>, b: seq<nat>)
    ensures Effects(a) == Effects(b) <==> a == b
  {
    if Effects(a) == Effects(b) {
      assert |a| == |b|;
      forall i | 0 <= i < |a| ensures a[i] == b[i] {
        assert Effects(a)[i] == Effects(b)[i];
      }
    }
  }

  /**
   The two definitions of the anomaly agree: a record that intends the effects in issuance order and commits
   them in a completion order is one the record-level detector flags, exactly when this one does.
   */
  lemma {:induction false} DetectorsAgree(r: OpRecord, co: seq<nat>)
    requires multiset(co) == multiset(Identity(|co|))
    requires r.io == Effects(Identity(|co|)) && r.co == Effects(co)
    ensures A6At(r) <==> A6Witness(Identity(|co|), co)
  {
    EffectsTellOrders(Identity(|co|), co);
    if co != Identity(|co|) {
      AtLeastTwo(co);
    }
  }
}
