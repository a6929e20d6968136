/**
 Version chains and the committed history behind them, shared by both L1 stores.

 Cells and values are ids; value 0 is the NULL sentinel, which is also what a cell that was never
 written reads as.
 */
module Versions {
  import opened Common

  type Cell = nat
  type Val = nat
  type Agent = nat
  type Time = nat
  type Writes = seq<(Cell, Val)>

  datatype Version = Version(cell: Cell, time: Time, val: Val)

  /** One committed operation in a store's own trace. */
  datatype Rec = Rec(agent: Agent, readCells: seq<Cell>, readTime: Time, writeCells: seq<Cell>, writeTime: Time)

  /** What `begin` hands out: one value per requested cell, in request order. */
  datatype Snapshot = Snapshot(agent: Agent, readTime: Time, readCells: seq<Cell>, readValues: seq<(Cell, Val)>)

  /** What each clock tick committed: the writes that landed at time `i + 1` are `history[i]`. */
  type History = seq<Writes>

  /** The value a list of writes leaves in a cell, if it writes it. */
  function LastWrite(writes: Writes, c: Cell): Option<Val> {
    if c in LastWrites(writes) then Some(LastWrites(writes)[c]) else None
  }

  predicate WritesCell(writes: Writes, c: Cell) {
    exists i :: 0 <= i < |writes| && writes[i].0 == c
  }

  lemma {:induction false} LastWriteIsSome(writes: Writes, c: Cell)
    ensures LastWrite(writes, c).Some? <==> WritesCell(writes, c)
  {
    if writes != [] {
      var before := writes[..|writes| - 1];
      LastWriteIsSome(before, c);
      if WritesCell(writes, c) && writes[|writes| - 1].0 != c {
        var i :| 0 <= i < |writes| && writes[i].0 == c;
        assert before[i].0 == c;
      }
      if WritesCell(before, c) {
        var i :| 0 <= i < |before| && before[i].0 == c;
        assert writes[i].0 == c;
      }
    }
  }

  function CellsOf(writes: Writes): (cells: seq<Cell>)
    ensures |cells| == |writes|
  {
    seq(|writes|, i requires 0 <= i < |writes| => writes[i].0)
  }

  lemma CellsOfHolds(writes: Writes, c: Cell)
    ensures c in CellsOf(writes) <==> WritesCell(writes, c)
  {
    if WritesCell(writes, c) {
      var i :| 0 <= i < |writes| && writes[i].0 == c;
      assert CellsOf(writes)[i] == c;
    }
  }

  /** Serial replay: what a cell holds after the commits up to time `t`, one after another. */
  function ValueAt(history: History, t: Time, c: Cell): Val
    requires t <= |history|
  {
    if t == 0 then 0
    else
      match LastWrite(history[t - 1], c)
      case Some(v) => v
      case None => ValueAt(history, t - 1, c)
  }

  lemma {:induction false} ValueAtPrefix(history: History, more: History, t: Time, c: Cell)
    requires t <= |history| <= |more| && more[..|history|] == history
    ensures ValueAt(more, t, c) == ValueAt(history, t, c)
  {
    if t != 0 {
      assert more[t - 1] == more[..|history|][t - 1];
      ValueAtPrefix(history, more, t - 1, c);
    }
  }

  lemma ValueAtSnoc(history: History, writes: Writes, t: Time, c: Cell)
    requires t <= |history|
    ensures ValueAt(history + [writes], t, c) == ValueAt(history, t, c)
  {
    ValueAtPrefix(history, history + [writes], t, c);
  }

  /** The commit at time `t` wrote the cell. */
  predicate WroteAt(history: History, t: Time, c: Cell) {
    0 < t <= |history| && WritesCell(history[t - 1], c)
  }

  /** No commit after `from`, up to and including `to`, writes the cell. */
  ghost predicate Untouched(history: History, from: Time, to: Time, c: Cell)
  {
    forall t: Time :: from < t <= to ==> !WroteAt(history, t, c)
  }

  lemma {:induction false} UntouchedKeepsValue(history: History, from: Time, to: Time, c: Cell)
    requires from <= to <= |history| && Untouched(history, from, to, c)
    ensures ValueAt(history, to, c) == ValueAt(history, from, c)
  {
    if from < to {
      assert !WroteAt(history, to, c);
      LastWriteIsSome(history[to - 1], c);
      UntouchedKeepsValue(history, from, to - 1, c);
    }
  }

  lemma UntouchedPrefix(history: History, more: History, from: Time, until: Time, c: Cell)
    requires |history| <= |more| && more[..|history|] == history && until <= |history|
    requires Untouched(history, from, until, c)
    ensures Untouched(more, from, until, c)
  {
    forall t: Time | from < t <= until ensures !WroteAt(more, t, c) {
      assert !WroteAt(history, t, c);
      assert more[t - 1] == more[..|history|][t - 1];
    }
  }

  lemma WroteAtPrefix(history: History, more: History, t: Time, c: Cell)
    requires |history| <= |more| && more[..|history|] == history && t <= |history|
    ensures WroteAt(more, t, c) <==> WroteAt(history, t, c)
    ensures 0 < t ==> more[t - 1] == history[t - 1]
  {
    if 0 < t {
      assert more[t - 1] == more[..|history|][t - 1];
    }
  }

  /** A value other than NULL was put there by some commit, and nothing has overwritten it. */
  lemma {:induction false} ValueHasSource(history: History, t: Time, c: Cell) returns (source: Time)
    requires t <= |history| && ValueAt(history, t, c) != 0
    ensures 0 < source <= t && LastWrite(history[source - 1], c) == Some(ValueAt(history, t, c))
    ensures Untouched(history, source, t, c)
  {
    if LastWrite(history[t - 1], c).Some? {
      source := t;
    } else {
      source := ValueHasSource(history, t - 1, c);
      LastWriteIsSome(history[t - 1], c);
    }
  }

  /** A snapshot's values are what serial replay up to time `t` leaves in its cells. */
  ghost predicate ReadsReplayAt(history: History, snap: Snapshot, t: Time) {
    && t <= |history|
    && |snap.readValues| == |snap.readCells|
    && forall i :: 0 <= i < |snap.readCells| ==>
         snap.readValues[i] == (snap.readCells[i], ValueAt(history, t, snap.readCells[i]))
  }

  lemma ReadsReplaySnoc(history: History, writes: Writes, snap: Snapshot, t: Time)
    requires ReadsReplayAt(history, snap, t)
    ensures ReadsReplayAt(history + [writes], snap, t)
  {
    forall i | 0 <= i < |snap.readCells|
      ensures ValueAt(history + [writes], t, snap.readCells[i]) == ValueAt(history, t, snap.readCells[i])
    {
      ValueAtSnoc(history, writes, t, snap.readCells[i]);
    }
  }

  // -------------------------------------------------------- version chains

  function VersionsAt(writes: Writes, t: Time): (vs: seq<Version>)
    ensures |vs| == |writes|
  {
    seq(|writes|, i requires 0 <= i < |writes| => Version(writes[i].0, t, writes[i].1))
  }

  /** The flat chain a history leaves: one version per write, in commit order. */
  function Chain(history: History): seq<Version> {
    if history == [] then []
    else Chain(history[..|history| - 1]) + VersionsAt(history[|history| - 1], |history|)
  }

  lemma ChainSnoc(history: History, writes: Writes)
    ensures Chain(history + [writes]) == Chain(history) + VersionsAt(writes, |history| + 1)
  {
    assert (history + [writes])[..|history|] == history;
  }

  /** Chain times never decrease, start at 1 and end at the clock. */
  lemma {:induction false} ChainIsSorted(history: History)
    ensures forall k :: 0 <= k < |Chain(history)| ==> 1 <= Chain(history)[k].time <= |history|
    ensures forall i, j :: 0 <= i <= j < |Chain(history)| ==> Chain(history)[i].time <= Chain(history)[j].time
  {
    if history != [] {
      ChainIsSorted(history[..|history| - 1]);
    }
  }

  predicate HasVersion(vs: seq<Version>, c: Cell, t: Time) {
    exists k :: 0 <= k < |vs| && vs[k].cell == c && vs[k].time == t
  }

  /** The chain holds a version of a cell at a time exactly when that commit wrote it. */
  lemma {:induction false} ChainHolds(history: History, c: Cell, t: Time)
    ensures HasVersion(Chain(history), c, t) <==> WroteAt(history, t, c)
  {
    if history != [] {
      var before, last := history[..|history| - 1], VersionsAt(history[|history| - 1], |history|);
      ChainHolds(before, c, t);
      HasVersionConcat(Chain(before), last, c, t);
      VersionsAtHolds(history[|history| - 1], |history|, c, t);
      ChainIsSorted(before);
      if 0 < t < |history| {
        assert before[t - 1] == history[t - 1];
      }
    }
  }

  lemma HasVersionConcat(first: seq<Version>, second: seq<Version>, c: Cell, t: Time)
    ensures HasVersion(first + second, c, t) <==> HasVersion(first, c, t) || HasVersion(second, c, t)
  {
    var both := first + second;
    if HasVersion(first, c, t) {
      var k :| 0 <= k < |first| && first[k].cell == c && first[k].time == t;
      assert both[k] == first[k];
    }
    if HasVersion(second, c, t) {
      var k :| 0 <= k < |second| && second[k].cell == c && second[k].time == t;
      assert both[|first| + k] == second[k];
    }
  }

  lemma VersionsAtHolds(writes: Writes, now: Time, c: Cell, t: Time)
    ensures HasVersion(VersionsAt(writes, now), c, t) <==> t == now && WritesCell(writes, c)
  {
    if t == now && WritesCell(writes, c) {
      var i :| 0 <= i < |writes| && writes[i].0 == c;
      assert VersionsAt(writes, now)[i].cell == c;
    }
  }

  /** The value of the last version of a cell in a chain, NULL if it has none. */
  function Latest(vs: seq<Version>, c: Cell): Val {
    if vs == [] then 0
    else if vs[|vs| - 1].cell == c then vs[|vs| - 1].val
    else Latest(vs[..|vs| - 1], c)
  }

  lemma {:induction false} LatestConcat(vs: seq<Version>, writes: Writes, t: Time, c: Cell)
    ensures Latest(vs + VersionsAt(writes, t), c)
            == match LastWrite(writes, c) case Some(v) => v case None => Latest(vs, c)
  {
    var added := VersionsAt(writes, t);
    if writes == [] {
      assert vs + added == vs;
    } else {
      LatestConcat(vs, writes[..|writes| - 1], t, c);
      assert (vs + added)[..|vs + added| - 1] == vs + VersionsAt(writes[..|writes| - 1], t);
    }
  }

  /** The latest version in the chain is what serial replay of the whole history leaves. */
  lemma {:induction false} LatestIsReplay(history: History, c: Cell)
    ensures Latest(Chain(history), c) == ValueAt(history, |history|, c)
  {
    if history != [] {
      var before := history[..|history| - 1];
      LatestIsReplay(before, c);
      LatestConcat(Chain(before), history[|history| - 1], |history|, c);
      ValueAtPrefix(before, history, |before|, c);
    }
  }
}
