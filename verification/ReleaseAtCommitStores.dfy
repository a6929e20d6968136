/**
 The two baseline stores in their own form: objects whose methods update them in place.  Every method
 is proved against the step of the same name.
 */
module ReleaseAtCommitStores {
  import opened Common
  import opened Provenance
  import R = ReleaseAtCommit

  class UnguardedStore {
    var txns: seq<R.Txn>
    var cellValue: map<nat, nat>
    var cellWriter: map<nat, nat>

    ghost function View(): R.Store
      reads this
    {
      R.Store(txns, cellValue, cellWriter)
    }

    constructor ()
      ensures View() == R.EMPTY
    {
      txns, cellValue, cellWriter := [], map[], map[];
    }

    method Begin() returns (t: nat)
      modifies this
      ensures View() == R.Begin(old(View())) && t == |old(txns)|
    {
      txns := txns + [R.STARTED];
      t := |txns| - 1;
    }

    /** Reads a cell and acquires its writer as a causal predecessor. */
    method Read(t: nat, c: nat)
      requires t < |txns|
      modifies this
      ensures View() == R.Read(old(View()), t, c)
    {
      var txn := txns[t];
      if c !in txn.readCells {
        txn := txn.(readCells := txn.readCells + [c]);
      }
      if c in cellValue {
        txn := txn.(readValues := txn.readValues[c := cellValue[c]]);
      }
      if c in cellWriter {
        var w := cellWriter[c];
        if w != t && w !in txn.predecessors {
          txn := txn.(predecessors := txn.predecessors + [w]);
        }
      }
      txns := txns[t := txn];
    }

    method ReadsFresh(t: nat) returns (allFresh: bool)
      requires t < |txns|
      ensures allFresh <==> R.ReadsFresh(View(), t)
    {
      var txn := txns[t];
      var i := 0;
      while i < |txn.readCells|
        invariant 0 <= i <= |txn.readCells|
        invariant forall k :: 0 <= k < i ==>
                    var c := txn.readCells[k];
                    c in cellValue && c in txn.readValues && cellValue[c] == txn.readValues[c]
      {
        var c := txn.readCells[i];
        if !(c in cellValue && c in txn.readValues && cellValue[c] == txn.readValues[c]) {
          return false;
        }
        i := i + 1;
      }
      return true;
    }

    /** Commits and releases if the reads are fresh; the last write to a cell wins. */
    method Commit(t: nat, writes: seq<(nat, nat)>) returns (ok: bool)
      requires t < |txns|
      modifies this
      ensures ok == R.CommitAccepted(old(View()), t)
      ensures View() == R.Commit(old(View()), t, writes)
    {
      if !txns[t].started || txns[t].committed || txns[t].aborted {
        return false;
      }
      var allFresh := ReadsFresh(t);
      if !allFresh {
        return false;
      }
      var i := 0;
      while i < |writes|
        invariant 0 <= i <= |writes|
        invariant txns == old(txns)
        invariant cellValue == old(cellValue) + LastWrites(writes[..i])
        invariant cellWriter == old(cellWriter) + WriterMap(LastWrites(writes[..i]), t)
      {
        PublishOne(old(cellValue), old(cellWriter), writes, i, t);
        cellValue := cellValue[writes[i].0 := writes[i].1];
        cellWriter := cellWriter[writes[i].0 := t];
        i := i + 1;
      }
      assert writes[..|writes|] == writes;
      txns := txns[t := txns[t].(committed := true)];
      txns := txns[t := txns[t].(externalized := true)];
      return true;
    }

    /** Flags the transaction and nothing else. */
    method Abort(t: nat)
      requires t < |txns|
      modifies this
      ensures View() == R.Abort(old(View()), t)
    {
      txns := txns[t := txns[t].(aborted := true)];
    }
  }

  /** The transactions that `after` flags and `before` does not. */
  ghost function NewlyFlagged(before: seq<R.Txn>, after: seq<R.Txn>): set<nat>
    requires |after| == |before|
  {
    set i: nat | i < |before| && after[i].aborted && !before[i].aborted
  }

  function FlagIds(txns: seq<R.Txn>, ids: seq<nat>): (flagged: seq<R.Txn>)
    ensures |flagged| == |txns|
  {
    seq(|txns|, i requires 0 <= i < |txns| => if i in ids then txns[i].(aborted := true) else txns[i])
  }

  lemma FlagOne(before: seq<R.Txn>, ids: seq<nat>, i: nat)
    requires i < |ids| && ids[i] < |before|
    ensures var d, flagged, more := ids[i], FlagIds(before, ids[..i]), FlagIds(before, ids[..i + 1]);
            if flagged[d].aborted then more == flagged
            else more == flagged[d := flagged[d].(aborted := true)]
                 && |NewlyFlagged(before, more)| == |NewlyFlagged(before, flagged)| + 1
  {
    var d, flagged, more := ids[i], FlagIds(before, ids[..i]), FlagIds(before, ids[..i + 1]);
    assert ids[..i + 1] == ids[..i] + [d];
    if !flagged[d].aborted {
      assert more == flagged[d := flagged[d].(aborted := true)];
      assert NewlyFlagged(before, more) == NewlyFlagged(before, flagged) + {d};
    } else {
      assert more == flagged;
    }
  }

  class CascadeStore {
    const inner: UnguardedStore

    ghost function View(): R.Store
      reads this, inner
    {
      inner.View()
    }

    constructor ()
      ensures fresh(inner) && View() == R.EMPTY
    {
      inner := new UnguardedStore();
    }

    method Begin() returns (t: nat)
      modifies inner
      ensures View() == R.Begin(old(View())) && t == |old(inner.txns)|
    {
      t := inner.Begin();
    }

    method Read(t: nat, c: nat)
      requires t < |inner.txns|
      modifies inner
      ensures View() == R.Read(old(View()), t, c)
    {
      inner.Read(t, c);
    }

    /** The causal closure of `t`: the inner store records direct writers only.  An unknown id has none. */
    method ClosureOf(t: nat) returns (seen: set<nat>)
      ensures forall p: nat :: p in seen <==> R.InClosure(View(), t, p)
    {
      var roots := if t < |inner.txns| then inner.txns[t].predecessors else [];
      seen := Closure(R.StoreGraph(R.Store(inner.txns, inner.cellValue, inner.cellWriter)), roots);
    }

    method ClosureClean(t: nat) returns (clean: bool)
      ensures clean <==> R.ClosureClean(View(), t)
      ensures t >= |inner.txns| ==> clean
    {
      var closure := ClosureOf(t);
      clean := forall p :: p in closure ==> p < |inner.txns| && !inner.txns[p].aborted;
    }

    method Commit(t: nat, writes: seq<(nat, nat)>) returns (ok: bool)
      requires t < |inner.txns|
      modifies inner
      ensures ok == (R.ClosureClean(old(View()), t) && R.CommitAccepted(old(View()), t))
      ensures View() == R.CascadeCommit(old(View()), t, writes)
    {
      var clean := ClosureClean(t);
      if !clean {
        return false;
      }
      ok := inner.Commit(t, writes);
    }

    /** Which transactions other than `t` have it in their closure, in id order. */
    method Dependents(t: nat) returns (dependents: seq<nat>)
      requires t < |inner.txns|
      ensures forall i: nat :: i in dependents <==> i < |inner.txns| && i != t && R.InClosure(View(), i, t)
      ensures forall j, k :: 0 <= j < k < |dependents| ==> dependents[j] < dependents[k]
    {
      dependents := [];
      var i: nat := 0;
      while i < |inner.txns|
        invariant i <= |inner.txns|
        invariant forall j: nat :: j in dependents <==> j < i && j != t && R.InClosure(View(), j, t)
        invariant forall j, k :: 0 <= j < k < |dependents| ==> dependents[j] < dependents[k]
      {
        if i != t {
          var closure := ClosureOf(i);
          if t in closure {
            assert forall j :: 0 <= j < |dependents| ==> dependents[j] in dependents;
            dependents := dependents + [i];
          }
        }
        i := i + 1;
      }
    }

    /** Flags each of `ids`, and counts those that were not flagged before. */
    method FlagDependents(ids: seq<nat>) returns (flagged: nat)
      requires forall i :: 0 <= i < |ids| ==> ids[i] < |inner.txns|
      modifies inner
      ensures inner.txns == FlagIds(old(inner.txns), ids)
      ensures inner.cellValue == old(inner.cellValue) && inner.cellWriter == old(inner.cellWriter)
      ensures flagged == |NewlyFlagged(old(inner.txns), inner.txns)|
    {
      ghost var before := inner.txns;
      flagged := 0;
      var i := 0;
      assert NewlyFlagged(before, inner.txns) == {};
      while i < |ids|
        invariant 0 <= i <= |ids|
        invariant inner.cellValue == old(inner.cellValue) && inner.cellWriter == old(inner.cellWriter)
        invariant inner.txns == FlagIds(before, ids[..i])
        invariant flagged == |NewlyFlagged(before, inner.txns)|
      {
        var d := ids[i];
        FlagOne(before, ids, i);
        if !inner.txns[d].aborted {
          inner.txns := inner.txns[d := inner.txns[d].(aborted := true)];
          flagged := flagged + 1;
        }
        i := i + 1;
      }
      assert ids[..|ids|] == ids;
    }

    /** Flags `t` and its dependents, and counts the dependents that were not flagged before. */
    method Abort(t: nat) returns (flagged: nat)
      requires t < |inner.txns|
      modifies inner
      ensures View() == R.CascadeAbort(old(View()), t)
      ensures |inner.txns| == |old(inner.txns)| && flagged == |NewlyFlagged(old(inner.txns), inner.txns) - {t}|
    {
      ghost var before := inner.txns;
      var dependents := Dependents(t);
      inner.Abort(t);
      ghost var own := inner.txns;
      assert forall i :: 0 <= i < |dependents| ==> dependents[i] in dependents;
      flagged := FlagDependents(dependents);
      assert NewlyFlagged(own, inner.txns) == NewlyFlagged(before, inner.txns) - {t};
    }
  }
}
