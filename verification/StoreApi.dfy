/**
 What the agent layer sees of a store: a snapshot of named values, and the outcome of a commit.
 Cell names are ids, so an ordered map lists its keys in ascending id order.
 */
module StoreApi {
  import opened Common
  import opened Versions

  datatype StoreSnapshot = StoreSnapshot(values: map<Cell, Val>, readTime: Time)

  datatype Outcome = Committed(writeTime: Time) | AbortedConflict

  lemma {:induction false} LeastExists(s: set<nat>) returns (m: nat)
    requires s != {}
    ensures m in s && forall x: nat :: x in s ==> m <= x
  {
    var y: nat :| y in s;
    if s == {y} {
      m := y;
    } else {
      var least := LeastExists(s - {y});
      m := if y <= least then y else least;
      forall x: nat | x in s ensures m <= x {
        assert x == y || x in s - {y};
      }
    }
  }

  ghost predicate IsLeast(s: set<nat>, m: nat) {
    m in s && forall x: nat :: x in s ==> m <= x
  }

  ghost function LeastOf(s: set<nat>): (m: nat)
    requires s != {}
    ensures IsLeast(s, m)
  {
    assert exists m: nat :: IsLeast(s, m) by {
      var least := LeastExists(s);
      assert IsLeast(s, least);
    }
    var m: nat :| IsLeast(s, m);
    m
  }

  /** The members of a set in ascending order. */
  ghost function Ascending(s: set<nat>): (order: seq<nat>)
    ensures forall x: nat :: x in order <==> x in s
    ensures forall i, j :: 0 <= i < j < |order| ==> order[i] < order[j]
  {
    if s == {} then []
    else
      var rest := Ascending(s - {LeastOf(s)});
      assert forall i :: 0 <= i < |rest| ==> rest[i] in rest;
      [LeastOf(s)] + rest
  }

  lemma HeadIsMember(s: seq<nat>)
    ensures s != [] ==> s[0] in s
  {
  }

  /** There is only one such order. */
  lemma {:induction false} AscendingIsUnique(s: set<nat>, order: seq<nat>)
    requires forall x: nat :: x in order <==> x in s
    requires forall i, j :: 0 <= i < j < |order| ==> order[i] < order[j]
    ensures order == Ascending(s)
  {
    HeadIsMember(order);
    if s != {} {
      HeadIsLeast(s, order);
      TailIsRest(s, order);
      AscendingIsUnique(s - {LeastOf(s)}, order[1..]);
    }
  }

  lemma HeadIsLeast(s: set<nat>, order: seq<nat>)
    requires s != {} && forall x: nat :: x in order <==> x in s
    requires forall i, j :: 0 <= i < j < |order| ==> order[i] < order[j]
    ensures order != [] && order[0] == LeastOf(s)
  {
    assert LeastOf(s) in order;
    HeadIsMember(order);
    var i :| 0 <= i < |order| && order[i] == LeastOf(s);
  }

  lemma TailIsRest(s: set<nat>, order: seq<nat>)
    requires order != [] && forall x: nat :: x in order <==> x in s
    requires forall i, j :: 0 <= i < j < |order| ==> order[i] < order[j]
    ensures forall x: nat :: x in order[1..] <==> x in s - {order[0]}
  {
    forall x: nat | x in order[1..] ensures x in s && x != order[0] {
      var i :| 0 <= i < |order[1..]| && order[1..][i] == x;
      assert order[i + 1] == x;
    }
  }

  method KeysInOrder(s: set<nat>) returns (order: seq<nat>)
    ensures order == Ascending(s)
  {
    order := [];
    var rest := s;
    while rest != {}
      invariant rest <= s
      invariant forall x: nat :: x in order <==> x in s && x !in rest
      invariant forall x: nat, y: nat :: x in order && y in rest ==> x < y
      invariant forall i, j :: 0 <= i < j < |order| ==> order[i] < order[j]
      decreases rest
    {
      var m := Least(rest);
      assert forall i :: 0 <= i < |order| ==> order[i] in order;
      order := order + [m];
      rest := rest - {m};
    }
    AscendingIsUnique(s, order);
  }

  /** The core snapshot an adapter commits: the cells of the agent's snapshot, in key order. */
  ghost function CoreSnapshot(agent: Agent, snap: StoreSnapshot): Snapshot {
    Snapshot(agent, snap.readTime, Ascending(snap.values.Keys), [])
  }

  /** The entries of a map for the listed keys, in that order. */
  function Entries(writes: map<Cell, Val>, order: seq<Cell>): (pairs: Writes)
    requires forall i :: 0 <= i < |order| ==> order[i] in writes
    ensures |pairs| == |order|
  {
    seq(|order|, i requires 0 <= i < |order| => (order[i], writes[order[i]]))
  }

  /** The writes of an ordered map, in key order. */
  ghost function PairsOf(writes: map<Cell, Val>): Writes {
    var order := Ascending(writes.Keys);
    assert forall i :: 0 <= i < |order| ==> order[i] in order;
    Entries(writes, order)
  }

  method PairsInOrder(writes: map<Cell, Val>) returns (pairs: Writes)
    ensures pairs == PairsOf(writes)
  {
    var order := KeysInOrder(writes.Keys);
    assert forall i :: 0 <= i < |order| ==> order[i] in order;
    pairs := Entries(writes, order);
  }

  /** Listing a map loses nothing. */
  lemma {:induction false} PairsLastWrite(writes: map<Cell, Val>, c: Cell)
    ensures LastWrite(PairsOf(writes), c) == if c in writes then Some(writes[c]) else None
  {
    var order, pairs := Ascending(writes.Keys), PairsOf(writes);
    if c in writes {
      var k :| 0 <= k < |order| && order[k] == c;
      LastWriteAt(pairs, k);
    } else {
      LastWriteIsSome(pairs, c);
      assert forall i :: 0 <= i < |order| ==> order[i] in order;
    }
  }

  lemma {:induction false} LastWriteAt(pairs: Writes, k: nat)
    requires k < |pairs| && forall i :: k < i < |pairs| ==> pairs[i].0 != pairs[k].0
    ensures LastWrite(pairs, pairs[k].0) == Some(pairs[k].1)
  {
    if k < |pairs| - 1 {
      LastWriteAt(pairs[..|pairs| - 1], k);
    }
  }

  /** Collecting one value per request into a map: repeated requests agree. */
  method Collect(pairs: seq<(Cell, Val)>, cells: seq<Cell>, ghost value: Cell -> Val) returns (values: map<Cell, Val>)
    requires |pairs| == |cells| && forall i :: 0 <= i < |cells| ==> pairs[i] == (cells[i], value(cells[i]))
    ensures values == map c | c in cells :: value(c)
  {
    values := map[];
    var i := 0;
    while i < |pairs|
      invariant 0 <= i <= |pairs|
      invariant values == map c | c in cells[..i] :: value(c)
    {
      assert cells[..i + 1] == cells[..i] + [cells[i]];
      values := values[pairs[i].0 := pairs[i].1];
      i := i + 1;
    }
    assert cells[..|cells|] == cells;
  }
}
