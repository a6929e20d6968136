/**
 The list-and-loop L2 runtime, proved to act exactly as the transition system.

 Predecessors, read cells and pending writes are append-only lists that may repeat entries; the
 transaction table is a map.  Every entry point decides its own guard, and a refused call changes
 no field at all.
 */
module L2Runtime {
  import opened Common
  import opened L2Model

  datatype ExecTxn = ExecTxn(
    started: bool,
    committed: bool,
    aborted: bool,
    readSet: seq<Cell>,
    readValues: map<Cell, Value>,
    writes: seq<(Cell, Value)>,
    predecessors: seq<TxnId>,
    readFrom: map<Cell, TxnId>,
    readAt: map<Cell, Time>,
    commitTime: Time,
    externalized: bool)

  const NEW_STARTED := ExecTxn(true, false, false, [], map[], [], [], map[], map[], 0, false)

  /** The members of a list; repeats are absorbed. */
  function Members(s: seq<nat>): set<nat> {
    if s == [] then {} else Members(s[..|s| - 1]) + {s[|s| - 1]}
  }

  lemma {:induction false} MembersHas(s: seq<nat>, x: nat)
    ensures x in Members(s) <==> x in s
  {
    if s != [] {
      MembersHas(s[..|s| - 1], x);
      assert s == s[..|s| - 1] + [s[|s| - 1]];
    }
  }

  lemma MembersAreEntries(s: seq<nat>)
    ensures forall k: nat :: k < |s| ==> s[k] in Members(s)
    ensures forall x: nat :: x in Members(s) ==> exists k: nat :: k < |s| && s[k] == x
  {
    forall k: nat | k < |s| ensures s[k] in Members(s) {
      MembersHas(s, s[k]);
    }
    forall x: nat | x in Members(s) ensures exists k: nat :: k < |s| && s[k] == x {
      MembersHas(s, x);
    }
  }

  ghost predicate ReadListAgrees(e: ExecTxn) {
    forall c: Cell :: c in e.readSet <==> c in e.readValues
  }

  function ViewTxn(e: ExecTxn): Txn {
    Txn(e.started, e.committed, e.aborted, e.readValues, LastWrites(e.writes), Members(e.predecessors),
        e.readFrom, e.readAt, e.commitTime, e.externalized)
  }

  ghost predicate Dense(table: map<TxnId, ExecTxn>, n: nat) {
    forall t: TxnId :: t in table <==> t < n
  }

  function ViewTable(table: map<TxnId, ExecTxn>, n: nat): (txns: seq<Txn>)
    requires Dense(table, n)
    ensures |txns| == n
    ensures forall t: TxnId :: t < n ==> txns[t] == ViewTxn(table[t])
  {
    seq(n, t requires 0 <= t < n => ViewTxn(table[t]))
  }

  lemma ViewUpdate(table: map<TxnId, ExecTxn>, n: nat, t: TxnId, e: ExecTxn)
    requires Dense(table, n) && t < n
    ensures Dense(table[t := e], n)
    ensures ViewTable(table[t := e], n) == ViewTable(table, n)[t := ViewTxn(e)]
  {
  }

  lemma ViewAppend(table: map<TxnId, ExecTxn>, n: nat, e: ExecTxn)
    requires Dense(table, n)
    ensures Dense(table[n := e], n + 1)
    ensures ViewTable(table[n := e], n + 1) == ViewTable(table, n) + [ViewTxn(e)]
  {
  }

  lemma {:induction false} MembersJoin(a: seq<nat>, w: nat, b: seq<nat>)
    ensures Members(a + [w] + b) == Members(a) + {w} + Members(b)
  {
    if b == [] {
      assert (a + [w] + b)[..|a|] == a;
    } else {
      MembersJoin(a, w, b[..|b| - 1]);
      assert (a + [w] + b)[..|a| + |b|] == a + [w] + b[..|b| - 1];
    }
  }

  /** The runtime's fields as one value. */
  datatype Tables = Tables(
    now: nat,
    txns: map<TxnId, ExecTxn>,
    cellValue: map<Cell, Value>,
    cellWriter: map<Cell, TxnId>,
    nextTxn: nat)

  /** Ids are dense, the read lists agree with the read maps, and published cells have known writers. */
  ghost predicate Good(r: Tables) {
    && Dense(r.txns, r.nextTxn)
    && r.now <= MAX_U64 && r.nextTxn <= MAX_U64
    && (forall t: TxnId :: t in r.txns ==> ReadListAgrees(r.txns[t]))
    && (forall c: Cell :: c in r.cellValue ==> c in r.cellWriter && r.cellWriter[c] < r.nextTxn)
  }

  ghost function Abs(r: Tables): (s: State)
    requires Good(r)
    ensures WellFormed(s)
  {
    State(r.now, ViewTable(r.txns, r.nextTxn), r.cellValue, r.cellWriter)
  }

  // ------------------------------------------------- one lemma per entry point

  function Begun(r: Tables): Tables {
    r.(now := r.now + 1, txns := r.txns[r.nextTxn := NEW_STARTED], nextTxn := r.nextTxn + 1)
  }

  lemma BegunIsGood(r: Tables)
    requires Good(r) && r.now < MAX_U64 && r.nextTxn < MAX_U64
    ensures Good(Begun(r))
  {
  }

  lemma BeginRefines(r: Tables)
    requires Good(r) && Enabled(Abs(r), Action.Begin)
    ensures Good(Begun(r)) && Abs(Begun(r)) == Step(Abs(r), Action.Begin)
  {
    BegunIsGood(r);
    assert ViewTxn(NEW_STARTED) == STARTED_TXN;
    ViewAppend(r.txns, r.nextTxn, NEW_STARTED);
  }

  /** Replacing one record replaces one entry of the view. */
  lemma RecordRefines(r: Tables, r': Tables, t: TxnId, e: ExecTxn)
    requires Good(r) && r.now < MAX_U64 && t in r.txns
    requires ReadListAgrees(e)
    requires r' == r.(now := r.now + 1, txns := r.txns[t := e])
    ensures Good(r') && Abs(r') == Abs(r).(now := r.now + 1, txns := Abs(r).txns[t := ViewTxn(e)])
  {
    ViewUpdate(r.txns, r.nextTxn, t, e);
  }

  lemma WriteAppends(e: ExecTxn, c: Cell, v: Value)
    ensures ViewTxn(e.(writes := e.writes + [(c, v)])) == ViewTxn(e).(writeValues := LastWrites(e.writes)[c := v])
  {
    var writes := e.writes + [(c, v)];
    assert writes[..|writes| - 1] == e.writes;
  }

  /** What a read leaves in the record: repeats go into the lists, and the view absorbs them. */
  function ReadInto(e: ExecTxn, c: Cell, v: Value, w: TxnId, closure: seq<TxnId>, at: Time): ExecTxn {
    e.(readSet := e.readSet + [c], readValues := e.readValues[c := v],
       predecessors := e.predecessors + [w] + closure, readFrom := e.readFrom[c := w], readAt := e.readAt[c := at])
  }

  lemma ReadIntoView(e: ExecTxn, c: Cell, v: Value, w: TxnId, closure: seq<TxnId>, at: Time)
    requires ReadListAgrees(e)
    ensures ReadListAgrees(ReadInto(e, c, v, w, closure, at))
    ensures ViewTxn(ReadInto(e, c, v, w, closure, at))
            == ViewTxn(e).(readValues := e.readValues[c := v],
                           predecessors := Members(e.predecessors) + {w} + Members(closure),
                           readFrom := e.readFrom[c := w], readAt := e.readAt[c := at])
  {
    MembersJoin(e.predecessors, w, closure);
  }

  lemma ReadRefines(r: Tables, r': Tables, t: TxnId, c: Cell)
    requires Good(r) && Enabled(Abs(r), Action.Read(t, c))
    requires var w := r.cellWriter[c];
             var e' := ReadInto(r.txns[t], c, r.cellValue[c], w, r.txns[w].predecessors, r.now);
             r' == r.(now := r.now + 1, txns := r.txns[t := e'])
    ensures Good(r') && Abs(r') == Step(Abs(r), Action.Read(t, c))
  {
    var e, w := r.txns[t], r.cellWriter[c];
    var e' := ReadInto(e, c, r.cellValue[c], w, r.txns[w].predecessors, r.now);
    ReadIntoView(e, c, r.cellValue[c], w, r.txns[w].predecessors, r.now);
    RecordRefines(r, r', t, e');
  }

  lemma PublishedHaveWriters(values: map<Cell, Value>, owners: map<Cell, TxnId>, n: nat, writes: map<Cell, Value>,
                             t: TxnId)
    requires t < n && forall c: Cell :: c in values ==> c in owners && owners[c] < n
    ensures forall c: Cell :: c in values + writes ==>
              c in owners + WriterMap(writes, t) && (owners + WriterMap(writes, t))[c] < n
  {
  }

  lemma CommitRefinesView(r: Tables, r': Tables, t: TxnId)
    requires Good(r) && Good(r') && t in r.txns
    requires r' == Published(r, t)
    ensures Abs(r') == StepCommit(Abs(r), t)
  {
    ViewUpdate(r.txns, r.nextTxn, t, r.txns[t].(committed := true, commitTime := r.now));
  }

  /** The tables after the commit of `t`. */
  function Published(r: Tables, t: TxnId): Tables
    requires t in r.txns
  {
    var e := r.txns[t];
    r.(now := r.now + 1, txns := r.txns[t := e.(committed := true, commitTime := r.now)],
       cellValue := r.cellValue + LastWrites(e.writes),
       cellWriter := r.cellWriter + WriterMap(LastWrites(e.writes), t))
  }

  lemma PublishedIsGood(r: Tables, t: TxnId)
    requires Good(r) && r.now < MAX_U64 && t in r.txns
    ensures Good(Published(r, t))
  {
    PublishedHaveWriters(r.cellValue, r.cellWriter, r.nextTxn, LastWrites(r.txns[t].writes), t);
  }

  lemma CommitRefines(r: Tables, t: TxnId)
    requires Good(r) && Enabled(Abs(r), Action.Commit(t))
    ensures Good(Published(r, t)) && Abs(Published(r, t)) == Step(Abs(r), Action.Commit(t))
  {
    PublishedIsGood(r, t);
    CommitRefinesView(r, Published(r, t), t);
  }

  /** The record after the cascade of an abort of `t` has passed it. */
  function Flagged(e: ExecTxn, u: TxnId, t: TxnId): ExecTxn {
    if u == t || t in e.predecessors then e.(aborted := true) else e
  }

  lemma FlaggedView(e: ExecTxn, u: TxnId, t: TxnId)
    ensures ViewTxn(Flagged(e, u, t)) ==
              if u == t || t in ViewTxn(e).predecessors then ViewTxn(e).(aborted := true) else ViewTxn(e)
  {
    MembersHas(e.predecessors, t);
  }

  function FlagAll(table: map<TxnId, ExecTxn>, t: TxnId): map<TxnId, ExecTxn> {
    map u | u in table :: Flagged(table[u], u, t)
  }

  /** The table when the cascade of an abort of `t` has passed the ids below `n`. */
  function FlagBelow(table: map<TxnId, ExecTxn>, t: TxnId, n: nat): map<TxnId, ExecTxn> {
    map u | u in table :: if u < n || u == t then Flagged(table[u], u, t) else table[u]
  }

  lemma FlagNext(table: map<TxnId, ExecTxn>, t: TxnId, n: nat)
    requires n in table
    ensures var flagged := FlagBelow(table, t, n);
            && n in flagged && flagged[n].predecessors == table[n].predecessors
            && FlagBelow(table, t, n + 1) ==
                 if t in flagged[n].predecessors then flagged[n := flagged[n].(aborted := true)] else flagged
  {
  }

  lemma FlagBelowAll(table: map<TxnId, ExecTxn>, t: TxnId, n: nat)
    requires Dense(table, n) && t < n
    ensures FlagBelow(table, t, 0) == table[t := table[t].(aborted := true)]
    ensures FlagBelow(table, t, n) == FlagAll(table, t)
  {
  }

  lemma FlaggedTable(table: map<TxnId, ExecTxn>, n: nat, t: TxnId)
    requires Dense(table, n)
    ensures Dense(FlagAll(table, t), n)
    ensures ViewTable(FlagAll(table, t), n) == Cascade(ViewTable(table, n), t)
  {
    forall u: TxnId | u < n ensures ViewTable(FlagAll(table, t), n)[u] == Cascade(ViewTable(table, n), t)[u] {
      FlaggedView(table[u], u, t);
    }
  }

  lemma AbortIsGood(r: Tables, t: TxnId)
    requires Good(r) && r.now < MAX_U64
    ensures Good(r.(now := r.now + 1, txns := FlagAll(r.txns, t)))
  {
    var table := FlagAll(r.txns, t);
    forall u: TxnId | u in table ensures ReadListAgrees(table[u]) {
      assert u in r.txns && ReadListAgrees(r.txns[u]);
    }
  }

  lemma AbortRefines(r: Tables, t: TxnId)
    requires Good(r) && Enabled(Abs(r), Action.Abort(t))
    ensures Good(r.(now := r.now + 1, txns := FlagAll(r.txns, t)))
    ensures Abs(r.(now := r.now + 1, txns := FlagAll(r.txns, t))) == Step(Abs(r), Action.Abort(t))
  {
    AbortIsGood(r, t);
    FlaggedTable(r.txns, r.nextTxn, t);
  }

  lemma ExternalizeRefines(r: Tables, r': Tables, t: TxnId)
    requires Good(r) && Enabled(Abs(r), Action.Externalize(t))
    requires r' == r.(now := r.now + 1, txns := r.txns[t := r.txns[t].(externalized := true)])
    ensures Good(r') && Abs(r') == Step(Abs(r), Action.Externalize(t))
  {
    RecordRefines(r, r', t, r.txns[t].(externalized := true));
  }

  lemma WriteRefines(r: Tables, r': Tables, t: TxnId, c: Cell, v: Value)
    requires Good(r) && Enabled(Abs(r), Action.Write(t, c, v))
    requires r' == r.(now := r.now + 1, txns := r.txns[t := r.txns[t].(writes := r.txns[t].writes + [(c, v)])])
    ensures Good(r') && Abs(r') == Step(Abs(r), Action.Write(t, c, v))
  {
    WriteAppends(r.txns[t], c, v);
    RecordRefines(r, r', t, r.txns[t].(writes := r.txns[t].writes + [(c, v)]));
  }

  // ------------------------------------------- what the list scans decide

  ghost predicate ListFresh(cellValue: map<Cell, Value>, e: ExecTxn, n: nat)
    requires n <= |e.readSet|
  {
    forall k: nat :: k < n ==>
      (var c := e.readSet[k]; c in e.readValues && c in cellValue && cellValue[c] == e.readValues[c])
  }

  lemma ListFreshIsFresh(r: Tables, e: ExecTxn)
    requires Good(r) && ReadListAgrees(e)
    ensures ReadsFresh(Abs(r), ViewTxn(e)) <==> ListFresh(r.cellValue, e, |e.readSet|)
  {
    forall c: Cell | c in e.readValues ensures exists k: nat :: k < |e.readSet| && e.readSet[k] == c {
      assert c in e.readSet;
    }
  }

  ghost predicate ListClean(table: map<TxnId, ExecTxn>, e: ExecTxn, n: nat)
    requires n <= |e.predecessors|
  {
    forall k: nat :: k < n ==>
      (var p := e.predecessors[k]; p in table && table[p].committed && !table[p].aborted)
  }

  lemma ListCleanIsClean(r: Tables, e: ExecTxn)
    requires Good(r)
    ensures PredecessorsClean(Abs(r), ViewTxn(e)) <==> ListClean(r.txns, e, |e.predecessors|)
  {
    MembersAreEntries(e.predecessors);
  }

  ghost predicate ListOut(table: map<TxnId, ExecTxn>, e: ExecTxn, n: nat)
    requires n <= |e.predecessors|
  {
    forall k: nat :: k < n ==> e.predecessors[k] in table && table[e.predecessors[k]].externalized
  }

  lemma ListOutIsOut(r: Tables, e: ExecTxn)
    requires Good(r)
    ensures PredecessorsOut(Abs(r), ViewTxn(e)) <==> ListOut(r.txns, e, |e.predecessors|)
  {
    MembersAreEntries(e.predecessors);
  }

  class L2Runtime {
    var now: nat
    var txns: map<TxnId, ExecTxn>
    var cellValue: map<Cell, Value>
    var cellWriter: map<Cell, TxnId>
    var nextTxn: nat

    ghost function Fields(): Tables
      reads this
    {
      Tables(now, txns, cellValue, cellWriter, nextTxn)
    }

    ghost predicate Valid()
      reads this
    {
      Good(Fields())
    }

    ghost function View(): State
      requires Valid()
      reads this
    {
      Abs(Fields())
    }

    constructor ()
      ensures Valid() && View() == INITIAL
    {
      now, txns, cellValue, cellWriter, nextTxn := 0, map[], map[], map[], 0;
    }

    method Begin() returns (r: Option<TxnId>)
      requires Valid()
      modifies this
      ensures Valid() && View() == Step(old(View()), Action.Begin)
      ensures r == if Enabled(old(View()), Action.Begin) then Some(|old(View()).txns|) else None
      ensures r.None? ==> unchanged(this)
    {
      if now == MAX_U64 || nextTxn == MAX_U64 {
        return None;
      }
      var t := nextTxn;
      ghost var r0 := Fields();
      txns := txns[t := NEW_STARTED];
      now := now + 1;
      nextTxn := nextTxn + 1;
      assert Fields() == Begun(r0);
      BeginRefines(r0);
      return Some(t);
    }

    method Write(t: TxnId, c: Cell, v: Value) returns (ok: bool)
      requires Valid()
      modifies this
      ensures Valid() && View() == Step(old(View()), Action.Write(t, c, v))
      ensures ok == Enabled(old(View()), Action.Write(t, c, v))
      ensures !ok ==> unchanged(this)
    {
      if now == MAX_U64 || t !in txns {
        return false;
      }
      if txns[t].committed {
        return false;
      }
      ghost var r0 := Fields();
      var txn := txns[t];
      txn := txn.(writes := txn.writes + [(c, v)]);
      txns := txns[t := txn];
      now := now + 1;
      WriteRefines(r0, Fields(), t, c, v);
      return true;
    }

    /** Decides whether a commit would be accepted, by two early-exit scans. */
    method CanCommit(t: TxnId) returns (b: bool)
      requires Valid()
      ensures b == CommitValid(View(), t)
    {
      if t !in txns {
        return false;
      }
      var txn := txns[t];
      if !txn.started || txn.committed || txn.aborted {
        return false;
      }
      ListFreshIsFresh(Fields(), txn);
      ListCleanIsClean(Fields(), txn);
      b := ReadSetFresh(txn);
      if b {
        b := PredecessorListClean(txn);
      }
    }

    method ReadSetFresh(txn: ExecTxn) returns (b: bool)
      requires ReadListAgrees(txn)
      ensures b == ListFresh(cellValue, txn, |txn.readSet|)
    {
      var i := 0;
      while i < |txn.readSet|
        invariant 0 <= i <= |txn.readSet|
        invariant ListFresh(cellValue, txn, i)
      {
        var c := txn.readSet[i];
        if c !in cellValue || cellValue[c] != txn.readValues[c] {
          return false;
        }
        i := i + 1;
      }
      return true;
    }

    method PredecessorListClean(txn: ExecTxn) returns (b: bool)
      ensures b == ListClean(txns, txn, |txn.predecessors|)
    {
      var j := 0;
      while j < |txn.predecessors|
        invariant 0 <= j <= |txn.predecessors|
        invariant ListClean(txns, txn, j)
      {
        var p := txn.predecessors[j];
        if p !in txns || !txns[p].committed || txns[p].aborted {
          return false;
        }
        j := j + 1;
      }
      return true;
    }

    /** The publish loop of a commit: writes land in order, so the last one to a cell stays. */
    method Publish(writes: seq<(Cell, Value)>, t: TxnId)
      modifies this`cellValue, this`cellWriter
      ensures cellValue == old(cellValue) + LastWrites(writes)
      ensures cellWriter == old(cellWriter) + WriterMap(LastWrites(writes), t)
    {
      var i := 0;
      while i < |writes|
        invariant 0 <= i <= |writes|
        invariant cellValue == old(cellValue) + LastWrites(writes[..i])
        invariant cellWriter == old(cellWriter) + WriterMap(LastWrites(writes[..i]), t)
      {
        PublishOne(old(cellValue), old(cellWriter), writes, i, t);
        cellValue := cellValue[writes[i].0 := writes[i].1];
        cellWriter := cellWriter[writes[i].0 := t];
        i := i + 1;
      }
      assert writes[..i] == writes;
    }

    method Commit(t: TxnId) returns (ok: bool)
      requires Valid()
      modifies this
      ensures Valid() && View() == Step(old(View()), Action.Commit(t))
      ensures ok == Enabled(old(View()), Action.Commit(t))
      ensures !ok ==> unchanged(this)
    {
      if now == MAX_U64 {
        return false;
      }
      ok := CanCommit(t);
      if !ok {
        return false;
      }
      ghost var r0 := Fields();
      var txn := txns[t];
      txn := txn.(committed := true, commitTime := now);
      Publish(txn.writes, t);
      txns := txns[t := txn];
      now := now + 1;
      assert Fields() == Published(r0, t);
      CommitRefines(r0, t);
      return true;
    }

    method Read(t: TxnId, c: Cell) returns (ok: bool)
      requires Valid()
      modifies this
      ensures Valid() && View() == Step(old(View()), Action.Read(t, c))
      ensures ok == Enabled(old(View()), Action.Read(t, c))
      ensures !ok ==> unchanged(this)
    {
      if now == MAX_U64 || t !in txns || c !in cellValue {
        return false;
      }
      if txns[t].committed {
        return false;
      }
      ghost var r0 := Fields();
      var v, writer := cellValue[c], cellWriter[c];
      var closure := CopyPredecessors(writer);
      var txn := txns[t];
      txn := txn.(predecessors := txn.predecessors + [writer]);
      var j := 0;
      while j < |closure|
        invariant 0 <= j <= |closure|
        invariant txn == r0.txns[t].(predecessors := r0.txns[t].predecessors + [writer] + closure[..j])
      {
        txn := txn.(predecessors := txn.predecessors + [closure[j]]);
        j := j + 1;
      }
      assert closure[..j] == closure;
      txn := txn.(readSet := txn.readSet + [c], readValues := txn.readValues[c := v],
                  readFrom := txn.readFrom[c := writer], readAt := txn.readAt[c := now]);
      txns := txns[t := txn];
      now := now + 1;
      assert txn == ReadInto(r0.txns[t], c, v, writer, closure, r0.now);
      assert Fields() == r0.(now := r0.now + 1, txns := r0.txns[t := txn]);
      ReadRefines(r0, Fields(), t, c);
      return true;
    }

    method CopyPredecessors(w: TxnId) returns (closure: seq<TxnId>)
      requires w in txns
      ensures closure == txns[w].predecessors
    {
      closure := [];
      var i := 0;
      while i < |txns[w].predecessors|
        invariant 0 <= i <= |txns[w].predecessors|
        invariant closure == txns[w].predecessors[..i]
      {
        closure := closure + [txns[w].predecessors[i]];
        i := i + 1;
      }
    }

    /** A linear scan of one predecessor list. */
    method TxnPredContains(u: TxnId, t: TxnId) returns (r: bool)
      requires u in txns
      ensures r <==> t in txns[u].predecessors
    {
      var i := 0;
      while i < |txns[u].predecessors|
        invariant 0 <= i <= |txns[u].predecessors|
        invariant t !in txns[u].predecessors[..i]
      {
        if txns[u].predecessors[i] == t {
          return true;
        }
        i := i + 1;
      }
      return false;
    }

    /** Marks `t`, then passes once over all ids. */
    method MarkAndCascade(t: TxnId)
      requires Dense(txns, nextTxn) && t < nextTxn
      modifies this`txns
      ensures txns == FlagAll(old(txns), t)
    {
      FlagBelowAll(txns, t, nextTxn);
      txns := txns[t := txns[t].(aborted := true)];
      var u := 0;
      while u < nextTxn
        invariant 0 <= u <= nextTxn
        invariant txns == FlagBelow(old(txns), t, u)
      {
        FlagNext(old(txns), t, u);
        var dependent := TxnPredContains(u, t);
        if dependent {
          txns := txns[u := txns[u].(aborted := true)];
        }
        u := u + 1;
      }
    }

    method Abort(t: TxnId) returns (ok: bool)
      requires Valid()
      modifies this
      ensures Valid() && View() == Step(old(View()), Action.Abort(t))
      ensures ok == Enabled(old(View()), Action.Abort(t))
      ensures !ok ==> unchanged(this)
    {
      if now == MAX_U64 || t !in txns {
        return false;
      }
      if txns[t].externalized {
        return false;
      }
      ghost var r0 := Fields();
      MarkAndCascade(t);
      now := now + 1;
      assert Fields() == r0.(now := r0.now + 1, txns := FlagAll(r0.txns, t));
      AbortRefines(r0, t);
      return true;
    }

    method CanExternalize(t: TxnId) returns (b: bool)
      requires Valid()
      ensures b == ExternalizeValid(View(), t)
    {
      if t !in txns {
        return false;
      }
      var txn := txns[t];
      if !txn.committed || txn.aborted || txn.externalized {
        return false;
      }
      ListOutIsOut(Fields(), txn);
      b := PredecessorListOut(txn);
    }

    method PredecessorListOut(txn: ExecTxn) returns (b: bool)
      ensures b == ListOut(txns, txn, |txn.predecessors|)
    {
      var j := 0;
      while j < |txn.predecessors|
        invariant 0 <= j <= |txn.predecessors|
        invariant ListOut(txns, txn, j)
      {
        var p := txn.predecessors[j];
        if p !in txns || !txns[p].externalized {
          return false;
        }
        j := j + 1;
      }
      return true;
    }

    method Externalize(t: TxnId) returns (ok: bool)
      requires Valid()
      modifies this
      ensures Valid() && View() == Step(old(View()), Action.Externalize(t))
      ensures ok == Enabled(old(View()), Action.Externalize(t))
      ensures !ok ==> unchanged(this)
    {
      if now == MAX_U64 {
        return false;
      }
      ok := CanExternalize(t);
      if !ok {
        return false;
      }
      assert Enabled(View(), Action.Externalize(t));
      ghost var r0 := Fields();
      var txn := txns[t];
      txn := txn.(externalized := true);
      txns := txns[t := txn];
      now := now + 1;
      ExternalizeRefines(r0, Fields(), t);
      return true;
    }
  }
}
