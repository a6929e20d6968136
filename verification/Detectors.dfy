/** The emitted operation record and the detectors that judge a history of them. */
module Detectors {
  import opened Common
  import opened Versions

  type Tool = nat

  datatype OpRecord = OpRecord(
    agent: Agent,
    readSet: seq<Cell>,
    readValues: map<Cell, Val>,
    readTime: Time,
    writeSet: seq<Cell>,
    writeValues: map<Cell, Val>,
    writeTime: Time,
    plannedTool: Option<Tool>,
    toolsUsed: seq<Tool>,
    toolsVisible: seq<Tool>,
    io: seq<(Cell, Val)>,
    co: seq<(Cell, Val)>)

  datatype A1Witness = A1Witness(i: nat, j: nat, cell: Cell)

  datatype A3Witness = A3Witness(j: nat, cell: Cell, value: Val)

  const NULL_VALUE: Val := 0

  // ------------------------------------------------------ stale generation

  /** `j` overwrote, with another value, what `i` had read, between `i`'s read and its commit. */
  predicate A1At(h: seq<OpRecord>, i: nat, j: nat, c: Cell)
    requires i < |h| && j < |h|
  {
    && i != j && c in h[i].readSet && c in h[j].writeSet
    && h[i].readTime < h[j].writeTime < h[i].writeTime
    && c in h[i].readValues && c in h[j].writeValues && h[i].readValues[c] != h[j].writeValues[c]
  }

  ghost predicate A1In(h: seq<OpRecord>) {
    exists i: nat, j: nat, c: Cell :: i < |h| && j < |h| && A1At(h, i, j, c)
  }

  /** Whether `j` makes a window on `i`: the first such cell in read order. */
  method StaleCell(h: seq<OpRecord>, i: nat, j: nat) returns (r: Option<Cell>)
    requires i < |h| && j < |h|
    ensures r.Some? ==> A1At(h, i, j, r.value)
    ensures r.None? ==> forall c: Cell :: !A1At(h, i, j, c)
  {
    if i == j {
      return None;
    }
    var k := 0;
    while k < |h[i].readSet|
      invariant 0 <= k <= |h[i].readSet|
      invariant forall n :: 0 <= n < k ==> !A1At(h, i, j, h[i].readSet[n])
    {
      var c := h[i].readSet[k];
      k := k + 1;
      if c !in h[j].writeSet {
        continue;
      }
      if !(h[i].readTime < h[j].writeTime && h[j].writeTime < h[i].writeTime) {
        continue;
      }
      if c in h[i].readValues && c in h[j].writeValues && h[i].readValues[c] != h[j].writeValues[c] {
        return Some(c);
      }
    }
    return None;
  }

  /** The first witness in record order, and none exactly when there is no such window. */
  method DetectA1(h: seq<OpRecord>) returns (r: Option<A1Witness>)
    ensures r.Some? <==> A1In(h)
    ensures r.Some? ==>
      && r.value.i < |h| && r.value.j < |h| && A1At(h, r.value.i, r.value.j, r.value.cell)
      && forall i: nat, j: nat, c: Cell :: i < |h| && j < |h| && A1At(h, i, j, c) ==>
           r.value.i < i || (r.value.i == i && r.value.j <= j)
  {
    var i: nat := 0;
    while i < |h|
      invariant i <= |h|
      invariant forall n: nat, j: nat, c: Cell :: n < i && j < |h| ==> !A1At(h, n, j, c)
    {
      var j: nat := 0;
      while j < |h|
        invariant j <= |h|
        invariant forall n: nat, c: Cell :: n < j ==> !A1At(h, i, n, c)
      {
        var c := StaleCell(h, i, j);
        if c.Some? {
          return Some(A1Witness(i, j, c.value));
        }
        j := j + 1;
      }
      i := i + 1;
    }
    return None;
  }

  // ------------------------------------------------- abandoned tool plans

  /** The planned tool was visible when the operation read, and was not used. */
  predicate A2At(r: OpRecord) {
    r.plannedTool.Some? && r.plannedTool.value in r.toolsVisible && r.plannedTool.value !in r.toolsUsed
  }

  ghost predicate A2In(h: seq<OpRecord>) {
    exists i: nat :: i < |h| && A2At(h[i])
  }

  method DetectA2(h: seq<OpRecord>) returns (r: Option<nat>)
    ensures r.Some? <==> A2In(h)
    ensures r.Some? ==> r.value < |h| && A2At(h[r.value]) && forall i: nat :: i < r.value ==> !A2At(h[i])
  {
    var i: nat := 0;
    while i < |h|
      invariant i <= |h|
      invariant forall n: nat :: n < i ==> !A2At(h[n])
    {
      if h[i].plannedTool.Some? {
        var visible := h[i].plannedTool.value in h[i].toolsVisible;
        var used := h[i].plannedTool.value in h[i].toolsUsed;
        if visible && !used {
          return Some(i);
        }
      }
      i := i + 1;
    }
    return None;
  }

  // ------------------------------------------------ values from nowhere

  /** Record `k` is where the value `j` read in `c` may have come from. */
  predicate Antecedent(h: seq<OpRecord>, j: nat, k: nat, c: Cell, v: Val)
    requires j < |h| && k < |h|
  {
    && k != j && c in h[k].writeSet && h[k].writeTime <= h[j].readTime
    && c in h[k].writeValues && h[k].writeValues[c] == v
  }

  /** `j` read a value that no other record had written by then. */
  ghost predicate A3At(h: seq<OpRecord>, j: nat, c: Cell)
    requires j < |h|
  {
    && c in h[j].readSet && c in h[j].readValues && h[j].readValues[c] != NULL_VALUE
    && forall k: nat :: k < |h| ==> !Antecedent(h, j, k, c, h[j].readValues[c])
  }

  ghost predicate A3In(h: seq<OpRecord>) {
    exists j: nat, c: Cell :: j < |h| && A3At(h, j, c)
  }

  method HasAntecedent(h: seq<OpRecord>, j: nat, c: Cell, v: Val) returns (found: bool)
    requires j < |h|
    ensures found <==> exists k: nat :: k < |h| && Antecedent(h, j, k, c, v)
  {
    found := false;
    var k: nat := 0;
    while k < |h|
      invariant k <= |h|
      invariant forall n: nat :: n < k ==> !Antecedent(h, j, n, c, v)
    {
      if k != j && c in h[k].writeSet && h[k].writeTime <= h[j].readTime {
        if c in h[k].writeValues && h[k].writeValues[c] == v {
          assert Antecedent(h, j, k, c, v);
          return true;
        }
      }
      k := k + 1;
    }
  }

  /** The first record with such a value, and none exactly when every value has a source. */
  method DetectA3(h: seq<OpRecord>) returns (r: Option<A3Witness>)
    ensures r.Some? <==> A3In(h)
    ensures r.Some? ==>
      && r.value.j < |h| && A3At(h, r.value.j, r.value.cell)
      && r.value.value == h[r.value.j].readValues[r.value.cell]
      && forall j: nat, c: Cell :: j < r.value.j ==> !A3At(h, j, c)
  {
    var j: nat := 0;
    while j < |h|
      invariant j <= |h|
      invariant forall n: nat, c: Cell :: n < j ==> !A3At(h, n, c)
    {
      var k := 0;
      while k < |h[j].readSet|
        invariant 0 <= k <= |h[j].readSet|
        invariant forall n :: 0 <= n < k ==> !A3At(h, j, h[j].readSet[n])
      {
        var c := h[j].readSet[k];
        if c in h[j].readValues && h[j].readValues[c] != NULL_VALUE {
          var found := HasAntecedent(h, j, c, h[j].readValues[c]);
          if !found {
            assert A3At(h, j, c);
            return Some(A3Witness(j, c, h[j].readValues[c]));
          }
        }
        k := k + 1;
      }
      j := j + 1;
    }
    return None;
  }

  // ----------------------------------------------- intended and committed

  predicate A6At(r: OpRecord) {
    r.io != [] && r.io != r.co
  }

  ghost predicate A6In(h: seq<OpRecord>) {
    exists i: nat :: i < |h| && A6At(h[i])
  }

  method DetectA6(h: seq<OpRecord>) returns (r: Option<nat>)
    ensures r.Some? <==> A6In(h)
    ensures r.Some? ==> r.value < |h| && A6At(h[r.value]) && forall i: nat :: i < r.value ==> !A6At(h[i])
  {
    var i: nat := 0;
    while i < |h|
      invariant i <= |h|
      invariant forall n: nat :: n < i ==> !A6At(h[n])
    {
      if h[i].io != [] && h[i].io != h[i].co {
        return Some(i);
      }
      i := i + 1;
    }
    return None;
  }

  // ---------------------------------------------------------------- levels

  /** How far the history gets: free of A1, then of A3, then of A6, then of A2. */
  ghost function LevelOf(h: seq<OpRecord>): (level: nat)
    ensures level >= 1 <==> !A1In(h)
    ensures level >= 2 <==> !A1In(h) && !A3In(h)
    ensures level >= 3 <==> !A1In(h) && !A3In(h) && !A6In(h)
    ensures level >= 4 <==> !A1In(h) && !A3In(h) && !A6In(h) && !A2In(h)
    ensures level <= 4
  {
    if A1In(h) then 0 else if A3In(h) then 1 else if A6In(h) then 2 else if A2In(h) then 3 else 4
  }

  method ClassifyLevel(h: seq<OpRecord>) returns (level: nat)
    ensures level == LevelOf(h)
  {
    var a1 := DetectA1(h);
    if a1.Some? {
      return 0;
    }
    var a3 := DetectA3(h);
    if a3.Some? {
      return 1;
    }
    var a6 := DetectA6(h);
    if a6.Some? {
      return 2;
    }
    var a2 := DetectA2(h);
    if a2.Some? {
      return 3;
    }
    return 4;
  }
}
