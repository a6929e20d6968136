/** Vocabulary shared by every part of the model. */
module Common {

  datatype Option<+T> = None | Some(value: T)

  /** The largest value of the source's 64-bit clocks and counters. */
  const MAX_U64: nat := 0xFFFF_FFFF_FFFF_FFFF

  method Least(s: set<nat>) returns (m: nat)
    requires s != {}
    ensures m in s && forall x: nat :: x in s ==> m <= x
  {
    m :| m in s;
    var rest := s - {m};
    while rest != {}
      invariant m in s && rest <= s && forall x: nat :: x in s && x !in rest ==> m <= x
      decreases rest
    {
      var x :| x in rest;
      if x < m {
        m := x;
      }
      rest := rest - {x};
    }
  }

  /** What a list of cell writes leaves: the last write to each cell wins. */
  function LastWrites(writes: seq<(nat, nat)>): map<nat, nat> {
    if writes == [] then map[]
    else LastWrites(writes[..|writes| - 1])[writes[|writes| - 1].0 := writes[|writes| - 1].1]
  }

  /** The written cells, each with its writer. */
  function WriterMap(writes: map<nat, nat>, t: nat): map<nat, nat> {
    map c | c in writes :: t
  }

  /** Publishing one more write extends what the prefix published. */
  lemma PublishOne(base: map<nat, nat>, owners: map<nat, nat>, writes: seq<(nat, nat)>, i: nat, t: nat)
    requires i < |writes|
    ensures (base + LastWrites(writes[..i]))[writes[i].0 := writes[i].1] == base + LastWrites(writes[..i + 1])
    ensures (owners + WriterMap(LastWrites(writes[..i]), t))[writes[i].0 := t]
            == owners + WriterMap(LastWrites(writes[..i + 1]), t)
  {
    assert writes[..i + 1][..i] == writes[..i];
  }
}
