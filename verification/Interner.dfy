/**
 Interning of names: agents, cells and values become ids, in both directions, and id 0 is the NULL name.
 Ids never change meaning, which is why the stores may decide over ids alone.
 */
module Interner {

  const NULL_NAME := "NULL"

  class Interner {
    var toId: map<string, nat>
    var fromId: seq<string>

    /** The two directions are inverse, and NULL came first. */
    ghost predicate Valid()
      reads this
    {
      && (forall s :: s in toId ==> toId[s] < |fromId| && fromId[toId[s]] == s)
      && (forall id: nat :: id < |fromId| ==> fromId[id] in toId && toId[fromId[id]] == id)
      && NULL_NAME in toId && toId[NULL_NAME] == 0
    }

    constructor ()
      ensures Valid() && fromId == [NULL_NAME]
    {
      toId := map[NULL_NAME := 0];
      fromId := [NULL_NAME];
    }

    /** A known name keeps its id; a new one gets the next, and no other id changes. */
    method Intern(s: string) returns (id: nat)
      requires Valid()
      modifies this
      ensures Valid() && id < |fromId| && fromId[id] == s
      ensures old(fromId) <= fromId && old(toId.Keys) + {s} == toId.Keys
      ensures s in old(toId) ==> id == old(toId)[s] && fromId == old(fromId) && toId == old(toId)
      ensures s !in old(toId) ==> fromId == old(fromId) + [s]
    {
      if s in toId {
        return toId[s];
      }
      id := |fromId|;
      fromId := fromId + [s];
      toId := toId[s := id];
    }

    method Name(id: nat) returns (s: string)
      requires Valid() && id < |fromId|
      ensures s == fromId[id] && s in toId && toId[s] == id
    {
      s := fromId[id];
    }

    /** Two names are the same exactly when their ids are; only NULL is id 0. */
    lemma {:induction false} IdsDecideNames(s: string, t: string)
      requires Valid() && s in toId && t in toId
      ensures toId[s] == toId[t] <==> s == t
      ensures toId[s] == 0 <==> s == NULL_NAME
    {
      assert fromId[toId[s]] == s && fromId[toId[t]] == t;
    }
  }

  /** Interning a list of names in order. */
  method InternAll(n: Interner, names: seq<string>) returns (ids: seq<nat>)
    requires n.Valid()
    modifies n
    ensures n.Valid() && old(n.fromId) <= n.fromId && |ids| == |names|
    ensures forall i :: 0 <= i < |ids| ==> ids[i] < |n.fromId| && n.fromId[ids[i]] == names[i]
  {
    ids := [];
    for i := 0 to |names|
      invariant n.Valid() && old(n.fromId) <= n.fromId && |ids| == i
      invariant forall j :: 0 <= j < i ==> ids[j] < |n.fromId| && n.fromId[ids[j]] == names[j]
    {
      var id := n.Intern(names[i]);
      ids := ids + [id];
    }
  }
}
