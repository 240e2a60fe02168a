/** The registry of runtimes (apps/run-supervisor/src/runtime-registry.ts). */
module RuntimeRegistry {
  import opened Wrappers

  /** Runtime image ids, which are random and never used twice. */
  type Id = nat

  datatype State =
    | Created | Starting | Ready | Stopping | Stopped | Crashed
    | Released | Retention | DeleteValidation | Deleting | Deleted

  datatype Entry = Entry(state: State, changedAt: int, running: bool)

  type Entries = map<Id, Entry>

  datatype Error = QuotaExceeded | NotFound | InvalidState(actual: State)

  /** The states that count towards the quota. */
  predicate Active(s: State) {
    s.Created? || s.Starting? || s.Ready? || s.Stopping? || s.Stopped? || s.Crashed?
  }

  /** All states but those after the release. */
  lemma ActiveUntilReleased(s: State)
    ensures Active(s) <==> s !in {Released, Retention, DeleteValidation, Deleting, Deleted}
  {
  }

  function ActiveIds(entries: Entries): set<Id> {
    set id | id in entries && Active(entries[id].state)
  }

  function ActiveCount(entries: Entries): nat {
    |ActiveIds(entries)|
  }

  /** An entry that has been removed can still be updated by a call that holds it; the registry does not see it. */
  function Update(entries: Entries, id: Id, state: State, now: int): Entries {
    if id in entries then entries[id := entries[id].(state := state, changedAt := now)] else entries
  }

  function SetRunning(entries: Entries, id: Id, running: bool): Entries {
    if id in entries then entries[id := entries[id].(running := running)] else entries
  }

  class Registry {
    /** The ids in the order in which they were registered. */
    var order: seq<Id>
    var entries: Entries
    const maxConcurrent: nat

    ghost predicate Valid()
      reads this
    {
      && (forall id :: id in order <==> id in entries)
      && (forall i, j :: 0 <= i < j < |order| ==> order[i] != order[j])
    }

    constructor (maxConcurrent: nat)
      ensures Valid() && entries == map[] && this.maxConcurrent == maxConcurrent
    {
      this.maxConcurrent := maxConcurrent;
      order, entries := [], map[];
    }

    method CountActive() returns (count: nat)
      requires Valid()
      ensures count == ActiveCount(entries)
    {
      count := 0;
      ghost var counted: set<Id> := {};
      for i := 0 to |order|
        invariant counted == set id | id in order[..i] && Active(entries[id].state)
        invariant count == |counted|
      {
        assert order[..i + 1] == order[..i] + [order[i]];
        if Active(entries[order[i]].state) {
          assert order[i] !in counted;
          counted := counted + {order[i]};
          count := count + 1;
        }
      }
      assert order[..|order|] == order;
      assert counted == ActiveIds(entries);
    }

    method AssertQuota() returns (r: Option<Error>)
      requires Valid()
      ensures r == if ActiveCount(entries) >= maxConcurrent then Some(QuotaExceeded) else None
    {
      var active := CountActive();
      r := if active >= maxConcurrent then Some(QuotaExceeded) else None;
    }

    method Register(id: Id, now: int)
      requires Valid() && id !in entries
      modifies this
      ensures Valid() && entries == old(entries)[id := Entry(Created, now, false)] && order == old(order) + [id]
    {
      order := order + [id];
      entries := entries[id := Entry(Created, now, false)];
    }

    method UpdateState(id: Id, state: State, now: int)
      requires Valid()
      modifies this`entries
      ensures Valid() && entries == Update(old(entries), id, state, now)
    {
      if id in entries {
        entries := entries[id := entries[id].(state := state, changedAt := now)];
      }
    }

    method Remove(id: Id) returns (removed: bool)
      requires Valid()
      modifies this
      ensures Valid() && entries == old(entries) - {id} && (removed <==> id in old(entries))
    {
      removed := id in entries;
      var kept := [];
      for i := 0 to |order|
        invariant forall x :: x in kept <==> x in order[..i] && x != id
        invariant forall a, b :: 0 <= a < b < |kept| ==> kept[a] != kept[b]
      {
        if order[i] != id {
          assert order[i] !in order[..i];
          kept := kept + [order[i]];
        }
      }
      assert order[..|order|] == order;
      order := kept;
      entries := entries - {id};
    }

    method RequireState(id: Id, expected: set<State>) returns (r: Option<Error>)
      requires Valid()
      ensures r == if id !in entries then Some(NotFound)
                   else if entries[id].state !in expected then Some(InvalidState(entries[id].state)) else None
    {
      if id !in entries {
        return Some(NotFound);
      }
      if entries[id].state !in expected {
        return Some(InvalidState(entries[id].state));
      }
      return None;
    }
  }

  // ----- How updates change the count

  lemma CountAfterRegister(entries: Entries, id: Id, entry: Entry)
    requires id !in entries && Active(entry.state)
    ensures ActiveCount(entries[id := entry]) == ActiveCount(entries) + 1
  {
    assert ActiveIds(entries[id := entry]) == ActiveIds(entries) + {id};
  }

  /** An update adds one to the count exactly when it makes an inactive entry active. */
  lemma CountAfterUpdate(entries: Entries, id: Id, state: State, now: int)
    ensures ActiveCount(Update(entries, id, state, now))
            == ActiveCount(entries)
               + (if id in entries && Active(state) && !Active(entries[id].state) then 1 else 0)
               - (if id in entries && !Active(state) && Active(entries[id].state) then 1 else 0)
  {
    var after := ActiveIds(Update(entries, id, state, now));
    if id in entries {
      assert Active(state) ==> after == ActiveIds(entries) + {id};
      assert !Active(state) ==> after == ActiveIds(entries) - {id};
    }
  }

  lemma CountAfterRemove(entries: Entries, id: Id)
    ensures ActiveCount(entries - {id}) == ActiveCount(entries) - (if id in entries && Active(entries[id].state) then 1 else 0)
  {
    assert ActiveIds(entries - {id}) == ActiveIds(entries) - {id};
  }

  lemma CountAfterRunning(entries: Entries, id: Id, running: bool)
    ensures ActiveCount(SetRunning(entries, id, running)) == ActiveCount(entries)
  {
    assert ActiveIds(SetRunning(entries, id, running)) == ActiveIds(entries);
  }
}
