/** The collector of released runtimes (apps/run-supervisor/src/runtime-gc.ts). */
module RuntimeGc {
  import opened Wrappers
  import opened RuntimeRegistry

  /** What the file system shows for a runtime's directory. */
  datatype Directory = Directory(present: bool, inside: bool, marker: bool)

  datatype Decision = Ignore | Retain | Skip | Drop | Erase

  /** What a sweep that began at `now` does with an entry. */
  function Decide(entry: Entry, now: int, retentionMs: int, dir: Directory): Decision {
    if entry.state == Released then Retain
    else if entry.state == Retention && now - entry.changedAt >= retentionMs then
      if entry.running then Skip
      else if !dir.present then Drop
      else if !dir.inside || !dir.marker then Skip
      else Erase
    else Ignore
  }

  datatype Counts = Counts(released: nat, deleted: nat, skipped: nat)

  /** One entry of a sweep: the registry after it and what is counted; `erased` says whether rm succeeds. */
  function Visit(entries: Entries, counts: Counts, id: Id, now: int, retentionMs: int, dir: Directory, erased: bool)
    : (Entries, Counts)
    requires id in entries
  {
    match Decide(entries[id], now, retentionMs, dir)
    case Ignore => (entries, counts)
    case Retain => (Update(entries, id, Retention, now), counts.(released := counts.released + 1))
    case Skip => (entries, counts.(skipped := counts.skipped + 1))
    case Drop => (entries - {id}, counts.(deleted := counts.deleted + 1))
    case Erase =>
      if erased then (entries - {id}, counts.(deleted := counts.deleted + 1))
      else (Update(entries, id, Deleting, now), counts.(skipped := counts.skipped + 1))
  }

  function VisitAll(
    entries: Entries, counts: Counts, ids: seq<Id>, now: int, retentionMs: int, dirs: Id -> Directory, erased: Id -> bool)
    : (Entries, Counts)
    decreases |ids|
  {
    if ids == [] then (entries, counts)
    else if ids[0] !in entries then VisitAll(entries, counts, ids[1..], now, retentionMs, dirs, erased)
    else
      var (after, counted) := Visit(entries, counts, ids[0], now, retentionMs, dirs(ids[0]), erased(ids[0]));
      VisitAll(after, counted, ids[1..], now, retentionMs, dirs, erased)
  }

  class GarbageCollector {
    const registry: Registry
    const retentionMs: int
    var running: bool

    constructor (registry: Registry, retentionMs: int)
      ensures this.registry == registry && this.retentionMs == retentionMs && !running
    {
      this.registry, this.retentionMs := registry, retentionMs;
      running := false;
    }

    /** A sweep during another one does nothing. The clock does not move while this one runs. */
    method Sweep(now: int, dirs: Id -> Directory, erased: Id -> bool) returns (result: Counts)
      requires registry.Valid()
      modifies this, registry
      ensures registry.Valid() && running == old(running)
      ensures old(running) ==> registry.entries == old(registry.entries) && result == Counts(0, 0, 0)
      ensures !old(running) ==>
                (registry.entries, result)
                == VisitAll(old(registry.entries), Counts(0, 0, 0), old(registry.order), now, retentionMs, dirs, erased)
    {
      result := Counts(0, 0, 0);
      if running {
        return;
      }
      running := true;
      var ids := registry.order;
      ghost var goal := VisitAll(registry.entries, result, ids, now, retentionMs, dirs, erased);
      var i := 0;
      while i < |ids|
        invariant 0 <= i <= |ids| && registry.Valid()
        invariant goal == VisitAll(registry.entries, result, ids[i..], now, retentionMs, dirs, erased)
      {
        var id := ids[i];
        assert ids[i..][0] == id && ids[i..][1..] == ids[i + 1..];
        i := i + 1;
        if id in registry.entries {
          result := VisitEntry(id, result, now, dirs(id), erased(id));
        }
      }
      running := false;
    }

    /** The body of the loop for one entry. */
    method VisitEntry(id: Id, counts: Counts, now: int, dir: Directory, erased: bool) returns (result: Counts)
      requires registry.Valid() && id in registry.entries
      modifies registry
      ensures registry.Valid()
      ensures (registry.entries, result) == Visit(old(registry.entries), counts, id, now, retentionMs, dir, erased)
    {
      var entry := registry.entries[id];
      if entry.state == Released {
        registry.UpdateState(id, Retention, now);
        return counts.(released := counts.released + 1);
      }
      if !(entry.state == Retention && now - entry.changedAt >= retentionMs) {
        return counts;
      }
      if entry.running {
        return counts.(skipped := counts.skipped + 1);
      }
      if !dir.present {
        var removed := registry.Remove(id);
        return counts.(deleted := counts.deleted + 1);
      }
      if !dir.inside || !dir.marker {
        return counts.(skipped := counts.skipped + 1);
      }
      registry.UpdateState(id, DeleteValidation, now);
      registry.UpdateState(id, Deleting, now);
      assert registry.entries == Update(old(registry.entries), id, Deleting, now);
      if !erased {
        return counts.(skipped := counts.skipped + 1);
      }
      registry.UpdateState(id, Deleted, now);
      var removed := registry.Remove(id);
      assert registry.entries == old(registry.entries) - {id};
      return counts.(deleted := counts.deleted + 1);
    }
  }

  /** What becomes of an entry: nothing (it is gone) or its new value. */
  function Fate(entry: Entry, now: int, retentionMs: int, dir: Directory, erased: bool): Option<Entry> {
    match Decide(entry, now, retentionMs, dir)
    case Retain => Some(entry.(state := Retention, changedAt := now))
    case Drop => None
    case Erase => if erased then None else Some(entry.(state := Deleting, changedAt := now))
    case _ => Some(entry)
  }

  function ValueAt(entries: Entries, id: Id): Option<Entry> {
    if id in entries then Some(entries[id]) else None
  }

  ghost predicate Distinct(ids: seq<Id>) {
    forall i, j :: 0 <= i < j < |ids| ==> ids[i] != ids[j]
  }

  lemma VisitFate(
    entries: Entries, counts: Counts, id: Id, now: int, retentionMs: int, dir: Directory, erased: bool, other: Id)
    requires id in entries
    ensures var after := Visit(entries, counts, id, now, retentionMs, dir, erased).0;
            ValueAt(after, other)
            == if other == id then Fate(entries[id], now, retentionMs, dir, erased) else ValueAt(entries, other)
  {
  }

  /** A sweep decides on every entry by itself: what it does with one does not depend on the others or on their order. */
  lemma {:induction false} SweepFate(
    entries: Entries, counts: Counts, ids: seq<Id>, now: int, retentionMs: int,
    dirs: Id -> Directory, erased: Id -> bool, id: Id)
    requires Distinct(ids)
    ensures var after := VisitAll(entries, counts, ids, now, retentionMs, dirs, erased).0;
            ValueAt(after, id)
            == if id in entries && id in ids then Fate(entries[id], now, retentionMs, dirs(id), erased(id))
               else ValueAt(entries, id)
    decreases |ids|
  {
    if ids != [] {
      var first := ids[0];
      assert first !in ids[1..];
      assert ids == [first] + ids[1..];
      if first !in entries {
        SweepFate(entries, counts, ids[1..], now, retentionMs, dirs, erased, id);
      } else {
        var (after, counted) := Visit(entries, counts, first, now, retentionMs, dirs(first), erased(first));
        VisitFate(entries, counts, first, now, retentionMs, dirs(first), erased(first), id);
        SweepFate(after, counted, ids[1..], now, retentionMs, dirs, erased, id);
      }
    }
  }

  /**
   * The next sweep removes an entry that has been in retention long enough, is not running, and
   * whose directory is gone, or is inside the root, marked, and can be erased; it removes no other.
   */
  lemma SweepRemovesExactly(
    entries: Entries, ids: seq<Id>, now: int, retentionMs: int, dirs: Id -> Directory, erased: Id -> bool, id: Id)
    requires Distinct(ids) && id in entries && id in ids
    ensures var after := VisitAll(entries, Counts(0, 0, 0), ids, now, retentionMs, dirs, erased).0;
            id !in after
            <==> && entries[id].state == Retention && now - entries[id].changedAt >= retentionMs && !entries[id].running
                 && (!dirs(id).present || (dirs(id).inside && dirs(id).marker && erased(id)))
  {
    SweepFate(entries, Counts(0, 0, 0), ids, now, retentionMs, dirs, erased, id);
  }

  // ----- What a sweep counts

  datatype Sweep = Sweep(now: int, retentionMs: int, dirs: Id -> Directory, erased: Id -> bool)

  function FateIn(w: Sweep, entries: Entries, id: Id): Option<Entry>
    requires id in entries
  {
    Fate(entries[id], w.now, w.retentionMs, w.dirs(id), w.erased(id))
  }

  /** The entries that disappear, go into retention, or stay although their retention is over. */
  function Removed(w: Sweep, entries: Entries): Id -> bool {
    (id: Id) => id in entries && FateIn(w, entries, id).None?
  }

  function Retained(entries: Entries): Id -> bool {
    (id: Id) => id in entries && entries[id].state == Released
  }

  function Kept(w: Sweep, entries: Entries): Id -> bool {
    (id: Id) =>
      && id in entries && FateIn(w, entries, id).Some? && entries[id].state == Retention
      && w.now - entries[id].changedAt >= w.retentionMs
  }

  function CountIf(p: Id -> bool, ids: seq<Id>): nat {
    if ids == [] then 0 else (if p(ids[0]) then 1 else 0) + CountIf(p, ids[1..])
  }

  lemma {:induction false} SameCount(p: Id -> bool, q: Id -> bool, ids: seq<Id>)
    requires forall id :: id in ids ==> p(id) == q(id)
    ensures CountIf(p, ids) == CountIf(q, ids)
  {
    if ids != [] {
      SameCount(p, q, ids[1..]);
    }
  }

  lemma {:induction false} CountIsSize(p: Id -> bool, ids: seq<Id>, places: set<Id>)
    requires Distinct(ids) && forall id :: id in places <==> id in ids && p(id)
    ensures CountIf(p, ids) == |places|
  {
    if ids == [] {
      assert places == {};
    } else {
      var first, rest := ids[0], ids[1..];
      assert first !in rest && ids == [first] + rest;
      CountIsSize(p, rest, places - {first});
    }
  }

  lemma VisitCounts(w: Sweep, entries: Entries, counts: Counts, id: Id)
    requires id in entries
    ensures var counted := Visit(entries, counts, id, w.now, w.retentionMs, w.dirs(id), w.erased(id)).1;
            && counted.deleted == counts.deleted + (if Removed(w, entries)(id) then 1 else 0)
            && counted.released == counts.released + (if Retained(entries)(id) then 1 else 0)
            && counted.skipped == counts.skipped + (if Kept(w, entries)(id) then 1 else 0)
  {
  }

  lemma {:induction false} VisitAllCounts(w: Sweep, entries: Entries, counts: Counts, ids: seq<Id>)
    requires Distinct(ids)
    ensures var after := VisitAll(entries, counts, ids, w.now, w.retentionMs, w.dirs, w.erased).1;
            && after.deleted == counts.deleted + CountIf(Removed(w, entries), ids)
            && after.released == counts.released + CountIf(Retained(entries), ids)
            && after.skipped == counts.skipped + CountIf(Kept(w, entries), ids)
    decreases |ids|
  {
    if ids != [] {
      var first, rest := ids[0], ids[1..];
      assert first !in rest;
      if first !in entries {
        VisitAllCounts(w, entries, counts, rest);
      } else {
        var (after, counted) := Visit(entries, counts, first, w.now, w.retentionMs, w.dirs(first), w.erased(first));
        VisitCounts(w, entries, counts, first);
        VisitAllCounts(w, after, counted, rest);
        forall id | id in rest ensures ValueAt(after, id) == ValueAt(entries, id) {
          VisitFate(entries, counts, first, w.now, w.retentionMs, w.dirs(first), w.erased(first), id);
        }
        SameRest(w, entries, after, rest);
      }
    }
  }

  lemma SameRest(w: Sweep, entries: Entries, after: Entries, rest: seq<Id>)
    requires forall id :: id in rest ==> ValueAt(after, id) == ValueAt(entries, id)
    ensures CountIf(Removed(w, after), rest) == CountIf(Removed(w, entries), rest)
    ensures CountIf(Retained(after), rest) == CountIf(Retained(entries), rest)
    ensures CountIf(Kept(w, after), rest) == CountIf(Kept(w, entries), rest)
  {
    forall id | id in rest
      ensures Removed(w, after)(id) == Removed(w, entries)(id)
      ensures Retained(after)(id) == Retained(entries)(id)
      ensures Kept(w, after)(id) == Kept(w, entries)(id) {
      assert ValueAt(after, id) == ValueAt(entries, id);
    }
    SameCount(Removed(w, after), Removed(w, entries), rest);
    SameCount(Retained(after), Retained(entries), rest);
    SameCount(Kept(w, after), Kept(w, entries), rest);
  }

  function Disappeared(before: Entries, after: Entries): set<Id> {
    set id | id in before && id !in after
  }

  function WentIntoRetention(before: Entries, after: Entries): set<Id> {
    set id | id in before && id in after && before[id].state == Released && after[id].state == Retention
  }

  function StayedThoughDue(w: Sweep, before: Entries, after: Entries): set<Id> {
    set id | id in before && id in after && before[id].state == Retention
             && w.now - before[id].changedAt >= w.retentionMs
  }

  /**
   * A sweep over all entries counts as deleted those that disappeared, as released those that went from
   * RELEASED into RETENTION, and as skipped those that stayed although their retention was over.
   */
  lemma SweepCounts(w: Sweep, entries: Entries, ids: seq<Id>)
    requires Distinct(ids) && forall id :: id in ids <==> id in entries
    ensures var (after, counts) := VisitAll(entries, Counts(0, 0, 0), ids, w.now, w.retentionMs, w.dirs, w.erased);
            && counts.deleted == |Disappeared(entries, after)|
            && counts.released == |WentIntoRetention(entries, after)|
            && counts.skipped == |StayedThoughDue(w, entries, after)|
  {
    var (after, counts) := VisitAll(entries, Counts(0, 0, 0), ids, w.now, w.retentionMs, w.dirs, w.erased);
    VisitAllCounts(w, entries, Counts(0, 0, 0), ids);
    forall id | id in entries ensures ValueAt(after, id) == FateIn(w, entries, id) {
      SweepFate(entries, Counts(0, 0, 0), ids, w.now, w.retentionMs, w.dirs, w.erased, id);
    }
    FatesAre(w, entries, after);
    CountIsSize(Removed(w, entries), ids, Disappeared(entries, after));
    CountIsSize(Retained(entries), ids, WentIntoRetention(entries, after));
    CountIsSize(Kept(w, entries), ids, StayedThoughDue(w, entries, after));
  }

  lemma FatesAre(w: Sweep, entries: Entries, after: Entries)
    requires forall id :: id in entries ==> ValueAt(after, id) == FateIn(w, entries, id)
    ensures forall id :: id in Disappeared(entries, after) <==> id in entries && Removed(w, entries)(id)
    ensures forall id :: id in WentIntoRetention(entries, after) <==> id in entries && Retained(entries)(id)
    ensures forall id :: id in StayedThoughDue(w, entries, after) <==> id in entries && Kept(w, entries)(id)
  {
    forall id | id in entries
      ensures id in Disappeared(entries, after) <==> Removed(w, entries)(id)
      ensures id in WentIntoRetention(entries, after) <==> Retained(entries)(id)
      ensures id in StayedThoughDue(w, entries, after) <==> Kept(w, entries)(id) {
      assert ValueAt(after, id) == FateIn(w, entries, id);
    }
  }
}
