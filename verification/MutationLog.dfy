/**
 * The undo log for world mutations (apps/run-supervisor/src/mutation-tracker.ts): records kept in
 * the order in which they were created, looked up by idempotency key, and replayed backwards.
 */
module MutationLog {
  import opened Wrappers

  datatype Position = Position(world: string, x: int, y: int, z: int)
  datatype Block = Block(runtime: string, position: Position)
  type World = map<Block, string>

  /** Every block has a material; the ones that are not listed have that of the empty world. */
  function MaterialAt(w: World, b: Block): string {
    if b in w then w[b] else "minecraft:air"
  }

  datatype Status = Pending | Applied | Reverted | Failed

  datatype Record = Record(block: Block, material: string, status: Status, key: string, previous: Option<string>)

  /** What the bridge does with the queries of one call; an undo has only the second. */
  datatype Bridge =
    | Works
    | GetFails
    | SetFails
    /** The block is set, but the call reports an error, as a timeout would. */
    | SetThenFails

  datatype State = State(world: World, log: seq<Record>)

  // ----- The operations on values

  /** The record with an idempotency key; keys are unique. */
  function Find(log: seq<Record>, key: string): (r: Option<nat>)
    ensures r.Some? ==> r.value < |log| && log[r.value].key == key
    ensures r.None? ==> forall i :: 0 <= i < |log| ==> log[i].key != key
  {
    if log == [] then None
    else if log[|log| - 1].key == key then Some(|log| - 1)
    else Find(log[..|log| - 1], key)
  }

  /** The log with a record for the key: a new one at the end unless there is one already. */
  function WithRecord(log: seq<Record>, b: Block, material: string, key: string): (seq<Record>, nat) {
    match Find(log, key)
    case Some(i) => (log, i)
    case None => (log + [Record(b, material, Pending, key, None)], |log|)
  }

  function ApplySet(s: State, b: Block, material: string, key: string, bridge: Bridge): State {
    var existing := Find(s.log, key);
    if existing.Some? && s.log[existing.value].status == Applied then s
    else
      var (log, i) := WithRecord(s.log, b, material, key);
      if bridge == GetFails then State(s.world, log[i := log[i].(status := Failed)])
      else
        var seen := log[i := log[i].(previous := Some(MaterialAt(s.world, b)))];
        match bridge
        case Works => State(s.world[b := material], seen[i := seen[i].(status := Applied)])
        case SetThenFails => State(s.world[b := material], seen[i := seen[i].(status := Failed)])
        case _ => State(s.world, seen[i := seen[i].(status := Failed)])
  }

  /** The block is set, whatever the reply. */
  predicate TakesEffect(bridge: Bridge) {
    bridge == Works || bridge == SetThenFails
  }

  function StatusAfterUndo(bridge: Bridge): Status {
    if bridge == Works then Reverted else Failed
  }

  /** Undoes the record at `i` if it is applied and its earlier material is known. */
  function ApplyRevert(s: State, i: nat, bridge: Bridge): State
    requires i < |s.log|
  {
    var r := s.log[i];
    if r.status != Applied || r.previous.None? then s
    else
      State(if TakesEffect(bridge) then s.world[r.block := r.previous.value] else s.world,
            s.log[i := r.(status := StatusAfterUndo(bridge))])
  }

  /** What the bridge does when the record at each place is undone. */
  type Replies = nat -> Bridge

  /** The places of a runtime's applied records among the first `n`, in the order of the log. */
  function Selected(log: seq<Record>, runtime: string, n: nat): (places: seq<nat>)
    requires n <= |log|
    ensures forall k :: 0 <= k < |places| ==> places[k] < n
  {
    if n == 0 then []
    else if log[n - 1].block.runtime == runtime && log[n - 1].status == Applied
    then Selected(log, runtime, n - 1) + [n - 1]
    else Selected(log, runtime, n - 1)
  }

  /** Reverts the records at the given places, the last one first, and goes on when one fails. */
  function RevertEach(s: State, places: seq<nat>, replies: Replies): State
    requires forall k :: 0 <= k < |places| ==> places[k] < |s.log|
    decreases |places|
  {
    if places == [] then s
    else
      var last := places[|places| - 1];
      RevertEach(ApplyRevert(s, last, replies(last)), places[..|places| - 1], replies)
  }

  function ApplyRevertAll(s: State, runtime: string, replies: Replies): State {
    RevertEach(s, Selected(s.log, runtime, |s.log|), replies)
  }

  // ----- The program's objects

  class MutationStore {
    var log: seq<Record>
    /** From idempotency key to the place of its record. */
    var byKey: map<string, nat>

    ghost predicate Valid()
      reads this
    {
      && (forall key :: key in byKey ==> byKey[key] < |log| && log[byKey[key]].key == key)
      && (forall i :: 0 <= i < |log| ==> log[i].key in byKey && byKey[log[i].key] == i)
    }

    constructor ()
      ensures Valid() && log == []
    {
      log, byKey := [], map[];
    }

    lemma FindIsLookup(key: string)
      requires Valid()
      ensures Find(log, key) == if key in byKey then Some(byKey[key]) else None
    {
    }

    method Create(b: Block, material: string, key: string) returns (i: nat)
      requires Valid()
      modifies this
      ensures Valid() && (log, i) == WithRecord(old(log), b, material, key)
      ensures i < |log| && log[i].key == key
    {
      FindIsLookup(key);
      if key in byKey {
        return byKey[key];
      }
      i := |log|;
      log := log + [Record(b, material, Pending, key, None)];
      byKey := byKey[key := i];
    }

    method UpdateStatus(i: nat, status: Status)
      requires Valid() && i < |log|
      modifies this`log
      ensures Valid() && log == old(log)[i := old(log)[i].(status := status)]
    {
      log := log[i := log[i].(status := status)];
    }

    method SetRevertData(i: nat, previous: string)
      requires Valid() && i < |log|
      modifies this`log
      ensures Valid() && log == old(log)[i := old(log)[i].(previous := Some(previous))]
    {
      log := log[i := log[i].(previous := Some(previous))];
    }
  }

  /** The worlds behind the bridge. */
  class BridgeWorld {
    var world: World

    constructor (world: World)
      ensures this.world == world
    {
      this.world := world;
    }

    method SetBlock(b: Block, material: string)
      modifies this
      ensures world == old(world)[b := material]
    {
      world := world[b := material];
    }
  }

  class MutationHandler {
    const store: MutationStore
    const bridge: BridgeWorld

    constructor (store: MutationStore, bridge: BridgeWorld)
      ensures this.store == store && this.bridge == bridge
    {
      this.store, this.bridge := store, bridge;
    }

    ghost function Now(): State
      reads store, bridge
    {
      State(bridge.world, store.log)
    }

    /** `ok` is false when the call throws. */
    method SetBlock(b: Block, material: string, key: string, behaviour: Bridge) returns (ok: bool)
      requires store.Valid()
      modifies store, bridge
      ensures store.Valid() && Now() == ApplySet(old(Now()), b, material, key, behaviour)
      ensures ok <==> behaviour == Works || (Find(old(store.log), key).Some?
                                             && old(store.log)[Find(old(store.log), key).value].status == Applied)
    {
      store.FindIsLookup(key);
      if key in store.byKey && store.log[store.byKey[key]].status == Applied {
        return true;
      }
      var mutation := store.Create(b, material, key);
      if behaviour == GetFails {
        store.UpdateStatus(mutation, Failed);
        return false;
      }
      store.SetRevertData(mutation, MaterialAt(bridge.world, b));
      if behaviour != SetFails {
        bridge.SetBlock(b, material);
      }
      if behaviour != Works {
        store.UpdateStatus(mutation, Failed);
        return false;
      }
      store.UpdateStatus(mutation, Applied);
      return true;
    }

    method Revert(i: nat, behaviour: Bridge) returns (ok: bool)
      requires store.Valid() && i < |store.log|
      modifies store, bridge
      ensures store.Valid() && Now() == ApplyRevert(old(Now()), i, behaviour)
      ensures ok <==> old(store.log)[i].status == Applied && old(store.log)[i].previous.Some? && behaviour == Works
    {
      var mutation := store.log[i];
      if mutation.status != Applied || mutation.previous.None? {
        return false;
      }
      if TakesEffect(behaviour) {
        bridge.SetBlock(mutation.block, mutation.previous.value);
      }
      if behaviour != Works {
        store.UpdateStatus(i, Failed);
        return false;
      }
      store.UpdateStatus(i, Reverted);
      return true;
    }

    /** Goes backwards through the records that are applied when it starts, whatever becomes of each. */
    method RevertAll(runtime: string, replies: Replies)
      requires store.Valid()
      modifies store, bridge
      ensures store.Valid() && Now() == ApplyRevertAll(old(Now()), runtime, replies)
    {
      var applied := AppliedBy(runtime);
      ghost var goal := ApplyRevertAll(Now(), runtime, replies);
      var k := |applied|;
      assert applied[..k] == applied;
      while k > 0
        invariant 0 <= k <= |applied| && store.Valid() && |store.log| == |old(store.log)|
        invariant goal == RevertEach(Now(), applied[..k], replies)
      {
        k := k - 1;
        assert applied[..k + 1][..k] == applied[..k];
        var ok := Revert(applied[k], replies(applied[k]));
      }
    }

    /** The places of a runtime's applied records, in the order of the log. */
    method AppliedBy(runtime: string) returns (applied: seq<nat>)
      ensures applied == Selected(store.log, runtime, |store.log|)
    {
      applied := [];
      for i := 0 to |store.log|
        invariant applied == Selected(store.log, runtime, i)
      {
        if store.log[i].block.runtime == runtime && store.log[i].status == Applied {
          applied := applied + [i];
        }
      }
    }
  }

  // ----- What reverting everything does

  /** The first applied record for a block, among the first `n`, whose undo takes effect. */
  function FirstUndone(log: seq<Record>, n: nat, b: Block, replies: Replies): (r: Option<nat>)
    requires n <= |log|
    ensures r.Some? ==> r.value < n && log[r.value].block == b && log[r.value].status == Applied
  {
    if n == 0 then None
    else if FirstUndone(log, n - 1, b, replies).Some? then FirstUndone(log, n - 1, b, replies)
    else if log[n - 1].block == b && log[n - 1].status == Applied && replies(n - 1) in {Works, SetThenFails}
    then Some(n - 1)
    else None
  }

  lemma {:induction false} FirstUndoneIsFirst(log: seq<Record>, n: nat, b: Block, replies: Replies)
    requires n <= |log|
    ensures var r := FirstUndone(log, n, b, replies);
            forall i :: 0 <= i < (if r.Some? then r.value else n) ==>
              !(log[i].block == b && log[i].status == Applied && replies(i) in {Works, SetThenFails})
    ensures var r := FirstUndone(log, n, b, replies);
            r.Some? ==> log[r.value].block == b && log[r.value].status == Applied
                        && replies(r.value) in {Works, SetThenFails}
  {
    if n > 0 {
      FirstUndoneIsFirst(log, n - 1, b, replies);
    }
  }

  /** Every applied record knows what was there before. */
  ghost predicate Undoable(log: seq<Record>) {
    forall i :: 0 <= i < |log| && log[i].status == Applied ==> log[i].previous.Some?
  }

  /** The material that undoing the first `n` records would leave at a block. */
  ghost function Undone(s: State, n: nat, b: Block, replies: Replies): string
    requires n <= |s.log| && Undoable(s.log)
  {
    match FirstUndone(s.log, n, b, replies)
    case Some(i) => s.log[i].previous.value
    case None => MaterialAt(s.world, b)
  }

  lemma {:induction false} SamePrefix(
    a: seq<Record>, b: seq<Record>, runtime: string, block: Block, n: nat, replies: Replies)
    requires n <= |a| && n <= |b| && forall i :: 0 <= i < n ==> a[i] == b[i]
    ensures Selected(a, runtime, n) == Selected(b, runtime, n)
    ensures FirstUndone(a, n, block, replies) == FirstUndone(b, n, block, replies)
  {
    if n > 0 {
      SamePrefix(a, b, runtime, block, n - 1, replies);
    }
  }

  /** The log after the first `n` records have been undone for a runtime. */
  ghost predicate LogUndone(before: seq<Record>, after: seq<Record>, runtime: string, n: nat, replies: Replies) {
    |after| == |before| && forall i :: 0 <= i < |before| ==>
      after[i] == if i < n && before[i].block.runtime == runtime && before[i].status == Applied
                  then before[i].(status := if replies(i) == Works then Reverted else Failed) else before[i]
  }

  /** Undoing starts with the last selected record, and goes on as if that had not been applied. */
  lemma RevertLast(s: State, runtime: string, n: nat, replies: Replies)
    requires 0 < n <= |s.log| && Undoable(s.log)
    requires s.log[n - 1].block.runtime == runtime && s.log[n - 1].status == Applied
    ensures var s' := ApplyRevert(s, n - 1, replies(n - 1));
            && |s'.log| == |s.log| && Undoable(s'.log)
            && RevertEach(s, Selected(s.log, runtime, n), replies)
               == RevertEach(s', Selected(s'.log, runtime, n - 1), replies)
  {
    var s' := ApplyRevert(s, n - 1, replies(n - 1));
    SamePrefix(s.log, s'.log, runtime, s.log[n - 1].block, n - 1, replies);
    var places := Selected(s.log, runtime, n);
    assert places[..|places| - 1] == Selected(s'.log, runtime, n - 1);
  }

  /** What undoing the first `n` records for a runtime should leave at a block. */
  ghost function Target(s: State, runtime: string, n: nat, b: Block, replies: Replies): string
    requires n <= |s.log| && Undoable(s.log)
  {
    if b.runtime == runtime then Undone(s, n, b, replies) else MaterialAt(s.world, b)
  }

  lemma TargetAfterLast(s: State, runtime: string, n: nat, b: Block, replies: Replies)
    requires 0 < n <= |s.log| && Undoable(s.log)
    requires s.log[n - 1].block.runtime == runtime && s.log[n - 1].status == Applied
    ensures var s' := ApplyRevert(s, n - 1, replies(n - 1));
            && |s'.log| == |s.log| && Undoable(s'.log)
            && Target(s, runtime, n, b, replies) == Target(s', runtime, n - 1, b, replies)
  {
    SamePrefix(s.log, ApplyRevert(s, n - 1, replies(n - 1)).log, b.runtime, b, n - 1, replies);
  }

  lemma TargetWithoutLast(s: State, runtime: string, n: nat, b: Block, replies: Replies)
    requires 0 < n <= |s.log| && Undoable(s.log)
    requires !(s.log[n - 1].block.runtime == runtime && s.log[n - 1].status == Applied)
    ensures Selected(s.log, runtime, n) == Selected(s.log, runtime, n - 1)
    ensures Target(s, runtime, n, b, replies) == Target(s, runtime, n - 1, b, replies)
  {
  }

  lemma LogUndoneStep(log: seq<Record>, after: seq<Record>, runtime: string, n: nat, replies: Replies)
    requires 0 < n <= |log| && log[n - 1].block.runtime == runtime && log[n - 1].status == Applied
    requires LogUndone(log[n - 1 := log[n - 1].(status := StatusAfterUndo(replies(n - 1)))], after, runtime, n - 1, replies)
    ensures LogUndone(log, after, runtime, n, replies)
  {
  }

  /** The state in which the rest is undone, once the last of the first `n` records has been dealt with. */
  lemma PeelLast(s: State, runtime: string, n: nat, b: Block, replies: Replies, after: seq<Record>) returns (t: State)
    requires 0 < n <= |s.log| && Undoable(s.log)
    ensures |t.log| == |s.log| && Undoable(t.log)
    ensures Target(s, runtime, n, b, replies) == Target(t, runtime, n - 1, b, replies)
    ensures RevertEach(s, Selected(s.log, runtime, n), replies) == RevertEach(t, Selected(t.log, runtime, n - 1), replies)
    ensures LogUndone(t.log, after, runtime, n - 1, replies) ==> LogUndone(s.log, after, runtime, n, replies)
  {
    if s.log[n - 1].block.runtime == runtime && s.log[n - 1].status == Applied {
      RevertLast(s, runtime, n, replies);
      TargetAfterLast(s, runtime, n, b, replies);
      t := ApplyRevert(s, n - 1, replies(n - 1));
      if LogUndone(t.log, after, runtime, n - 1, replies) {
        LogUndoneStep(s.log, after, runtime, n, replies);
      }
    } else {
      TargetWithoutLast(s, runtime, n, b, replies);
      t := s;
    }
  }

  /** Undoing the first `n` records marks those of the runtime, and leaves each block as it should. */
  lemma {:induction false} RevertEachUndoes(s: State, runtime: string, n: nat, b: Block, replies: Replies, after: State)
    requires n <= |s.log| && Undoable(s.log) && after == RevertEach(s, Selected(s.log, runtime, n), replies)
    ensures LogUndone(s.log, after.log, runtime, n, replies)
    ensures MaterialAt(after.world, b) == Target(s, runtime, n, b, replies)
    decreases n
  {
    if n > 0 {
      var t := PeelLast(s, runtime, n, b, replies, after.log);
      RevertEachUndoes(t, runtime, n - 1, b, replies, after);
    }
  }

  /** Whatever the bridge does with each undo. */
  lemma RevertAllUndoes(s: State, runtime: string, b: Block, replies: Replies)
    requires Undoable(s.log)
    ensures var t := ApplyRevertAll(s, runtime, replies);
            && LogUndone(s.log, t.log, runtime, |s.log|, replies)
            && MaterialAt(t.world, b)
               == if b.runtime == runtime then Undone(s, |s.log|, b, replies) else MaterialAt(s.world, b)
  {
    RevertEachUndoes(s, runtime, |s.log|, b, replies, ApplyRevertAll(s, runtime, replies));
  }

  // ----- Runs

  datatype Op =
    | Set(block: Block, material: string, key: string, bridge: Bridge)
    | RevertAll(runtime: string, replies: Replies)

  function Apply(s: State, op: Op): State {
    match op
    case Set(b, material, key, bridge) => ApplySet(s, b, material, key, bridge)
    case RevertAll(runtime, replies) => ApplyRevertAll(s, runtime, replies)
  }

  function Run(s: State, ops: seq<Op>): State {
    if ops == [] then s else Apply(Run(s, ops[..|ops| - 1]), ops[|ops| - 1])
  }

  lemma SetKeepsUndoable(s: State, b: Block, material: string, key: string, bridge: Bridge)
    requires Undoable(s.log)
    ensures Undoable(ApplySet(s, b, material, key, bridge).log)
  {
  }

  /** After any run at all, every applied record can be undone. */
  lemma {:induction false} RunIsUndoable(initial: World, ops: seq<Op>)
    ensures Undoable(Run(State(initial, []), ops).log)
  {
    if ops != [] {
      var before, last := ops[..|ops| - 1], ops[|ops| - 1];
      RunIsUndoable(initial, before);
      match last
      case Set(b, material, key, bridge) => SetKeepsUndoable(Run(State(initial, []), before), b, material, key, bridge);
      case RevertAll(runtime, replies) =>
        RevertAllUndoes(Run(State(initial, []), before), runtime, Block(runtime, Position("", 0, 0, 0)), replies);
    }
  }

  /** Every undo among the first `n` records takes effect. */
  ghost predicate AllTakeEffect(replies: Replies, n: nat) {
    forall i :: 0 <= i < n ==> TakesEffect(replies(i))
  }

  function EachWorks(): Replies {
    (i: nat) => Works
  }

  lemma {:induction false} SameUndone(log: seq<Record>, n: nat, b: Block, replies: Replies)
    requires n <= |log| && AllTakeEffect(replies, n)
    ensures FirstUndone(log, n, b, replies) == FirstUndone(log, n, b, EachWorks())
  {
    if n > 0 {
      assert TakesEffect(replies(n - 1));
      SameUndone(log, n - 1, b, replies);
    }
  }

  /**
   * The call does not retry a failed or reverted key, and the bridge does not set a block and then report
   * an error; undoing does not fail.
   */
  ghost predicate Safe(s: State, op: Op) {
    match op
    case RevertAll(_, replies) => AllTakeEffect(replies, |s.log|)
    case Set(_, _, key, bridge) =>
      bridge != SetThenFails && (Find(s.log, key).Some? ==> s.log[Find(s.log, key).value].status == Applied)
  }

  ghost predicate SafeRun(s: State, ops: seq<Op>) {
    forall k :: 0 <= k < |ops| ==> Safe(Run(s, ops[..k]), ops[k])
  }

  /** Undoing everything now would leave each block as it was initially. */
  ghost predicate Restorable(s: State, initial: World) {
    Undoable(s.log) && forall b :: Undone(s, |s.log|, b, EachWorks()) == MaterialAt(initial, b)
  }

  /** A record that is added at the end and is not applied changes nothing; an applied one hides what it overwrote. */
  lemma AppendUndone(s: State, r: Record, world: World, b: Block)
    requires Undoable(s.log)
    requires r.status == Applied ==>
               r.previous == Some(MaterialAt(s.world, r.block)) && world == s.world[r.block := r.material]
    requires r.status != Applied ==> world == s.world
    ensures Undoable(s.log + [r])
    ensures Undone(State(world, s.log + [r]), |s.log| + 1, b, EachWorks()) == Undone(s, |s.log|, b, EachWorks())
  {
    SamePrefix(s.log, s.log + [r], b.runtime, b, |s.log|, EachWorks());
  }

  lemma SetKeepsRestorable(s: State, op: Op, initial: World)
    requires Restorable(s, initial) && op.Set? && Safe(s, op)
    ensures Restorable(Apply(s, op), initial)
  {
    var Set(b, material, key, bridge) := op;
    if Find(s.log, key).None? {
      var t := ApplySet(s, b, material, key, bridge);
      assert t.log == s.log + [t.log[|s.log|]];
      forall c ensures Undoable(t.log) && Undone(t, |t.log|, c, EachWorks()) == MaterialAt(initial, c) {
        AppendUndone(s, t.log[|s.log|], t.world, c);
      }
    }
  }

  lemma RevertAllKeepsRestorable(s: State, runtime: string, initial: World, replies: Replies)
    requires Restorable(s, initial) && AllTakeEffect(replies, |s.log|)
    ensures Restorable(ApplyRevertAll(s, runtime, replies), initial)
  {
    var t := ApplyRevertAll(s, runtime, replies);
    RevertAllUndoes(s, runtime, Block(runtime, Position("", 0, 0, 0)), replies);
    forall b ensures Undone(t, |t.log|, b, EachWorks()) == MaterialAt(initial, b) {
      RevertAllUndoes(s, runtime, b, replies);
      SameUndone(s.log, |s.log|, b, replies);
      UndoneAfter(s.log, t.log, runtime, |s.log|, b, replies, EachWorks());
    }
  }

  /** After an undo, no applied record of that runtime is left, and those of others are where they were. */
  lemma {:induction false} UndoneAfter(
    before: seq<Record>, after: seq<Record>, runtime: string, n: nat, b: Block, replies: Replies, next: Replies)
    requires LogUndone(before, after, runtime, |before|, replies) && n <= |before|
    ensures FirstUndone(after, n, b, next) == if b.runtime == runtime then None else FirstUndone(before, n, b, next)
    ensures Selected(after, runtime, n) == []
  {
    if n > 0 {
      UndoneAfter(before, after, runtime, n - 1, b, replies, next);
    }
  }

  lemma {:induction false} SafeRunIsRestorable(initial: World, ops: seq<Op>)
    requires SafeRun(State(initial, []), ops)
    ensures Restorable(Run(State(initial, []), ops), initial)
  {
    if ops != [] {
      var before, last := ops[..|ops| - 1], ops[|ops| - 1];
      assert SafeRun(State(initial, []), before) by {
        assert forall k :: 0 <= k < |before| ==> before[..k] == ops[..k] && before[k] == ops[k];
      }
      SafeRunIsRestorable(initial, before);
      assert Safe(Run(State(initial, []), before), last);
      if last.Set? {
        SetKeepsRestorable(Run(State(initial, []), before), last, initial);
      } else {
        RevertAllKeepsRestorable(Run(State(initial, []), before), last.runtime, initial, last.replies);
      }
    }
  }

  /**
   * From an empty store, after any safe run, undoing a runtime puts each of its blocks back to its
   * initial material and touches no block of another runtime, if every undo takes effect.
   */
  lemma UndoRestoresTheWorld(initial: World, ops: seq<Op>, runtime: string, b: Block, replies: Replies)
    requires SafeRun(State(initial, []), ops) && AllTakeEffect(replies, |Run(State(initial, []), ops).log|)
    ensures var s := Run(State(initial, []), ops);
            var t := ApplyRevertAll(s, runtime, replies);
            && (b.runtime == runtime ==> MaterialAt(t.world, b) == MaterialAt(initial, b))
            && (b.runtime != runtime ==> MaterialAt(t.world, b) == MaterialAt(s.world, b))
  {
    var s := Run(State(initial, []), ops);
    SafeRunIsRestorable(initial, ops);
    SameUndone(s.log, |s.log|, b, replies);
    RevertAllUndoes(s, runtime, b, replies);
  }

  /**
   * After any run, safe or not, and whatever the bridge does with each undo: a block is restored if and
   * only if the first of its applied records whose undo takes effect saw the initial material, or there is
   * none and the block is as it was. "First" is in the order of the log.
   */
  lemma UndoRestoresExactlyWhen(initial: World, ops: seq<Op>, runtime: string, b: Block, replies: Replies)
    requires b.runtime == runtime
    ensures var s := Run(State(initial, []), ops);
            MaterialAt(ApplyRevertAll(s, runtime, replies).world, b) == MaterialAt(initial, b)
            <==> match FirstUndone(s.log, |s.log|, b, replies)
                 case Some(i) => s.log[i].previous == Some(MaterialAt(initial, b))
                 case None => MaterialAt(s.world, b) == MaterialAt(initial, b)
  {
    RunIsUndoable(initial, ops);
    RevertAllUndoes(Run(State(initial, []), ops), runtime, b, replies);
  }

  /** After any run, undoing a second time does nothing, even where the first undo failed. */
  lemma UndoTwice(initial: World, ops: seq<Op>, runtime: string, replies: Replies, next: Replies)
    ensures var t := ApplyRevertAll(Run(State(initial, []), ops), runtime, replies);
            ApplyRevertAll(t, runtime, next) == t
  {
    var s, b := Run(State(initial, []), ops), Block(runtime, Position("", 0, 0, 0));
    RunIsUndoable(initial, ops);
    RevertAllUndoes(s, runtime, b, replies);
    UndoneAfter(s.log, ApplyRevertAll(s, runtime, replies).log, runtime, |s.log|, b, replies, next);
  }

  /** A call that failed and is retried keeps its old place in the log, so the undo runs in the wrong order. */
  lemma RetryBreaksTheUndo(b: Block, air: World)
    requires air == map[]
    ensures var s1 := ApplySet(State(air, []), b, "stone", "k1", SetFails);
            var s2 := ApplySet(s1, b, "dirt", "k2", Works);
            var s3 := ApplySet(s2, b, "stone", "k1", Works);
            MaterialAt(ApplyRevertAll(s3, b.runtime, EachWorks()).world, b) == "dirt" != MaterialAt(air, b)
  {
    var s1 := ApplySet(State(air, []), b, "stone", "k1", SetFails);
    assert s1.log == [Record(b, "stone", Failed, "k1", Some("minecraft:air"))];
    assert s1.log[..0] == [];
    assert Find(s1.log, "k2") == None;
    var s2 := ApplySet(s1, b, "dirt", "k2", Works);
    assert s2.log == s1.log + [Record(b, "dirt", Applied, "k2", Some("minecraft:air"))];
    assert s2.log[..1] == s1.log;
    assert Find(s2.log, "k1") == Some(0);
    var s3 := ApplySet(s2, b, "stone", "k1", Works);
    assert s3.log[0] == Record(b, "stone", Applied, "k1", Some("dirt"));
    assert FirstUndone(s3.log, 1, b, EachWorks()) == Some(0);
    RevertAllUndoes(s3, b.runtime, b, EachWorks());
  }

  /** A block that was set although the bridge reported an error stays set. */
  lemma LostReplyBreaksTheUndo(b: Block, air: World)
    requires air == map[]
    ensures var s := ApplySet(State(air, []), b, "stone", "k", SetThenFails);
            MaterialAt(ApplyRevertAll(s, b.runtime, EachWorks()).world, b) == "stone" != MaterialAt(air, b)
  {
    var s := ApplySet(State(air, []), b, "stone", "k", SetThenFails);
    assert s.log == [Record(b, "stone", Failed, "k", Some("minecraft:air"))];
    assert FirstUndone(s.log, 1, b, EachWorks()) == None;
    RevertAllUndoes(s, b.runtime, b, EachWorks());
  }

  // ----- What a call does to the log

  ghost predicate KeysDistinct(log: seq<Record>) {
    forall i, j :: 0 <= i < j < |log| ==> log[i].key != log[j].key
  }

  /** What a call leaves at a block and in its record, which was `before`. */
  ghost predicate IsCall(s: State, t: State, b: Block, material: string, bridge: Bridge, before: Record, after: Record) {
    && t.world == (if bridge in {Works, SetThenFails} then s.world[b := material] else s.world)
    && after == before.(status := if bridge == Works then Applied else Failed,
                        previous := if bridge == GetFails then before.previous else Some(MaterialAt(s.world, b)))
  }

  /** A call with a new key adds its record at the end. */
  lemma CallWithNewKey(s: State, b: Block, material: string, key: string, bridge: Bridge)
    requires forall i :: 0 <= i < |s.log| ==> s.log[i].key != key
    ensures var t := ApplySet(s, b, material, key, bridge);
            && |t.log| == |s.log| + 1 && t.log[..|s.log|] == s.log
            && IsCall(s, t, b, material, bridge, Record(b, material, Pending, key, None), t.log[|s.log|])
  {
    assert Find(s.log, key).None?;
  }

  /** A call with a key that is there does nothing if that is applied, and otherwise takes the record over. */
  lemma CallWithKnownKey(s: State, b: Block, material: string, key: string, bridge: Bridge, i: nat)
    requires KeysDistinct(s.log) && i < |s.log| && s.log[i].key == key
    ensures var t := ApplySet(s, b, material, key, bridge);
            && (s.log[i].status == Applied ==> t == s)
            && (s.log[i].status != Applied ==>
                  && |t.log| == |s.log| && IsCall(s, t, b, material, bridge, s.log[i], t.log[i])
                  && forall j :: 0 <= j < |s.log| && j != i ==> t.log[j] == s.log[j])
  {
    assert Find(s.log, key).Some?;
    assert Find(s.log, key).value == i;
  }

  /** After any run the keys of the records are distinct. */
  lemma {:induction false} RunKeepsKeysDistinct(initial: World, ops: seq<Op>)
    ensures KeysDistinct(Run(State(initial, []), ops).log)
  {
    if ops != [] {
      var before, last := ops[..|ops| - 1], ops[|ops| - 1];
      var s := Run(State(initial, []), before);
      RunKeepsKeysDistinct(initial, before);
      match last
      case Set(b, material, key, bridge) =>
        if i :| 0 <= i < |s.log| && s.log[i].key == key {
          CallWithKnownKey(s, b, material, key, bridge, i);
        } else {
          CallWithNewKey(s, b, material, key, bridge);
        }
      case RevertAll(runtime, replies) =>
        RunIsUndoable(initial, before);
        RevertAllUndoes(s, runtime, Block(runtime, Position("", 0, 0, 0)), replies);
    }
  }

  // ----- What a successful call leaves

  /** A call that succeeds changes the block to the material exactly when its key is not that of an applied record. */
  lemma SetTakesEffectExactlyWhen(s: State, b: Block, material: string, key: string)
    requires MaterialAt(s.world, b) != material
    ensures MaterialAt(ApplySet(s, b, material, key, Works).world, b) == material
            <==> Find(s.log, key).None? || s.log[Find(s.log, key).value].status != Applied
  {
  }

  /**
   * Keys that stand for block and material, as the default ones do, make a third call succeed without
   * effect: after stone, dirt and stone again the block is dirt.
   */
  lemma RepeatedMaterialIsDropped(b: Block, air: World, stoneKey: string, dirtKey: string)
    requires air == map[] && stoneKey != dirtKey
    ensures var s1 := ApplySet(State(air, []), b, "stone", stoneKey, Works);
            var s2 := ApplySet(s1, b, "dirt", dirtKey, Works);
            ApplySet(s2, b, "stone", stoneKey, Works) == s2 && MaterialAt(s2.world, b) == "dirt"
  {
    var s1 := ApplySet(State(air, []), b, "stone", stoneKey, Works);
    assert s1.log == [Record(b, "stone", Applied, stoneKey, Some("minecraft:air"))];
    assert s1.log[..0] == [];
    assert Find(s1.log, dirtKey) == None;
    var s2 := ApplySet(s1, b, "dirt", dirtKey, Works);
    assert s2.log == s1.log + [Record(b, "dirt", Applied, dirtKey, Some("stone"))];
    assert s2.log[..1] == s1.log;
    assert Find(s2.log, stoneKey) == Some(0);
  }
}
