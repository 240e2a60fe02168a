/**
 * What a supervisor with a registry file knows after it ended and began again
 * (apps/run-supervisor/src/persistent-registry.ts, apps/run-supervisor/src/service.ts).
 */
module RuntimeRestart {
  import opened Wrappers
  import opened RuntimeRegistry
  import opened RuntimeGc
  import opened RuntimeService
  import opened RuntimeRetention
  import RuntimeQuota

  // ----- Loading the records

  /** Servers are gone; what was to run is taken for crashed, everything else keeps its state. */
  function RestoredState(state: State): (restored: State)
    ensures restored == state || (restored == Crashed && (state == Created || state == Starting || state == Ready))
    ensures restored != Created && restored != Starting && restored != Ready
  {
    if state.Created? || state.Starting? || state.Ready? then Crashed else state
  }

  function Restored(records: Entries): Entries {
    map id | id in records :: Entry(RestoredState(records[id].state), records[id].changedAt, false)
  }

  /** The supervisor after it has loaded the records. */
  function Restarted(records: Entries, clock: int): World {
    Begun(Restored(records), clock)
  }

  /** The runtimes that were being stopped when the records were saved. */
  function Interrupted(records: Entries): set<Id> {
    set id | id in records && records[id].state == Stopping
  }

  lemma InterruptedAreStuck(records: Entries, clock: int)
    ensures RuntimeQuota.Stuck(Restarted(records, clock)) == Interrupted(records)
    ensures forall id :: id in Interrupted(records) ==> Parked(Restarted(records, clock), id)
  {
  }

  // ----- Whether anything can be created again

  ghost predicate CanCreate(cfg: Config, rule: Rule, w: World) {
    exists run, v :: Leads(cfg, rule, w, run, v) && Enabled(cfg, v, CreateBegin)
  }

  /**
   * After a restart a runtime can at some time be created if and only if fewer than the quota allows were
   * saved while they were being stopped: those stay in STOPPING and count, whatever is done.
   */
  lemma CanCreateExactlyWhen(cfg: Config, rule: Rule, records: Entries, clock: int)
    ensures CanCreate(cfg, rule, Restarted(records, clock)) <==> |Interrupted(records)| < cfg.maxConcurrent
  {
    var w := Restarted(records, clock);
    InterruptedAreStuck(records, clock);
    if |Interrupted(records)| < cfg.maxConcurrent {
      var run, v := RuntimeQuota.MakeRoom(cfg, w);
      RuntimeQuota.SubsetSize(ActiveIds(v.entries), Interrupted(records));
      OrderlyRunsAreAllowed(cfg, rule, w, run, v);
      assert Leads(cfg, rule, w, run, v) && Enabled(cfg, v, CreateBegin);
    } else {
      forall run, v | Leads(cfg, rule, w, run, v) ensures !Enabled(cfg, v, CreateBegin) {
        InterruptedCount(cfg, rule, records, clock, run, v);
      }
    }
  }

  lemma InterruptedCount(cfg: Config, rule: Rule, records: Entries, clock: int, run: seq<Event>, v: World)
    requires Leads(cfg, rule, Restarted(records, clock), run, v)
    ensures ActiveCount(v.entries) >= |Interrupted(records)|
  {
    forall id | id in Interrupted(records) ensures id in ActiveIds(v.entries) {
      InterruptedAreStuck(records, clock);
      ParkedForGood(cfg, rule, Restarted(records, clock), run, v, id);
    }
    RuntimeQuota.SubsetSize(Interrupted(records), ActiveIds(v.entries));
  }

  lemma {:induction false} OrderlyRunsAreAllowed(cfg: Config, rule: Rule, w: World, run: seq<Event>, v: World)
    requires Leads(cfg, OrderlyRelease, w, run, v)
    ensures Leads(cfg, rule, w, run, v)
    decreases |run|
  {
    if run != [] {
      OrderlyRunsAreAllowed(cfg, rule, Next(cfg, w, run[0]), run[1..], v);
    }
  }

  // ----- Whether a restored runtime can be removed

  ghost predicate CanBeRemoved(cfg: Config, w: World, id: Id) {
    exists run, v :: Leads(cfg, AnyRelease, w, run, v) && id !in v.entries
  }

  /** The states in which an entry is halfway through a stop or an erasure. */
  predicate Halfway(state: State) {
    state.Stopping? || state.DeleteValidation? || state.Deleting? || state.Deleted?
  }

  /** After a restart an entry can at some time be removed if and only if it was not saved halfway. */
  lemma CanBeRemovedExactlyWhen(cfg: Config, records: Entries, clock: int, id: Id)
    requires id in records
    ensures CanBeRemoved(cfg, Restarted(records, clock), id) <==> !Halfway(records[id].state)
  {
    var w := Restarted(records, clock);
    if Halfway(records[id].state) {
      forall run, v | Leads(cfg, AnyRelease, w, run, v) ensures id in v.entries {
        ParkedForGood(cfg, AnyRelease, w, run, v, id);
      }
    } else {
      var state := w.entries[id].state;
      assert state == Stopped || state == Crashed || state == Released || state == Retention;
      var first, u := Retire(cfg, w, id);
      var second, v := RemoveRetained(cfg, u, id);
      LeadsThrough(cfg, AnyRelease, w, first, u, second, v);
      assert Leads(cfg, AnyRelease, w, first + second, v) && id !in v.entries;
    }
  }

  const Gone := Directory(false, false, false)

  /** A sweep for which every directory is gone can be brought to its end, and then erases nothing. */
  lemma {:induction false} FinishSweep(cfg: Config, w: World) returns (run: seq<Event>, v: World)
    requires w.gc.sweepAt.Some? && w.gc.erasing == {} && w.gc.listed <= w.entries.Keys
    ensures Leads(cfg, AnyRelease, w, run, v) && v.gc.sweepAt == None && v.gc.erasing == {}
    ensures forall id :: id !in w.gc.listed ==> About(v, id) == About(w, id)
    decreases |w.gc.listed|
  {
    if id :| id in w.gc.listed {
      var first, u := OneMore(cfg, AnyRelease, w, [], w, SweepVisit(id, Gone));
      VisitErasesNothing(cfg, w, id);
      forall other | other != id ensures About(u, other) == About(w, other) {
        OthersAreTheSame(cfg, w, SweepVisit(id, Gone), other);
      }
      KeysStay(w, u, id);
      run, v := FinishSweep(cfg, u);
      LeadsThrough(cfg, AnyRelease, w, first, u, run, v);
      run := first + run;
    } else {
      run, v := OneMore(cfg, AnyRelease, w, [], w, SweepEnd);
    }
  }

  lemma VisitErasesNothing(cfg: Config, w: World, id: Id)
    requires id in w.entries && w.gc.sweepAt.Some? && w.gc.erasing == {}
    ensures var v := Collect(cfg, w, SweepVisit(id, Gone));
            v.gc.erasing == {} && v.gc.sweepAt == w.gc.sweepAt && v.gc.listed == w.gc.listed - {id}
  {
  }

  lemma KeysStay(w: World, u: World, id: Id)
    requires w.gc.listed <= w.entries.Keys && u.gc.listed == w.gc.listed - {id}
    requires forall other :: other != id ==> About(u, other) == About(w, other)
    ensures u.gc.listed <= u.entries.Keys
  {
    forall other | other in u.gc.listed ensures other in u.entries {
      assert About(u, other) == About(w, other);
    }
  }

  /** Nothing is under way for the runtime, and no sweep is. */
  predicate AtRest(w: World, id: Id) {
    id in w.entries && !Held(w, id) && w.gc.sweepAt == None && w.gc.erasing == {}
  }

  /** A restored runtime that was not saved halfway can be brought into retention. */
  lemma Retire(cfg: Config, w: World, id: Id) returns (run: seq<Event>, v: World)
    requires AtRest(w, id) && InState(w, id, {Stopped, Crashed, Released, Retention})
    ensures Leads(cfg, AnyRelease, w, run, v) && AtRest(v, id) && InState(v, id, {Retention})
  {
    run, v := [], w;
    if InState(w, id, {Stopped, Crashed}) {
      run, v := OneMore(cfg, AnyRelease, w, run, v, Release(id));
    }
    if InState(v, id, {Released}) {
      var more, u := RetainReleased(cfg, v, id);
      LeadsThrough(cfg, AnyRelease, w, run, v, more, u);
      run, v := run + more, u;
    }
  }

  lemma RetainReleased(cfg: Config, w: World, id: Id) returns (run: seq<Event>, v: World)
    requires AtRest(w, id) && InState(w, id, {Released})
    ensures Leads(cfg, AnyRelease, w, run, v) && AtRest(v, id) && InState(v, id, {Retention})
  {
    var first, u := OneMore(cfg, AnyRelease, w, [], w, SweepBegin);
    first, u := OneMore(cfg, AnyRelease, w, first, u, SweepVisit(id, Gone));
    run, v := FinishSweep(cfg, u);
    LeadsThrough(cfg, AnyRelease, w, first, u, run, v);
    run := first + run;
    assert About(v, id) == About(u, id);
  }

  lemma RemoveRetained(cfg: Config, w: World, id: Id) returns (run: seq<Event>, v: World)
    requires AtRest(w, id) && InState(w, id, {Retention})
    ensures Leads(cfg, AnyRelease, w, run, v) && id !in v.entries
  {
    var due := w.entries[id].changedAt + cfg.retentionMs;
    run, v := OneMore(cfg, AnyRelease, w, [], w, Tick(if due > w.clock then due - w.clock else 0));
    run, v := OneMore(cfg, AnyRelease, w, run, v, SweepBegin);
    run, v := OneMore(cfg, AnyRelease, w, run, v, SweepVisit(id, Gone));
  }

  // ----- Such records are saved

  /** The registry is written to its file at the end of these steps. */
  predicate Saves(e: Event) {
    e.CreateEnd? || e.LaunchReady? || e.LaunchFails? || e.StopEnd? || e.Release? || e.SweepEnd?
  }

  /**
   * Where one runtime is allowed, the registry can be saved while that runtime is being stopped; if the
   * supervisor ends then, none can be created ever after.
   */
  lemma InterruptedStopEndsCreation(cfg: Config, rule: Rule, clock: int) returns (run: seq<Event>, w: World)
    requires cfg.maxConcurrent == 1
    ensures Leads(cfg, AnyRelease, Start, run, w) && run != [] && Saves(run[|run| - 1])
    ensures !CanCreate(cfg, rule, Restarted(w.entries, clock))
  {
    run, w := StoppingOnce(cfg);
    run, w := OneMore(cfg, AnyRelease, Start, run, w, SweepBegin);
    run, w := OneMore(cfg, AnyRelease, Start, run, w, SweepVisit(0, Gone));
    run, w := OneMore(cfg, AnyRelease, Start, run, w, SweepEnd);
    assert Interrupted(w.entries) == {0};
    CanCreateExactlyWhen(cfg, rule, w.entries, clock);
  }

  lemma StoppingOnce(cfg: Config) returns (run: seq<Event>, w: World)
    requires cfg.maxConcurrent >= 1
    ensures Leads(cfg, AnyRelease, Start, run, w)
    ensures w.entries == map[0 := Entry(Stopping, 0, true)] && w.gc == NoSweep
  {
    run, w := RuntimeQuota.LaunchedOnce(cfg);
    run, w := OneMore(cfg, AnyRelease, Start, run, w, LaunchReady(0));
    run, w := OneMore(cfg, AnyRelease, Start, run, w, StopBegin(0));
  }

  // ----- Whether the records are still there to be loaded

  /** The first call loads the records; until then there is nothing but the collector. */
  predicate BeforeCalls(run: seq<Event>) {
    forall e :: e in run ==> e.Tick? || IsCollector(e)
  }

  /** The events lead from one world to another, and each sweep that ends writes the registry to the file. */
  ghost predicate LeadsWithFile(
    cfg: Config, w: World, file: Entries, run: seq<Event>, v: World, after: Entries)
    decreases |run|
  {
    if run == [] then v == w && after == file
    else
      && Enabled(cfg, w, run[0])
      && var u := Next(cfg, w, run[0]);
         LeadsWithFile(cfg, u, if run[0].SweepEnd? then u.entries else file, run[1..], v, after)
  }

  lemma NothingToCollect(cfg: Config, w: World, e: Event)
    requires w.entries == map[] && Enabled(cfg, w, e) && (e.Tick? || IsCollector(e))
    ensures Next(cfg, w, e).entries == map[]
  {
  }

  lemma {:induction false} FileUntilCalls(
    cfg: Config, w: World, file: Entries, run: seq<Event>, v: World, after: Entries)
    requires w.entries == map[] && BeforeCalls(run) && LeadsWithFile(cfg, w, file, run, v, after)
    ensures after == if exists k :: 0 <= k < |run| && run[k].SweepEnd? then map[] else file
    decreases |run|
  {
    if run != [] {
      var u, rest := Next(cfg, w, run[0]), run[1..];
      assert run[0] in run;
      NothingToCollect(cfg, w, run[0]);
      FileUntilCalls(cfg, u, if run[0].SweepEnd? then u.entries else file, rest, v, after);
      assert forall k :: 0 <= k < |rest| ==> rest[k] == run[k + 1];
      if k :| 0 < k < |run| && run[k].SweepEnd? {
        assert rest[k - 1].SweepEnd?;
      }
    }
  }

  /**
   * The records of the previous supervisor are still in the file when the first call comes if and only if
   * no sweep has ended before it: a sweep writes the registry out even if it has not been loaded.
   */
  lemma RecordsSurviveExactlyWhen(
    cfg: Config, clock: int, file: Entries, run: seq<Event>, v: World, after: Entries)
    requires BeforeCalls(run) && LeadsWithFile(cfg, Begun(map[], clock), file, run, v, after) && file != map[]
    ensures after == file <==> forall e :: e in run ==> !e.SweepEnd?
  {
    FileUntilCalls(cfg, Begun(map[], clock), file, run, v, after);
    if e :| e in run && e.SweepEnd? {
      var k :| 0 <= k < |run| && run[k] == e;
      assert run[k].SweepEnd?;
    }
  }
}
