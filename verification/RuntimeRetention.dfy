/**
 * What the collector does to released runtimes while handlers run beside it
 * (apps/run-supervisor/src/runtime-gc.ts, apps/run-supervisor/src/service.ts).
 */
module RuntimeRetention {
  import opened Wrappers
  import opened RuntimeRegistry
  import opened RuntimeGc
  import opened RuntimeService
  import RuntimeQuota

  // ----- Erasures are justified

  /** An erasure as the collector should begin it. */
  predicate Justified(cfg: Config, x: Erasure) {
    && x.releasedAt.Some? && x.retainedAt.Some?
    && x.releasedAt.value <= x.retainedAt.value <= x.sweepAt - cfg.retentionMs
    && !x.running && x.dir == Directory(true, true, true)
  }

  /** What the state of a released runtime says about its past. */
  ghost predicate PastIsKnown(w: World, id: Id) {
    && (id in w.releasedAt ==> w.releasedAt[id] <= w.clock)
    && (InState(w, id, {Released}) ==> id in w.releasedAt && w.releasedAt[id] == w.entries[id].changedAt)
    && (InState(w, id, {Retention}) ==>
          id in w.releasedAt && id in w.gc.retainedAt && w.gc.retainedAt[id] == w.entries[id].changedAt
          && w.releasedAt[id] <= w.gc.retainedAt[id])
  }

  lemma HandleKeepsPast(w: World, e: Event)
    requires IsHandler(e) && PastIsKnown(w, e.id)
    ensures PastIsKnown(Handle(w, e), e.id)
  {
  }

  lemma CollectKeepsPast(cfg: Config, w: World, e: Event, id: Id)
    requires IsCollector(e) && (e.SweepVisit? ==> e.id in w.entries && w.gc.sweepAt.Some?)
    requires PastIsKnown(w, id) && Concerns(e, id)
    ensures PastIsKnown(Collect(cfg, w, e), id)
  {
  }

  lemma NextKeepsPast(cfg: Config, w: World, e: Event, id: Id)
    requires PastIsKnown(w, id) && Enabled(cfg, w, e)
    ensures PastIsKnown(Next(cfg, w, e), id)
  {
    if !Concerns(e, id) {
      OthersAreTheSame(cfg, w, e, id);
      ClockGoesOn(cfg, w, e);
    } else if IsHandler(e) {
      HandleKeepsPast(w, e);
    } else if IsCollector(e) {
      CollectKeepsPast(cfg, w, e, id);
    }
  }

  lemma ClockGoesOn(cfg: Config, w: World, e: Event)
    requires Enabled(cfg, w, e)
    ensures Next(cfg, w, e).clock >= w.clock
  {
  }

  lemma NextErasureIsJustified(cfg: Config, w: World, e: Event, x: Erasure)
    requires (forall id :: PastIsKnown(w, id)) && Enabled(cfg, w, e)
    requires x in Next(cfg, w, e).gc.erasures && x !in w.gc.erasures
    ensures Justified(cfg, x)
  {
    assert PastIsKnown(w, e.id);
  }

  lemma {:induction false} RunErasuresAreJustified(cfg: Config, w: World, run: seq<Event>, v: World)
    requires Leads(cfg, AnyRelease, w, run, v)
    requires (forall id :: PastIsKnown(w, id)) && forall x :: x in w.gc.erasures ==> Justified(cfg, x)
    ensures (forall id :: PastIsKnown(v, id)) && forall x :: x in v.gc.erasures ==> Justified(cfg, x)
    decreases |run|
  {
    if run != [] {
      var u := Next(cfg, w, run[0]);
      forall id ensures PastIsKnown(u, id) {
        NextKeepsPast(cfg, w, run[0], id);
      }
      forall x | x in u.gc.erasures ensures Justified(cfg, x) {
        if x !in w.gc.erasures {
          NextErasureIsJustified(cfg, w, run[0], x);
        }
      }
      RunErasuresAreJustified(cfg, u, run[1..], v);
    }
  }

  /**
   * In every run the collector begins to erase a directory only for a runtime that was released and
   * has then been in retention for the whole period when the sweep began, is not running, and whose
   * directory is there, inside the root and marked.
   */
  lemma ErasuresAreJustified(cfg: Config, run: seq<Event>, w: World)
    requires Leads(cfg, AnyRelease, Start, run, w)
    ensures forall x :: x in w.gc.erasures ==> Justified(cfg, x)
  {
    RunErasuresAreJustified(cfg, Start, run, w);
  }

  // ----- A sweep removes what is due

  /** The entry has been in retention for the whole period, nothing is under way for the runtime, and no server is recorded. */
  predicate Due(cfg: Config, w: World, id: Id, now: int) {
    && InState(w, id, {Retention}) && now - w.entries[id].changedAt >= cfg.retentionMs && !Held(w, id) && id in w.used
  }

  /** The directory is found gone, or as it should be, and erasing it does not fail. */
  predicate Cooperates(e: Event, id: Id) {
    && e != EraseFails(id)
    && (e.SweepVisit? && e.id == id ==> !e.dir.present || (e.dir.inside && e.dir.marker))
  }

  /** During the sweep that began at `now`: not visited yet and still due, or being erased, or gone. */
  ghost predicate OnItsWay(cfg: Config, w: World, id: Id, now: int) {
    && w.gc.sweepAt == Some(now) && id in w.used && !Held(w, id)
    && (id in w.gc.listed ==> Due(cfg, w, id, now) && id !in w.gc.erasing)
    && (id !in w.gc.listed ==> if id in w.gc.erasing then InState(w, id, {Deleting}) else id !in w.entries)
  }

  lemma NextKeepsOnItsWay(cfg: Config, w: World, e: Event, id: Id, now: int)
    requires OnItsWay(cfg, w, id, now) && Enabled(cfg, w, e) && Cooperates(e, id) && !e.SweepEnd?
    ensures OnItsWay(cfg, Next(cfg, w, e), id, now)
  {
    ListChanges(cfg, w, e, id);
    if !Concerns(e, id) {
      OthersAreTheSame(cfg, w, e, id);
      assert About(Next(cfg, w, e), id) == About(w, id);
    } else if IsHandler(e) {
      NoHandlerIsEnabled(cfg, w, e, id, now);
    } else if IsCollector(e) {
      CollectKeepsOnItsWay(cfg, w, e, id, now);
    }
  }

  lemma CollectKeepsOnItsWay(cfg: Config, w: World, e: Event, id: Id, now: int)
    requires OnItsWay(cfg, w, id, now) && Enabled(cfg, w, e) && Cooperates(e, id) && IsCollector(e) && Concerns(e, id)
    ensures OnItsWay(cfg, Collect(cfg, w, e), id, now)
  {
  }

  lemma NoHandlerIsEnabled(cfg: Config, w: World, e: Event, id: Id, now: int)
    requires OnItsWay(cfg, w, id, now) && IsHandler(e) && e.id == id
    ensures !Enabled(cfg, w, e)
  {
  }

  lemma ListChanges(cfg: Config, w: World, e: Event, id: Id)
    requires Enabled(cfg, w, e) && w.gc.sweepAt.Some? && !e.SweepEnd?
    ensures Next(cfg, w, e).gc.sweepAt == w.gc.sweepAt
    ensures id in Next(cfg, w, e).gc.listed <==> id in w.gc.listed && !(e.SweepVisit? && e.id == id)
  {
  }

  lemma {:induction false} RunKeepsOnItsWay(
    cfg: Config, w: World, run: seq<Event>, v: World, id: Id, now: int)
    requires OnItsWay(cfg, w, id, now) && Leads(cfg, AnyRelease, w, run, v)
    requires forall e :: e in run ==> Cooperates(e, id) && !e.SweepEnd?
    ensures OnItsWay(cfg, v, id, now)
    decreases |run|
  {
    if run != [] {
      assert run[0] in run;
      NextKeepsOnItsWay(cfg, w, run[0], id, now);
      RunKeepsOnItsWay(cfg, Next(cfg, w, run[0]), run[1..], v, id, now);
    }
  }

  /**
   * However handlers overlap with it, a sweep that begins when an entry is due has removed the entry when
   * it ends, provided the directory is as it should be and erasing it does not fail.
   */
  lemma NextSweepRemoves(cfg: Config, w: World, run: seq<Event>, v: World, id: Id)
    requires Enabled(cfg, w, SweepBegin) && Due(cfg, w, id, w.clock) && id !in w.gc.erasing
    requires Leads(cfg, AnyRelease, Next(cfg, w, SweepBegin), run, v) && Enabled(cfg, v, SweepEnd)
    requires forall e :: e in run ==> Cooperates(e, id) && !e.SweepEnd?
    ensures id !in v.entries
  {
    RunKeepsOnItsWay(cfg, Next(cfg, w, SweepBegin), run, v, id, w.clock);
  }

  // ----- A failed erasure

  /**
   * A runtime whose directory could not be erased stays in DELETING in every continuing run if and only
   * if no call for it is still under way and no server is recorded: no sweep visits it again.
   */
  lemma FailedErasureIsForGoodExactlyWhen(cfg: Config, w: World, id: Id)
    requires InState(w, id, {Deleting}) && id !in w.gc.erasing && id in w.used
    ensures (forall run, v :: Leads(cfg, AnyRelease, w, run, v) ==> InState(v, id, {Deleting})) <==> !Held(w, id)
  {
    if Held(w, id) {
      var run, v := BroughtBack(cfg, w, id);
      assert exists more, u :: Leads(cfg, AnyRelease, w, more, u) && !InState(u, id, {Deleting}) by {
        assert Leads(cfg, AnyRelease, w, run, v) && !InState(v, id, {Deleting});
      }
    } else {
      forall run, v | Leads(cfg, AnyRelease, w, run, v) ensures InState(v, id, {Deleting}) {
        ParkedForGood(cfg, AnyRelease, w, run, v, id);
      }
    }
  }

  lemma BroughtBack(cfg: Config, w: World, id: Id) returns (run: seq<Event>, v: World)
    requires Held(w, id) && id in w.entries && !Active(w.entries[id].state)
    ensures Leads(cfg, AnyRelease, w, run, v) && id in v.entries && Active(v.entries[id].state)
  {
    run, v := [], w;
    if !UnderWay(w, id) {
      run, v := OneMore(cfg, AnyRelease, w, run, v, DisposeBegin(id));
    }
    ReviverMakesActive(cfg, v, id);
    run, v := OneMore(cfg, AnyRelease, w, run, v, RuntimeQuota.Reviver(v, id));
  }

  lemma ReviverMakesActive(cfg: Config, w: World, id: Id)
    requires UnderWay(w, id) && id in w.entries
    ensures var e := RuntimeQuota.Reviver(w, id);
            && Enabled(cfg, w, e) && id in Next(cfg, w, e).entries && Active(Next(cfg, w, e).entries[id].state)
  {
  }

  /** In a state out of which no handler and no sweep takes a runtime, and nothing is under way for it. */
  predicate Parked(w: World, id: Id) {
    && InState(w, id, {Stopping, DeleteValidation, Deleting, Deleted})
    && !Held(w, id) && id !in w.gc.erasing && id in w.used
  }

  lemma NextKeepsParked(cfg: Config, w: World, e: Event, id: Id)
    requires Parked(w, id) && Enabled(cfg, w, e)
    ensures Parked(Next(cfg, w, e), id) && Next(cfg, w, e).entries[id] == w.entries[id]
  {
    if !Concerns(e, id) {
      OthersAreTheSame(cfg, w, e, id);
      assert About(Next(cfg, w, e), id) == About(w, id);
    }
  }

  /** Such a runtime stays as it is in every continuing run. */
  lemma {:induction false} ParkedForGood(cfg: Config, rule: Rule, w: World, run: seq<Event>, v: World, id: Id)
    requires Parked(w, id) && Leads(cfg, rule, w, run, v)
    ensures Parked(v, id) && v.entries[id] == w.entries[id]
    decreases |run|
  {
    if run != [] {
      NextKeepsParked(cfg, w, run[0], id);
      ParkedForGood(cfg, rule, Next(cfg, w, run[0]), run[1..], v, id);
    }
  }

  /** That an erasure fails, with nothing under way and no server, does happen. */
  lemma ErasureCanFail(cfg: Config) returns (run: seq<Event>, w: World)
    requires cfg.maxConcurrent >= 1
    ensures Leads(cfg, AnyRelease, Start, run, w) && InState(w, 0, {Deleting}) && 0 !in w.gc.erasing && 0 in w.used
    ensures !Held(w, 0)
  {
    run, w := DueInASweep(cfg);
    run, w := OneMore(cfg, AnyRelease, Start, run, w, SweepVisit(0, Directory(true, true, true)));
    run, w := OneMore(cfg, AnyRelease, Start, run, w, EraseFails(0));
  }

  lemma DueInASweep(cfg: Config) returns (run: seq<Event>, w: World)
    requires cfg.maxConcurrent >= 1
    ensures Leads(cfg, AnyRelease, Start, run, w) && w.entries == map[0 := Entry(Retention, 0, false)] && w.used == {0}
    ensures !Held(w, 0) && w.gc.sweepAt.Some? && w.gc.sweepAt.value >= cfg.retentionMs && w.gc.listed == {0} && w.gc.erasing == {}
  {
    run, w := Retained(cfg);
    run, w := OneMore(cfg, AnyRelease, Start, run, w, Tick(if cfg.retentionMs > 0 then cfg.retentionMs else 0));
    run, w := OneMore(cfg, AnyRelease, Start, run, w, SweepBegin);
  }

  lemma Retained(cfg: Config) returns (run: seq<Event>, w: World)
    requires cfg.maxConcurrent >= 1
    ensures Leads(cfg, AnyRelease, Start, run, w) && w.entries == map[0 := Entry(Retention, 0, false)] && w.used == {0}
    ensures !Held(w, 0) && w.clock == 0 && w.gc.sweepAt == None && w.gc.erasing == {}
  {
    run, w := CreatedAndCrashed(cfg);
    run, w := OneMore(cfg, AnyRelease, Start, run, w, Release(0));
    run, w := OneMore(cfg, AnyRelease, Start, run, w, SweepBegin);
    run, w := OneMore(cfg, AnyRelease, Start, run, w, SweepVisit(0, Directory(true, true, true)));
    run, w := OneMore(cfg, AnyRelease, Start, run, w, SweepEnd);
  }

  lemma CreatedAndCrashed(cfg: Config) returns (run: seq<Event>, w: World)
    requires cfg.maxConcurrent >= 1
    ensures Leads(cfg, AnyRelease, Start, run, w) && w.entries == map[0 := Entry(Crashed, 0, false)] && w.used == {0}
    ensures !Held(w, 0) && w.clock == 0 && w.gc.sweepAt == None && w.gc.erasing == {}
  {
    run, w := RuntimeQuota.LaunchedOnce(cfg);
    run, w := OneMore(cfg, AnyRelease, Start, run, w, LaunchFails(0));
  }
}
