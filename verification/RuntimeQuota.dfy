/**
 * The quota on active runtimes, which is checked when a creation begins and used up when it ends
 * (apps/run-supervisor/src/service.ts, apps/run-supervisor/src/runtime-registry.ts).
 */
module RuntimeQuota {
  import opened Wrappers
  import opened RuntimeRegistry
  import opened RuntimeGc
  import opened RuntimeService

  // ----- What every run keeps

  /** Runtimes that count and creations under way never exceed the room the quota check leaves, but for revivals. */
  ghost predicate WithinQuota(cfg: Config, w: World) {
    && w.creating <= w.peak && w.entries.Keys <= w.used && (w.peak > 0 ==> cfg.maxConcurrent > 0)
    && (if w.peak == 0 then ActiveCount(w.entries) <= w.revived
        else ActiveCount(w.entries) + w.creating <= cfg.maxConcurrent - 1 + w.peak + w.revived)
  }

  lemma SetStateCount(w: World, id: Id, state: State)
    ensures var v := SetState(w, id, state);
            && ActiveCount(v.entries) - v.revived <= ActiveCount(w.entries) - w.revived
            && v.entries.Keys == w.entries.Keys
  {
    CountAfterUpdate(w.entries, id, state, w.clock);
  }

  lemma QuotaFollows(cfg: Config, w: World, v: World)
    requires WithinQuota(cfg, w) && v.creating == w.creating && v.peak == w.peak
    requires ActiveCount(v.entries) - v.revived <= ActiveCount(w.entries) - w.revived
    requires v.entries.Keys <= w.entries.Keys && v.used == w.used
    ensures WithinQuota(cfg, v)
  {
  }

  lemma HandleKeepsQuota(cfg: Config, w: World, e: Event)
    requires WithinQuota(cfg, w) && IsHandler(e)
    ensures WithinQuota(cfg, Handle(w, e))
  {
    match e {
      case LaunchStart(id) => SetStateCount(w, id, Starting);
      case LaunchReady(id) =>
        SetStateCount(w, id, Ready);
        CountAfterRunning(SetState(w, id, Ready).entries, id, true);
      case LaunchFails(id) => SetStateCount(w, id, Crashed);
      case StopBegin(id) => SetStateCount(w, id, if Runs(w, id) then Stopping else Stopped);
      case StopEnd(id) =>
        SetStateCount(w, id, Stopped);
        CountAfterRunning(SetState(w, id, Stopped).entries, id, false);
      case DisposeBegin(id) => SetStateCount(w, id, Stopped);
      case DisposeEnd(id) =>
        SetStateCount(w, id, Stopped);
        CountAfterRunning(SetState(w, id, Stopped).entries, id, false);
      case Release(id) => SetStateCount(w, id, Released);
      case _ =>
    }
    QuotaFollows(cfg, w, Handle(w, e));
  }

  lemma VisitKeepsQuota(cfg: Config, w: World, id: Id, dir: Directory)
    requires WithinQuota(cfg, w) && id in w.entries && w.gc.sweepAt.Some?
    ensures WithinQuota(cfg, Visited(cfg, w, id, dir))
  {
    SetStateCount(w, id, Retention);
    SetStateCount(w, id, Deleting);
    CountAfterRemove(w.entries, id);
    QuotaFollows(cfg, w, Visited(cfg, w, id, dir));
  }

  lemma CollectKeepsQuota(cfg: Config, w: World, e: Event)
    requires WithinQuota(cfg, w) && IsCollector(e) && (e.SweepVisit? ==> e.id in w.entries && w.gc.sweepAt.Some?)
    ensures WithinQuota(cfg, Collect(cfg, w, e))
  {
    if e.SweepVisit? {
      VisitKeepsQuota(cfg, w, e.id, e.dir);
      QuotaFollows(cfg, Visited(cfg, w, e.id, e.dir), Collect(cfg, w, e));
    } else {
      if e.Erased? {
        CountAfterRemove(w.entries, e.id);
      }
      QuotaFollows(cfg, w, Collect(cfg, w, e));
    }
  }

  lemma NextKeepsQuota(cfg: Config, w: World, e: Event)
    requires WithinQuota(cfg, w) && Enabled(cfg, w, e)
    ensures WithinQuota(cfg, Next(cfg, w, e))
  {
    if IsHandler(e) {
      HandleKeepsQuota(cfg, w, e);
    } else if IsCollector(e) {
      CollectKeepsQuota(cfg, w, e);
    } else if e.CreateEnd? {
      CountAfterRegister(w.entries, e.id, Entry(Created, w.clock, false));
    }
  }

  lemma {:induction false} RunKeepsQuota(cfg: Config, rule: Rule, w: World, run: seq<Event>, v: World)
    requires WithinQuota(cfg, w) && Leads(cfg, rule, w, run, v)
    ensures WithinQuota(cfg, v) && v.peak >= w.peak
    decreases |run|
  {
    if run != [] {
      NextKeepsQuota(cfg, w, run[0]);
      RunKeepsQuota(cfg, rule, Next(cfg, w, run[0]), run[1..], v);
    }
  }

  lemma StartIsWithinQuota(cfg: Config)
    ensures WithinQuota(cfg, Start) && ActiveIds(Start.entries) == {}
  {
    assert ActiveIds(Start.entries) == {};
  }

  /**
   * In every run the active runtimes are at most the quota minus one, plus the most creations that
   * overlapped, plus the runtimes revived by a call that outlived their release.
   */
  lemma QuotaHolds(cfg: Config, rule: Rule, run: seq<Event>, w: World)
    requires Leads(cfg, rule, Start, run, w)
    ensures WithinQuota(cfg, w)
  {
    StartIsWithinQuota(cfg);
    RunKeepsQuota(cfg, rule, Start, run, w);
  }

  // ----- Revivals

  /** A runtime is about to be made active again by a call that is under way, although it has been released. */
  predicate Revivable(w: World, id: Id) {
    UnderWay(w, id) && id in w.entries && !Active(w.entries[id].state)
  }

  /** Some next step makes a released runtime active again exactly when a call for one is still under way. */
  lemma RevivalIsPossibleExactlyWhen(cfg: Config, w: World)
    ensures (exists e :: Enabled(cfg, w, e) && Next(cfg, w, e).revived > w.revived) <==> exists id :: Revivable(w, id)
  {
    if e :| Enabled(cfg, w, e) && Next(cfg, w, e).revived > w.revived {
      OnlyCallsRevive(cfg, w, e);
    }
    if id :| Revivable(w, id) {
      ReviverRevives(cfg, w, id);
    }
  }

  lemma OnlyCallsRevive(cfg: Config, w: World, e: Event)
    requires Enabled(cfg, w, e) && Next(cfg, w, e).revived > w.revived
    ensures IsHandler(e) && Revivable(w, e.id)
  {
    if IsCollector(e) {
      CollectRevivesNothing(cfg, w, e);
    } else if IsHandler(e) {
      HandleRevives(cfg, w, e);
    }
  }

  lemma CollectRevivesNothing(cfg: Config, w: World, e: Event)
    requires IsCollector(e) && (e.SweepVisit? ==> e.id in w.entries && w.gc.sweepAt.Some?)
    ensures Collect(cfg, w, e).revived == w.revived
  {
  }

  lemma HandleRevives(cfg: Config, w: World, e: Event)
    requires IsHandler(e) && Enabled(cfg, w, e) && Handle(w, e).revived > w.revived
    ensures Revivable(w, e.id)
  {
  }

  lemma ReviverRevives(cfg: Config, w: World, id: Id)
    requires Revivable(w, id)
    ensures Enabled(cfg, w, Reviver(w, id)) && Next(cfg, w, Reviver(w, id)).revived > w.revived
  {
  }

  /** The next step of a call that is under way, one that updates the runtime. */
  function Reviver(w: World, id: Id): Event {
    if id in w.calls.checked then LaunchStart(id)
    else if id in w.calls.launching then LaunchReady(id)
    else if id in w.calls.stopping then StopEnd(id)
    else DisposeEnd(id)
  }

  /** Whatever a call can still update counts already, and is not being erased. */
  ghost predicate HeldIsActive(w: World, id: Id) {
    && (Held(w, id) ==> id in w.entries && Active(w.entries[id].state))
    && (id in w.gc.erasing ==> InState(w, id, {Deleting}))
    && (id in w.entries ==> id in w.used)
  }

  lemma HandleKeepsHeld(cfg: Config, w: World, e: Event)
    requires IsHandler(e) && Enabled(cfg, w, e) && Orderly(w, e) && HeldIsActive(w, e.id)
    ensures HeldIsActive(Handle(w, e), e.id)
  {
  }

  lemma NextKeepsHeld(cfg: Config, w: World, e: Event, id: Id)
    requires HeldIsActive(w, id) && Allowed(cfg, OrderlyRelease, w, e)
    ensures HeldIsActive(Next(cfg, w, e), id)
  {
    if !Concerns(e, id) {
      OthersAreTheSame(cfg, w, e, id);
    } else if IsHandler(e) {
      HandleKeepsHeld(cfg, w, e);
    }
  }

  lemma HandleRevivesNothing(cfg: Config, w: World, e: Event)
    requires IsHandler(e) && Enabled(cfg, w, e) && HeldIsActive(w, e.id)
    ensures Handle(w, e).revived == w.revived
  {
  }

  lemma {:induction false} OrderlyMeansNoRevival(cfg: Config, w: World, run: seq<Event>, v: World)
    requires Leads(cfg, OrderlyRelease, w, run, v) && forall id :: HeldIsActive(w, id)
    ensures v.revived == w.revived && forall id :: HeldIsActive(v, id)
    decreases |run|
  {
    if run != [] {
      if IsHandler(run[0]) {
        HandleRevivesNothing(cfg, w, run[0]);
      }
      forall id ensures HeldIsActive(Next(cfg, w, run[0]), id) {
        NextKeepsHeld(cfg, w, run[0], id);
      }
      OrderlyMeansNoRevival(cfg, Next(cfg, w, run[0]), run[1..], v);
    }
  }

  /**
   * If every release is of a runtime that nothing is under way for and no server is recorded for, at most `maxConcurrent - 1 + C`
   * runtimes are active when at most C creations overlap, and never more than `maxConcurrent` when
   * creations come one after the other.
   */
  lemma QuotaOfOrderlyRuns(cfg: Config, run: seq<Event>, w: World, c: nat)
    requires Leads(cfg, OrderlyRelease, Start, run, w) && w.peak <= c
    ensures c >= 1 ==> ActiveCount(w.entries) <= cfg.maxConcurrent - 1 + c || ActiveCount(w.entries) == 0
    ensures c <= 1 ==> ActiveCount(w.entries) <= cfg.maxConcurrent
  {
    QuotaHolds(cfg, OrderlyRelease, run, w);
    OrderlyMeansNoRevival(cfg, Start, run, w);
  }

  // ----- Using up the quota

  lemma FreshId(used: set<Id>) returns (id: Id)
    ensures id !in used
  {
    id := 0;
    var below: set<Id> := {};
    while id in used
      invariant below <= used && forall x: Id :: x in below <==> x < id
      decreases used - below
    {
      below := below + {id};
      id := id + 1;
    }
  }

  /** Nothing has changed for the runtimes there were. */
  ghost predicate Spares(w: World, v: World) {
    w.used <= v.used && forall id :: id in w.used ==> About(v, id) == About(w, id)
  }

  lemma SparesOn(u: World, w: World, v: World)
    requires Spares(u, w) && Spares(w, v)
    ensures Spares(u, v)
  {
    forall id | id in u.used ensures About(v, id) == About(u, id) {
      assert About(w, id) == About(u, id) && About(v, id) == About(w, id);
    }
  }

  lemma CreateOne(cfg: Config, w: World) returns (run: seq<Event>, v: World)
    requires w.creating > 0 && w.entries.Keys <= w.used
    ensures Leads(cfg, OrderlyRelease, w, run, v) && v.entries.Keys <= v.used && Spares(w, v)
    ensures v.creating == w.creating - 1 && v.peak == w.peak && ActiveCount(v.entries) == ActiveCount(w.entries) + 1
  {
    var id := FreshId(w.used);
    run, v := OneMore(cfg, OrderlyRelease, w, [], w, CreateEnd(id));
    CountAfterRegister(w.entries, id, Entry(Created, w.clock, false));
    forall other | other in w.used ensures About(v, other) == About(w, other) {
      OthersAreTheSame(cfg, w, CreateEnd(id), other);
    }
  }

  lemma {:induction false} BeginMany(cfg: Config, w: World, c: nat) returns (run: seq<Event>, v: World)
    requires w.creating == 0 && ActiveCount(w.entries) < cfg.maxConcurrent
    ensures Leads(cfg, OrderlyRelease, w, run, v) && Spares(w, v)
    ensures v == w.(creating := c, peak := if w.peak > c then w.peak else c)
  {
    if c == 0 {
      run, v := [], w;
    } else {
      run, v := BeginMany(cfg, w, c - 1);
      run, v := OneMore(cfg, OrderlyRelease, w, run, v, CreateBegin);
    }
  }

  lemma {:induction false} EndMany(cfg: Config, w: World, c: nat) returns (run: seq<Event>, v: World)
    requires w.creating == c && w.entries.Keys <= w.used
    ensures Leads(cfg, OrderlyRelease, w, run, v) && v.entries.Keys <= v.used && Spares(w, v)
    ensures v.creating == 0 && v.peak == w.peak && ActiveCount(v.entries) == ActiveCount(w.entries) + c
    decreases c
  {
    if c == 0 {
      run, v := [], w;
    } else {
      var first, u := CreateOne(cfg, w);
      run, v := EndMany(cfg, u, c - 1);
      LeadsThrough(cfg, OrderlyRelease, w, first, u, run, v);
      SparesOn(w, u, v);
      run := first + run;
    }
  }

  /** Creations that all overlap. */
  lemma CreateMany(cfg: Config, w: World, c: nat) returns (run: seq<Event>, v: World)
    requires w.creating == 0 && w.entries.Keys <= w.used && ActiveCount(w.entries) < cfg.maxConcurrent
    ensures Leads(cfg, OrderlyRelease, w, run, v) && v.entries.Keys <= v.used && Spares(w, v)
    ensures v.creating == 0 && ActiveCount(v.entries) == ActiveCount(w.entries) + c
    ensures v.peak == if w.peak > c then w.peak else c
  {
    var first, u := BeginMany(cfg, w, c);
    run, v := EndMany(cfg, u, c);
    LeadsThrough(cfg, OrderlyRelease, w, first, u, run, v);
    SparesOn(w, u, v);
    run := first + run;
  }

  /** As long as there is room, creations one after the other fill it up to the last place. */
  lemma {:induction false} FillSerially(cfg: Config, w: World) returns (run: seq<Event>, v: World)
    requires w.creating == 0 && w.entries.Keys <= w.used && ActiveCount(w.entries) < cfg.maxConcurrent
    ensures Leads(cfg, OrderlyRelease, w, run, v) && v.creating == 0 && v.entries.Keys <= v.used && Spares(w, v)
    ensures ActiveCount(v.entries) == cfg.maxConcurrent - 1 && v.peak <= (if w.peak > 1 then w.peak else 1)
    decreases cfg.maxConcurrent - ActiveCount(w.entries)
  {
    if ActiveCount(w.entries) == cfg.maxConcurrent - 1 {
      run, v := [], w;
    } else {
      var first, u := CreateMany(cfg, w, 1);
      run, v := FillSerially(cfg, u);
      LeadsThrough(cfg, OrderlyRelease, w, first, u, run, v);
      SparesOn(w, u, v);
      run := first + run;
    }
  }

  /** Where there is room, C overlapping creations reach the bound for C. */
  lemma ReachTheBound(cfg: Config, w: World, c: nat) returns (run: seq<Event>, v: World)
    requires w.creating == 0 && w.entries.Keys <= w.used && ActiveCount(w.entries) < cfg.maxConcurrent
    requires c >= 1 && w.peak <= c
    ensures Leads(cfg, OrderlyRelease, w, run, v) && v.peak <= c
    ensures ActiveCount(v.entries) == cfg.maxConcurrent - 1 + c && Spares(w, v)
  {
    var first, u := FillSerially(cfg, w);
    run, v := CreateMany(cfg, u, c);
    LeadsThrough(cfg, OrderlyRelease, w, first, u, run, v);
    SparesOn(w, u, v);
    run := first + run;
  }

  /** Overlapping creations really do exceed the quota: for every C an orderly run reaches the bound. */
  lemma QuotaBoundIsReached(cfg: Config, c: nat) returns (run: seq<Event>, w: World)
    requires cfg.maxConcurrent >= 1 && c >= 1
    ensures Leads(cfg, OrderlyRelease, Start, run, w) && w.peak <= c
    ensures ActiveCount(w.entries) == cfg.maxConcurrent - 1 + c
  {
    StartIsWithinQuota(cfg);
    run, w := ReachTheBound(cfg, Start, c);
  }

  // ----- Making room

  /** Runtimes in STOPPING with no call under way and no server: nothing gets them out, and they count for ever. */
  function Stuck(w: World): set<Id> {
    set id | id in w.entries && w.entries[id].state == Stopping && !Held(w, id)
  }

  /** Nothing about other runtimes, creations or sweeps has changed. */
  ghost predicate OnlyTouches(w: World, v: World, id: Id) {
    && (forall other :: other != id ==> About(v, other) == About(w, other))
    && v.creating == w.creating && v.peak == w.peak && v.used == w.used && v.entries.Keys == w.entries.Keys
  }

  lemma HandlerTouchesOne(cfg: Config, w: World, e: Event)
    requires IsHandler(e) && Enabled(cfg, w, e)
    ensures OnlyTouches(w, Handle(w, e), e.id)
  {
    forall other | other != e.id ensures About(Handle(w, e), other) == About(w, other) {
      OthersAreTheSame(cfg, w, e, other);
    }
    if e.StopBegin? || e.StopEnd? || e.Release? || e.DisposeBegin? || e.DisposeEnd? {
      StopKeepsTheRest(w, e);
    } else {
      LaunchKeepsTheRest(w, e);
    }
  }

  lemma LaunchKeepsTheRest(w: World, e: Event)
    requires e.LaunchCheck? || e.LaunchAborts? || e.LaunchStart? || e.LaunchReady? || e.LaunchFails?
    ensures var v := Handle(w, e);
            v.creating == w.creating && v.peak == w.peak && v.used == w.used && v.entries.Keys == w.entries.Keys
  {
    SetStateKeeps(w, e.id, if e.LaunchStart? then Starting else if e.LaunchReady? then Ready else Crashed);
  }

  lemma StopKeepsTheRest(w: World, e: Event)
    requires e.StopBegin? || e.StopEnd? || e.Release? || e.DisposeBegin? || e.DisposeEnd?
    ensures var v := Handle(w, e);
            v.creating == w.creating && v.peak == w.peak && v.used == w.used && v.entries.Keys == w.entries.Keys
  {
    SetStateKeeps(w, e.id, Stopped);
    SetStateKeeps(w, e.id, if e.Release? then Released else Stopping);
  }

  lemma SetStateKeeps(w: World, id: Id, state: State)
    ensures var v := SetState(w, id, state);
            && v.creating == w.creating && v.peak == w.peak && v.used == w.used && v.entries.Keys == w.entries.Keys
            && forall running :: SetRunning(v.entries, id, running).Keys == w.entries.Keys
  {
  }

  lemma TouchesOn(u: World, w: World, v: World, id: Id)
    requires OnlyTouches(u, w, id) && OnlyTouches(w, v, id)
    ensures OnlyTouches(u, v, id)
  {
  }

  /** How many steps the calls under way for a runtime may still take. */
  function Load(w: World, id: Id): nat {
    2 * w.calls.checked[id] + w.calls.launching[id] + w.calls.stopping[id] + w.calls.disposing[id]
  }

  /** A step that brings the calls under way for a runtime nearer to their end. */
  function Finisher(w: World, id: Id): Event {
    if id in w.calls.checked then LaunchStart(id)
    else if id in w.calls.launching then LaunchFails(id)
    else if id in w.calls.stopping then StopEnd(id)
    else DisposeEnd(id)
  }

  /** Calls are under way, and the server, if there is one, is being taken down. */
  predicate Ending(w: World, id: Id) {
    UnderWay(w, id) && id in w.entries && (Runs(w, id) ==> id in w.calls.stopping || id in w.calls.disposing)
  }

  predicate Down(w: World, id: Id) {
    InState(w, id, {Stopped, Crashed}) && !Held(w, id)
  }

  lemma FinisherIsNearer(cfg: Config, w: World, id: Id)
    requires Ending(w, id)
    ensures Enabled(cfg, w, Finisher(w, id)) && IsHandler(Finisher(w, id))
    ensures Load(Handle(w, Finisher(w, id)), id) < Load(w, id)
  {
  }

  lemma FinisherEndsOne(cfg: Config, w: World, id: Id)
    requires Ending(w, id)
    ensures IsHandler(Finisher(w, id))
    ensures var v := Handle(w, Finisher(w, id));
            Ending(v, id) || Down(v, id)
  {
    var v := Handle(w, Finisher(w, id));
    if id in w.calls.checked {
      assert id in v.calls.launching;
    }
  }

  /** All calls for a registered runtime can end, and leave it stopped or crashed. */
  lemma {:induction false} FinishCalls(cfg: Config, w: World, id: Id) returns (run: seq<Event>, v: World)
    requires Ending(w, id)
    ensures Leads(cfg, OrderlyRelease, w, run, v) && OnlyTouches(w, v, id)
    ensures Down(v, id)
    decreases Load(w, id)
  {
    FinisherIsNearer(cfg, w, id);
    FinisherEndsOne(cfg, w, id);
    HandlerTouchesOne(cfg, w, Finisher(w, id));
    var first, u := OneMore(cfg, OrderlyRelease, w, [], w, Finisher(w, id));
    if Ending(u, id) {
      run, v := FinishCalls(cfg, u, id);
      LeadsThrough(cfg, OrderlyRelease, w, first, u, run, v);
      TouchesOn(w, u, v, id);
      run := first + run;
    } else {
      run, v := first, u;
    }
  }

  /** What gets an active runtime that is not stuck on its way to a stop, unless that is so already. */
  function Stopper(w: World, id: Id): Option<Event>
    requires id in w.entries
  {
    if Ending(w, id) then None
    else if Runs(w, id) then Some(if InState(w, id, {Ready, Starting}) then StopBegin(id) else DisposeBegin(id))
    else if InState(w, id, {Stopped, Crashed}) then None
    else if w.entries[id].state == Created then Some(LaunchCheck(id))
    else Some(StopBegin(id))
  }

  lemma StopperIsEnabled(cfg: Config, w: World, id: Id)
    requires id in ActiveIds(w.entries) && id !in Stuck(w) && Stopper(w, id).Some?
    ensures var e := Stopper(w, id).value; e.id == id && IsHandler(e) && Allowed(cfg, OrderlyRelease, w, e)
  {
  }

  lemma StopperWorks(w: World, id: Id)
    requires id in ActiveIds(w.entries) && id !in Stuck(w) && Stopper(w, id).Some?
    ensures var e := Stopper(w, id).value; IsHandler(e) && (Ending(Handle(w, e), id) || Down(Handle(w, e), id))
  {
  }

  /** A runtime that is active and not stuck can be stopped, or made to crash. */
  lemma BringDown(cfg: Config, w: World, id: Id) returns (run: seq<Event>, v: World)
    requires id in ActiveIds(w.entries) && id !in Stuck(w)
    ensures Leads(cfg, OrderlyRelease, w, run, v) && OnlyTouches(w, v, id)
    ensures Down(v, id)
  {
    var first, u := [], w;
    if Stopper(w, id).Some? {
      StopperIsEnabled(cfg, w, id);
      StopperWorks(w, id);
      var e := Stopper(w, id).value;
      HandlerTouchesOne(cfg, w, e);
      first, u := OneMore(cfg, OrderlyRelease, w, [], w, e);
    }
    if Ending(u, id) {
      run, v := FinishCalls(cfg, u, id);
      LeadsThrough(cfg, OrderlyRelease, w, first, u, run, v);
      TouchesOn(w, u, v, id);
      run := first + run;
    } else {
      run, v := first, u;
    }
  }

  lemma ReleaseOne(cfg: Config, w: World, id: Id) returns (run: seq<Event>, v: World)
    requires id in ActiveIds(w.entries) && id !in Stuck(w)
    ensures Leads(cfg, OrderlyRelease, w, run, v) && OnlyTouches(w, v, id)
    ensures ActiveIds(v.entries) == ActiveIds(w.entries) - {id} && Stuck(v) == Stuck(w)
  {
    var u;
    run, u := BringDown(cfg, w, id);
    HandlerTouchesOne(cfg, u, Release(id));
    run, v := OneMore(cfg, OrderlyRelease, w, run, u, Release(id));
    TouchesOn(w, u, v, id);
    ReleasedOnly(w, v, id);
  }

  lemma ReleasedOnly(w: World, v: World, id: Id)
    requires OnlyTouches(w, v, id) && InState(v, id, {Released}) && id in ActiveIds(w.entries) && id !in Stuck(w)
    ensures ActiveIds(v.entries) == ActiveIds(w.entries) - {id} && Stuck(v) == Stuck(w)
  {
    forall other | other != id ensures other in ActiveIds(v.entries) <==> other in ActiveIds(w.entries)
                               ensures other in Stuck(v) <==> other in Stuck(w) {
      assert About(v, other) == About(w, other);
    }
  }

  /** All active runtimes that are not stuck can be released, in order. */
  lemma {:induction false} MakeRoom(cfg: Config, w: World) returns (run: seq<Event>, v: World)
    ensures Leads(cfg, OrderlyRelease, w, run, v)
    ensures v.creating == w.creating && v.peak == w.peak && v.used == w.used && v.entries.Keys == w.entries.Keys
    ensures ActiveIds(v.entries) <= Stuck(w) && forall id :: id !in ActiveIds(w.entries) ==> About(v, id) == About(w, id)
    decreases |ActiveIds(w.entries)|
  {
    if id :| id in ActiveIds(w.entries) && id !in Stuck(w) {
      var first, u := ReleaseOne(cfg, w, id);
      run, v := MakeRoom(cfg, u);
      LeadsThrough(cfg, OrderlyRelease, w, first, u, run, v);
      run := first + run;
    } else {
      run, v := [], w;
    }
  }

  lemma {:induction false} FailCreations(cfg: Config, w: World) returns (run: seq<Event>, v: World)
    ensures Leads(cfg, OrderlyRelease, w, run, v) && v == w.(creating := 0)
    decreases w.creating
  {
    if w.creating == 0 {
      run, v := [], w;
    } else {
      var first, u := OneMore(cfg, OrderlyRelease, w, [], w, CreateFails);
      run, v := FailCreations(cfg, u);
      LeadsThrough(cfg, OrderlyRelease, w, first, u, run, v);
      run := first + run;
    }
  }

  // ----- When the bound breaks

  /**
   * Going on with orderly releases and at most `c` overlapping creations, more runtimes than the bound for
   * `c` allows can become active.
   */
  ghost predicate CanExceed(cfg: Config, w: World, c: nat) {
    exists run, v ::
      Leads(cfg, OrderlyRelease, w, run, v) && v.peak <= c && ActiveCount(v.entries) > cfg.maxConcurrent - 1 + c
  }

  /** With a runtime that a call can still bring back, and room besides those that are stuck, the bound can be exceeded. */
  lemma RevivalExceeds(cfg: Config, w: World, id: Id, c: nat)
    requires Held(w, id) && id in w.entries && !Active(w.entries[id].state)
    requires w.entries.Keys <= w.used && |Stuck(w)| < cfg.maxConcurrent && c >= 1 && w.peak <= c
    ensures CanExceed(cfg, w, c)
  {
    var run, x := FailCreations(cfg, w);
    assert Stuck(x) == Stuck(w);
    var more, y := MakeRoom(cfg, x);
    LeadsThrough(cfg, OrderlyRelease, w, run, x, more, y);
    assert About(y, id) == About(w, id);
    SubsetSize(ActiveIds(y.entries), Stuck(w));
    var last, z := ReachTheBound(cfg, y, c);
    LeadsThrough(cfg, OrderlyRelease, w, run + more, y, last, z);
    assert About(z, id) == About(y, id);
    if UnderWay(z, id) {
      ReviveAtLast(cfg, w, run + more + last, z, id, c);
    } else {
      var longer, u := OneMore(cfg, OrderlyRelease, w, run + more + last, z, DisposeBegin(id));
      ReviveAtLast(cfg, w, longer, u, id, c);
    }
  }

  lemma ReviveAtLast(cfg: Config, w: World, run: seq<Event>, z: World, id: Id, c: nat)
    requires Leads(cfg, OrderlyRelease, w, run, z) && z.peak <= c && Revivable(z, id)
    requires ActiveCount(z.entries) == cfg.maxConcurrent - 1 + c
    ensures CanExceed(cfg, w, c)
  {
    var longer, v := OneMore(cfg, OrderlyRelease, w, run, z, Reviver(z, id));
    RevivedCounts(z, id);
  }

  lemma SubsetSize(a: set<Id>, b: set<Id>)
    requires a <= b
    ensures |a| <= |b|
  {
    assert b == a + (b - a);
  }

  lemma RevivedCounts(w: World, id: Id)
    requires Revivable(w, id)
    ensures ActiveCount(Handle(w, Reviver(w, id)).entries) == ActiveCount(w.entries) + 1
  {
    var state := if id in w.calls.checked then Starting else if id in w.calls.launching then Ready else Stopped;
    CountAfterUpdate(w.entries, id, state, w.clock);
    CountAfterRunning(SetState(w, id, state).entries, id, state == Ready);
  }

  lemma ReleaseChanges(cfg: Config, w: World, id: Id)
    requires Enabled(cfg, w, Release(id))
    ensures var v := Next(cfg, w, Release(id));
            && Stuck(v) == Stuck(w) && ActiveIds(v.entries) == ActiveIds(w.entries) - {id} && id in ActiveIds(w.entries)
            && v.creating == w.creating && v.peak == w.peak && v.used == w.used && v.entries.Keys == w.entries.Keys
            && v.revived == w.revived && id in v.entries && !Active(v.entries[id].state) && (Held(v, id) <==> Held(w, id))
  {
    HandlerTouchesOne(cfg, w, Release(id));
    ReleasedOnly(w, Next(cfg, w, Release(id)), id);
  }

  /** What holds in a world that an orderly run leads to. */
  lemma OrderlyWorld(cfg: Config, run: seq<Event>, w: World)
    requires Leads(cfg, OrderlyRelease, Start, run, w)
    ensures WithinQuota(cfg, w) && w.revived == 0 && forall id :: HeldIsActive(w, id)
  {
    QuotaHolds(cfg, OrderlyRelease, run, w);
    OrderlyMeansNoRevival(cfg, Start, run, w);
  }

  /** In STOPPING a stop is under way. */
  ghost predicate StoppingIsStopped(w: World, id: Id) {
    InState(w, id, {Stopping}) ==> id in w.calls.stopping
  }

  lemma NextKeepsStopping(cfg: Config, w: World, e: Event, id: Id)
    requires StoppingIsStopped(w, id) && Enabled(cfg, w, e)
    ensures StoppingIsStopped(Next(cfg, w, e), id)
  {
    if !Concerns(e, id) {
      OthersAreTheSame(cfg, w, e, id);
      assert About(Next(cfg, w, e), id) == About(w, id);
    }
  }

  /** In a supervisor that began with an empty registry no runtime is ever stuck. */
  lemma {:induction false} NoneIsStuck(cfg: Config, rule: Rule, w: World, run: seq<Event>, v: World)
    requires Leads(cfg, rule, w, run, v) && forall id :: StoppingIsStopped(w, id)
    ensures Stuck(v) == {}
    decreases |run|
  {
    if run == [] {
      forall id ensures id !in Stuck(w) {
        assert StoppingIsStopped(w, id);
      }
    } else {
      forall id ensures StoppingIsStopped(Next(cfg, w, run[0]), id) {
        NextKeepsStopping(cfg, w, run[0], id);
      }
      NoneIsStuck(cfg, rule, Next(cfg, w, run[0]), run[1..], v);
    }
  }

  /**
   * The exact condition, after an orderly run in which at most `c` creations have overlapped: a release
   * lets the bound for `c` be exceeded if and only if a call for the runtime is under way or its server
   * is still recorded.
   */
  lemma ReleaseBreaksTheBoundExactlyWhen(cfg: Config, run: seq<Event>, w: World, id: Id, c: nat)
    requires Leads(cfg, OrderlyRelease, Start, run, w) && Enabled(cfg, w, Release(id)) && w.peak <= c
    ensures CanExceed(cfg, Next(cfg, w, Release(id)), c) <==> Held(w, id)
  {
    OrderlyWorld(cfg, run, w);
    NoneIsStuck(cfg, OrderlyRelease, Start, run, w);
    ReleaseChanges(cfg, w, id);
    assert ActiveIds(w.entries) != {};
    if Held(w, id) {
      RevivalExceeds(cfg, Next(cfg, w, Release(id)), id, c);
    } else {
      OrderlyReleaseStaysWithin(cfg, w, id, c);
    }
  }

  lemma OrderlyReleaseStaysWithin(cfg: Config, w: World, id: Id, c: nat)
    requires WithinQuota(cfg, w) && w.revived == 0 && (forall x :: HeldIsActive(w, x)) && 1 <= w.peak
    requires Allowed(cfg, OrderlyRelease, w, Release(id))
    ensures !CanExceed(cfg, Next(cfg, w, Release(id)), c)
  {
    var v := Next(cfg, w, Release(id));
    NextKeepsQuota(cfg, w, Release(id));
    ReleaseChanges(cfg, w, id);
    forall x ensures HeldIsActive(v, x) {
      NextKeepsHeld(cfg, w, Release(id), x);
    }
    forall run, u | Leads(cfg, OrderlyRelease, v, run, u) && u.peak <= c
      ensures ActiveCount(u.entries) <= cfg.maxConcurrent - 1 + c {
      RunKeepsQuota(cfg, OrderlyRelease, v, run, u);
      OrderlyMeansNoRevival(cfg, v, run, u);
    }
  }

  /** With creations one after the other: the condition under which the quota itself is exceeded. */
  lemma SerialQuotaBreaksExactlyWhen(cfg: Config, run: seq<Event>, w: World, id: Id)
    requires Leads(cfg, OrderlyRelease, Start, run, w) && Enabled(cfg, w, Release(id)) && w.peak <= 1
    ensures CanExceed(cfg, Next(cfg, w, Release(id)), 1) <==> Held(w, id)
  {
    ReleaseBreaksTheBoundExactlyWhen(cfg, run, w, id, 1);
  }

  // ----- Such a release

  /**
   * The order matters even without a stop: of two launches of one runtime the first crashes, the
   * runtime is released and another one is created in its place; then the second launch goes on, and
   * two runtimes are active where one is allowed.
   */
  lemma LateLaunchBreaksTheQuota(cfg: Config) returns (run: seq<Event>, w: World)
    requires cfg.maxConcurrent == 1
    ensures Leads(cfg, AnyRelease, Start, run, w) && w.peak == 1 && ActiveCount(w.entries) == 2
    ensures forall k :: 0 <= k < |run| ==> !run[k].StopBegin?
  {
    run, w := ReplacedDuringLaunch(cfg);
    run, w := OneMore(cfg, AnyRelease, Start, run, w, LaunchStart(0));
    assert ActiveIds(w.entries) == {0, 1};
  }

  lemma ReplacedDuringLaunch(cfg: Config) returns (run: seq<Event>, w: World)
    requires cfg.maxConcurrent == 1
    ensures Leads(cfg, AnyRelease, Start, run, w) && w.peak == 1 && 0 in w.calls.checked
    ensures w.entries == map[0 := Entry(Released, 0, false), 1 := Entry(Created, w.clock, false)]
    ensures forall k :: 0 <= k < |run| ==> !run[k].StopBegin?
  {
    run, w := ReleasedDuringLaunch(cfg);
    assert ActiveIds(w.entries) == {};
    run, w := OneMore(cfg, AnyRelease, Start, run, w, CreateBegin);
    run, w := OneMore(cfg, AnyRelease, Start, run, w, CreateEnd(1));
  }

  lemma ReleasedDuringLaunch(cfg: Config) returns (run: seq<Event>, w: World)
    requires cfg.maxConcurrent == 1
    ensures Leads(cfg, AnyRelease, Start, run, w) && w.peak == 1 && w.creating == 0 && w.used == {0} && 0 in w.calls.checked
    ensures w.entries == map[0 := Entry(Released, 0, false)]
    ensures forall k :: 0 <= k < |run| ==> !run[k].StopBegin?
  {
    run, w := StartedOnce(cfg, AnyRelease);
    run, w := OneMore(cfg, AnyRelease, Start, run, w, LaunchFails(0));
    run, w := OneMore(cfg, AnyRelease, Start, run, w, Release(0));
  }

  /** Two launches of one runtime, one of which has marked it STARTING. */
  lemma StartedOnce(cfg: Config, rule: Rule) returns (run: seq<Event>, w: World)
    requires cfg.maxConcurrent >= 1
    ensures Leads(cfg, rule, Start, run, w)
    ensures w == Start.(entries := map[0 := Entry(Starting, 0, false)], used := {0}, peak := 1,
                        calls := NoCalls.(checked := multiset{0}, launching := multiset{0}))
    ensures forall k :: 0 <= k < |run| ==> !run[k].StopBegin?
  {
    run, w := LaunchedTwice(cfg, rule);
    run, w := OneMore(cfg, rule, Start, run, w, LaunchStart(0));
  }

  lemma LaunchedTwice(cfg: Config, rule: Rule) returns (run: seq<Event>, w: World)
    requires cfg.maxConcurrent >= 1
    ensures Leads(cfg, rule, Start, run, w)
    ensures w == Start.(entries := map[0 := Entry(Created, 0, false)], used := {0}, peak := 1,
                        calls := NoCalls.(checked := multiset{0, 0}))
    ensures forall k :: 0 <= k < |run| ==> !run[k].StopBegin?
  {
    run, w := CheckedOnce(cfg, rule);
    run, w := OneMore(cfg, rule, Start, run, w, LaunchCheck(0));
  }

  lemma CheckedOnce(cfg: Config, rule: Rule) returns (run: seq<Event>, w: World)
    requires cfg.maxConcurrent >= 1
    ensures Leads(cfg, rule, Start, run, w)
    ensures w == Start.(entries := map[0 := Entry(Created, 0, false)], used := {0}, peak := 1,
                        calls := NoCalls.(checked := multiset{0}))
    ensures forall k :: 0 <= k < |run| ==> !run[k].StopBegin?
  {
    run, w := CreatedOnce(cfg, rule);
    run, w := OneMore(cfg, rule, Start, run, w, LaunchCheck(0));
  }

  lemma CreatedOnce(cfg: Config, rule: Rule) returns (run: seq<Event>, w: World)
    requires cfg.maxConcurrent >= 1
    ensures Leads(cfg, rule, Start, run, w)
    ensures w == Start.(entries := map[0 := Entry(Created, 0, false)], used := {0}, peak := 1)
    ensures forall k :: 0 <= k < |run| ==> !run[k].StopBegin?
  {
    StartIsWithinQuota(cfg);
    run, w := [], Start;
    run, w := OneMore(cfg, rule, Start, run, w, CreateBegin);
    run, w := OneMore(cfg, rule, Start, run, w, CreateEnd(0));
  }

  /**
   * Such a release need not overlap anything: of two launches of one runtime one succeeds and the other
   * fails, and the crashed runtime, whose server still runs, can be released.
   */
  lemma CrashedCanStillRun(cfg: Config) returns (run: seq<Event>, w: World)
    requires cfg.maxConcurrent >= 1
    ensures Leads(cfg, OrderlyRelease, Start, run, w) && w.peak == 1
    ensures Enabled(cfg, w, Release(0)) && !UnderWay(w, 0) && Held(w, 0)
  {
    run, w := StartedOnce(cfg, OrderlyRelease);
    run, w := OneMore(cfg, OrderlyRelease, Start, run, w, LaunchStart(0));
    run, w := OneMore(cfg, OrderlyRelease, Start, run, w, LaunchReady(0));
    run, w := OneMore(cfg, OrderlyRelease, Start, run, w, LaunchFails(0));
  }

  lemma LaunchedOnce(cfg: Config) returns (run: seq<Event>, w: World)
    requires cfg.maxConcurrent >= 1
    ensures Leads(cfg, AnyRelease, Start, run, w)
    ensures w == Start.(entries := map[0 := Entry(Starting, 0, false)], used := {0}, peak := 1,
                        calls := NoCalls.(launching := multiset{0}))
  {
    run, w := CreatedOnce(cfg, AnyRelease);
    run, w := OneMore(cfg, AnyRelease, Start, run, w, LaunchCheck(0));
    run, w := OneMore(cfg, AnyRelease, Start, run, w, LaunchStart(0));
  }
}
