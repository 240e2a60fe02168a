/**
 * The life of runtimes as interleaved steps (apps/run-supervisor/src/service.ts, with the collector
 * of apps/run-supervisor/src/runtime-gc.ts): every handler is cut where it awaits, so handlers and
 * sweeps overlap in any way.
 */
module RuntimeService {
  import opened Wrappers
  import opened RuntimeRegistry
  import opened RuntimeGc

  datatype Config = Config(maxConcurrent: nat, retentionMs: int)

  /** A directory that the collector began to erase, and what it knew then. */
  datatype Erasure = Erasure(
    id: Id, sweepAt: int, releasedAt: Option<int>, retainedAt: Option<int>, running: bool, dir: Directory)

  /**
   * The calls under way: launches before and after they mark the runtime STARTING, stops, and disposals,
   * in which a scenario, or the end of the supervisor, takes a server down. `launched` have been READY.
   */
  datatype Calls = Calls(
    checked: multiset<Id>, launching: multiset<Id>, stopping: multiset<Id>, disposing: multiset<Id>, launched: set<Id>)

  /** `listed` is what a sweep has still to visit of the entries there were when it began. */
  datatype Collecting = Collecting(
    sweepAt: Option<int>, listed: set<Id>, erasing: set<Id>, retainedAt: map<Id, int>, erasures: seq<Erasure>)

  /**
   * `creating` counts createRuntime calls past the quota check, `peak` is the most there have been at
   * once; `revived` counts the updates that made a runtime active again that was not.
   */
  datatype World = World(
    entries: Entries, clock: int, used: set<Id>, creating: nat, peak: nat, revived: nat,
    releasedAt: map<Id, int>, calls: Calls, gc: Collecting)

  datatype Event =
    | Tick(ms: nat)
    | CreateBegin | CreateFails | CreateEnd(id: Id)
    | LaunchCheck(id: Id) | LaunchAborts(id: Id) | LaunchStart(id: Id) | LaunchReady(id: Id) | LaunchFails(id: Id)
    | StopBegin(id: Id) | StopEnd(id: Id)
    | DisposeBegin(id: Id) | DisposeEnd(id: Id)
    | Release(id: Id)
    | SweepBegin | SweepVisit(id: Id, dir: Directory) | Erased(id: Id) | EraseFails(id: Id) | SweepEnd

  const NoCalls := Calls(multiset{}, multiset{}, multiset{}, multiset{}, {})
  const NoSweep := Collecting(None, {}, {}, map[], [])

  /** A supervisor that begins with the given entries and nothing under way. */
  function Begun(entries: Entries, clock: int): World {
    World(entries, clock, entries.Keys, 0, 0, 0, map[], NoCalls, NoSweep)
  }

  const Start := Begun(map[], 0)

  predicate InState(w: World, id: Id, states: set<State>) {
    id in w.entries && w.entries[id].state in states
  }

  /** A server is recorded for the runtime. */
  predicate Runs(w: World, id: Id) {
    id in w.entries && w.entries[id].running
  }

  /** A handler continues only if it is under way; a call that requireState rejects changes nothing and is left out. */
  predicate Enabled(cfg: Config, w: World, e: Event) {
    match e
    case CreateBegin => ActiveCount(w.entries) < cfg.maxConcurrent
    case CreateFails => w.creating > 0
    case CreateEnd(id) => w.creating > 0 && id !in w.used
    case LaunchCheck(id) => InState(w, id, {Created})
    case LaunchAborts(id) => id in w.calls.checked
    case LaunchStart(id) => id in w.calls.checked
    case LaunchReady(id) => id in w.calls.launching
    case LaunchFails(id) => id in w.calls.launching
    case StopBegin(id) => InState(w, id, {Ready, Starting})
    case StopEnd(id) => id in w.calls.stopping
    case DisposeBegin(id) => Runs(w, id) || (id in w.calls.launched && InState(w, id, {Created, Starting}))
    case DisposeEnd(id) => id in w.calls.disposing
    case Release(id) => InState(w, id, {Stopped, Crashed})
    case SweepBegin => w.gc.sweepAt.None?
    case SweepVisit(id, _) => w.gc.sweepAt.Some? && id in w.gc.listed && id in w.entries && w.gc.erasing == {}
    case Erased(id) => id in w.gc.erasing
    case EraseFails(id) => id in w.gc.erasing
    case SweepEnd => w.gc.sweepAt.Some? && w.gc.listed == {} && w.gc.erasing == {}
    case _ => true
  }

  /** Whether an update makes a runtime count again that does not. */
  predicate Revives(w: World, id: Id, state: State) {
    id in w.entries && Active(state) && !Active(w.entries[id].state)
  }

  function SetState(w: World, id: Id, state: State): World {
    w.(entries := Update(w.entries, id, state, w.clock), revived := w.revived + if Revives(w, id, state) then 1 else 0)
  }

  function SetServer(w: World, id: Id, running: bool): World {
    w.(entries := SetRunning(w.entries, id, running))
  }

  predicate IsHandler(e: Event) {
    || e.LaunchCheck? || e.LaunchAborts? || e.LaunchStart? || e.LaunchReady? || e.LaunchFails?
    || e.StopBegin? || e.StopEnd? || e.DisposeBegin? || e.DisposeEnd? || e.Release?
  }

  predicate IsCollector(e: Event) {
    e.SweepBegin? || e.SweepVisit? || e.Erased? || e.EraseFails? || e.SweepEnd?
  }

  /**
   * The steps of launchRuntime, stopRuntime and releaseRuntime, and of the disposal after a scenario, which
   * takes a server down whatever the state and then releases; shutdown takes servers down in the same way.
   */
  function Handle(w: World, e: Event): World
    requires IsHandler(e)
  {
    var c := w.calls;
    match e
    case LaunchCheck(id) => w.(calls := c.(checked := c.checked + multiset{id}))
    case LaunchAborts(id) => w.(calls := c.(checked := c.checked - multiset{id}))
    case LaunchStart(id) =>
      SetState(w, id, Starting).(
        calls := c.(checked := c.checked - multiset{id}, launching := c.launching + multiset{id}))
    case LaunchReady(id) =>
      SetServer(SetState(w, id, Ready), id, true).(
        calls := c.(launching := c.launching - multiset{id}, launched := c.launched + {id}))
    case LaunchFails(id) => SetState(w, id, Crashed).(calls := c.(launching := c.launching - multiset{id}))
    case StopBegin(id) =>
      if !Runs(w, id) then SetState(w, id, Stopped)
      else SetState(w, id, Stopping).(calls := c.(stopping := c.stopping + multiset{id}))
    case StopEnd(id) =>
      SetServer(SetState(w, id, Stopped), id, false).(calls := c.(stopping := c.stopping - multiset{id}))
    case DisposeBegin(id) =>
      if Runs(w, id) then w.(calls := c.(disposing := c.disposing + multiset{id})) else SetState(w, id, Stopped)
    case DisposeEnd(id) =>
      SetServer(SetState(w, id, Stopped), id, false).(calls := c.(disposing := c.disposing - multiset{id}))
    case Release(id) => SetState(w, id, Released).(releasedAt := w.releasedAt[id := w.clock])
  }

  /** What a sweep does with one entry, up to where it awaits the erasure. */
  function Visited(cfg: Config, w: World, id: Id, dir: Directory): World
    requires id in w.entries && w.gc.sweepAt.Some?
  {
    match Decide(w.entries[id], w.gc.sweepAt.value, cfg.retentionMs, dir)
    case Retain => SetState(w, id, Retention).(gc := w.gc.(retainedAt := w.gc.retainedAt[id := w.clock]))
    case Drop => w.(entries := w.entries - {id})
    case Erase =>
      var x := Erasure(id, w.gc.sweepAt.value, ValueOf(w.releasedAt, id), ValueOf(w.gc.retainedAt, id),
                       w.entries[id].running, dir);
      SetState(w, id, Deleting).(gc := w.gc.(erasing := w.gc.erasing + {id}, erasures := w.gc.erasures + [x]))
    case _ => w
  }

  /** The steps of a sweep. */
  function Collect(cfg: Config, w: World, e: Event): World
    requires IsCollector(e) && (e.SweepVisit? ==> e.id in w.entries && w.gc.sweepAt.Some?)
  {
    match e
    case SweepBegin => w.(gc := w.gc.(sweepAt := Some(w.clock), listed := w.entries.Keys))
    case SweepVisit(id, dir) =>
      var v := Visited(cfg, w, id, dir);
      v.(gc := v.gc.(listed := w.gc.listed - {id}))
    case Erased(id) => w.(entries := w.entries - {id}, gc := w.gc.(erasing := w.gc.erasing - {id}))
    case EraseFails(id) => w.(gc := w.gc.(erasing := w.gc.erasing - {id}))
    case SweepEnd => w.(gc := w.gc.(sweepAt := None))
  }

  function Next(cfg: Config, w: World, e: Event): World
    requires Enabled(cfg, w, e)
  {
    if IsHandler(e) then Handle(w, e)
    else if IsCollector(e) then Collect(cfg, w, e)
    else
      match e
      case Tick(ms) => w.(clock := w.clock + ms)
      case CreateBegin => w.(creating := w.creating + 1, peak := if w.peak > w.creating then w.peak else w.creating + 1)
      case CreateFails => w.(creating := w.creating - 1)
      case CreateEnd(id) =>
        w.(creating := w.creating - 1, used := w.used + {id}, entries := w.entries[id := Entry(Created, w.clock, false)])
  }

  function ValueOf(m: map<Id, int>, id: Id): Option<int> {
    if id in m then Some(m[id]) else None
  }

  /** A launch, a stop or a disposal of the runtime is under way. */
  predicate UnderWay(w: World, id: Id) {
    id in w.calls.checked || id in w.calls.launching || id in w.calls.stopping || id in w.calls.disposing
  }

  /** A call for the runtime is under way, or could still begin for its server. */
  predicate Held(w: World, id: Id) {
    UnderWay(w, id) || Runs(w, id)
  }

  /** A release of a runtime for which no call is under way and no server is recorded. */
  predicate Orderly(w: World, e: Event) {
    e.Release? ==> !Held(w, e.id)
  }

  // ----- Runs

  /** Which releases a run may have. */
  datatype Rule = AnyRelease | OrderlyRelease

  predicate Allowed(cfg: Config, rule: Rule, w: World, e: Event) {
    Enabled(cfg, w, e) && (rule.AnyRelease? || Orderly(w, e))
  }

  /** The events, one after the other, lead from one world to another. */
  ghost predicate Leads(cfg: Config, rule: Rule, w: World, run: seq<Event>, v: World)
    decreases |run|
  {
    if run == [] then v == w
    else Allowed(cfg, rule, w, run[0]) && Leads(cfg, rule, Next(cfg, w, run[0]), run[1..], v)
  }

  lemma {:induction false} LeadsOn(cfg: Config, rule: Rule, w: World, run: seq<Event>, v: World, e: Event)
    requires Leads(cfg, rule, w, run, v) && Allowed(cfg, rule, v, e)
    ensures Leads(cfg, rule, w, run + [e], Next(cfg, v, e))
    decreases |run|
  {
    if run == [] {
      assert (run + [e])[1..] == [];
    } else {
      assert (run + [e])[1..] == run[1..] + [e];
      LeadsOn(cfg, rule, Next(cfg, w, run[0]), run[1..], v, e);
    }
  }

  /** Two runs, one after the other. */
  lemma {:induction false} LeadsThrough(
    cfg: Config, rule: Rule, u: World, first: seq<Event>, w: World, second: seq<Event>, v: World)
    requires Leads(cfg, rule, u, first, w) && Leads(cfg, rule, w, second, v)
    ensures Leads(cfg, rule, u, first + second, v)
    decreases |second|
  {
    if second == [] {
      assert first + second == first;
    } else {
      LeadsOn(cfg, rule, u, first, w, second[0]);
      assert (first + [second[0]]) + second[1..] == first + second;
      LeadsThrough(cfg, rule, u, first + [second[0]], Next(cfg, w, second[0]), second[1..], v);
    }
  }

  /** A run with one more event. */
  lemma OneMore(cfg: Config, rule: Rule, w0: World, run: seq<Event>, w: World, e: Event)
    returns (longer: seq<Event>, v: World)
    requires Leads(cfg, rule, w0, run, w) && Allowed(cfg, rule, w, e)
    ensures longer == run + [e] && v == Next(cfg, w, e) && Leads(cfg, rule, w0, longer, v)
  {
    longer, v := run + [e], Next(cfg, w, e);
    LeadsOn(cfg, rule, w0, run, w, e);
  }

  // ----- Steps concern one runtime

  predicate Concerns(e: Event, id: Id) {
    match e
    case Tick(_) => false
    case CreateBegin => false
    case CreateFails => false
    case SweepBegin => false
    case SweepEnd => false
    case _ => e.id == id
  }

  /** Everything about one runtime, but for the list of the sweep. */
  datatype Facts = Facts(
    entry: Option<Entry>, used: bool, calls: (nat, nat, nat, nat), launched: bool,
    erasing: bool, releasedAt: Option<int>, retainedAt: Option<int>)

  function About(w: World, id: Id): Facts {
    var c := w.calls;
    Facts(ValueAt(w.entries, id), id in w.used, (c.checked[id], c.launching[id], c.stopping[id], c.disposing[id]),
          id in c.launched, id in w.gc.erasing, ValueOf(w.releasedAt, id), ValueOf(w.gc.retainedAt, id))
  }

  lemma LaunchOthers(w: World, e: Event, id: Id)
    requires e.LaunchCheck? || e.LaunchAborts? || e.LaunchStart? || e.LaunchReady? || e.LaunchFails?
    requires e.id != id
    ensures About(Handle(w, e), id) == About(w, id)
  {
  }

  lemma StopOthers(w: World, e: Event, id: Id)
    requires e.StopBegin? || e.StopEnd? || e.Release?
    requires e.id != id
    ensures About(Handle(w, e), id) == About(w, id)
  {
  }

  lemma DisposeOthers(w: World, e: Event, id: Id)
    requires e.DisposeBegin? || e.DisposeEnd?
    requires e.id != id
    ensures About(Handle(w, e), id) == About(w, id)
  {
  }

  lemma VisitOthers(cfg: Config, w: World, id: Id, dir: Directory, other: Id)
    requires id in w.entries && w.gc.sweepAt.Some? && other != id
    ensures About(Visited(cfg, w, id, dir), other) == About(w, other)
  {
  }

  lemma CollectOthers(cfg: Config, w: World, e: Event, id: Id)
    requires IsCollector(e) && (e.SweepVisit? ==> e.id in w.entries && w.gc.sweepAt.Some?) && !Concerns(e, id)
    ensures About(Collect(cfg, w, e), id) == About(w, id)
  {
    if e.SweepVisit? {
      VisitOthers(cfg, w, e.id, e.dir, id);
    }
  }

  lemma OthersAreTheSame(cfg: Config, w: World, e: Event, id: Id)
    requires Enabled(cfg, w, e) && !Concerns(e, id)
    ensures About(Next(cfg, w, e), id) == About(w, id)
  {
    if e.StopBegin? || e.StopEnd? || e.Release? {
      StopOthers(w, e, id);
    } else if e.DisposeBegin? || e.DisposeEnd? {
      DisposeOthers(w, e, id);
    } else if IsHandler(e) {
      LaunchOthers(w, e, id);
    } else if IsCollector(e) {
      CollectOthers(cfg, w, e, id);
    }
  }
}
