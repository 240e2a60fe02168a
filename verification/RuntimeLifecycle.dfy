/**
 * The states that a runtime goes through if its calls do not overlap, against the diagram for runtimes in
 * docs/architecture/state-machines.md.
 */
module RuntimeLifecycle {
  import opened Wrappers
  import opened RuntimeRegistry
  import opened RuntimeGc
  import opened RuntimeService

  /** No call for a runtime begins while another one for it is under way. */
  predicate Alone(w: World, e: Event) {
    e.LaunchCheck? || e.StopBegin? || e.DisposeBegin? || e.Release? ==> !UnderWay(w, e.id)
  }

  ghost predicate LeadsAlone(cfg: Config, w: World, run: seq<Event>, v: World)
    decreases |run|
  {
    if run == [] then v == w
    else Enabled(cfg, w, run[0]) && Alone(w, run[0]) && LeadsAlone(cfg, Next(cfg, w, run[0]), run[1..], v)
  }

  // ----- The diagram

  /** What each event does to the state of its runtime, and whether a server is recorded; None is no entry. */
  predicate Moves(e: Event, before: Option<Entry>, after: Option<Entry>) {
    match e
    case CreateEnd(_) => before.None? && IsIn(after, Created, false)
    case LaunchStart(_) => IsIn(before, Created, false) && IsIn(after, Starting, false)
    case LaunchReady(_) => IsIn(before, Starting, false) && IsIn(after, Ready, true)
    case LaunchFails(_) => IsIn(before, Starting, false) && IsIn(after, Crashed, false)
    case StopBegin(_) => IsIn(before, Ready, true) && IsIn(after, Stopping, true)
    case StopEnd(_) => IsIn(before, Stopping, true) && IsIn(after, Stopped, false)
    case DisposeEnd(_) => IsIn(before, Ready, true) && IsIn(after, Stopped, false)
    case Release(_) => (IsIn(before, Stopped, false) || IsIn(before, Crashed, false)) && IsIn(after, Released, false)
    case SweepVisit(_, dir) =>
      || (IsIn(before, Released, false) && IsIn(after, Retention, false))
      || (IsIn(before, Retention, false) && after.None? && !dir.present)
      || (IsIn(before, Retention, false) && IsIn(after, Deleting, false) && dir == Directory(true, true, true))
      || after == before
    case Erased(_) => IsIn(before, Deleting, false) && after.None?
    case _ => after == before
  }

  predicate IsIn(entry: Option<Entry>, state: State, running: bool) {
    entry.Some? && entry.value.state == state && entry.value.running == running
  }

  // ----- What is under way tells the state

  function CallsOf(w: World, id: Id): nat {
    w.calls.checked[id] + w.calls.launching[id] + w.calls.stopping[id] + w.calls.disposing[id]
  }

  ghost predicate Shape(w: World, id: Id) {
    var entry := ValueAt(w.entries, id);
    && CallsOf(w, id) <= 1 && (id in w.calls.launched ==> id in w.used)
    && (id in w.calls.checked ==> IsIn(entry, Created, false))
    && (id in w.calls.launching ==> IsIn(entry, Starting, false))
    && (id in w.calls.stopping ==> IsIn(entry, Stopping, true))
    && (id in w.calls.disposing ==> IsIn(entry, Ready, true))
    && (id in w.gc.erasing ==> IsIn(entry, Deleting, false))
    && (entry.Some? ==> Settled(w, id, entry.value))
  }

  ghost predicate Settled(w: World, id: Id, entry: Entry) {
    && id in w.used
    && (entry.running <==> entry.state.Ready? || entry.state.Stopping?)
    && (entry.state.Starting? ==> id in w.calls.launching)
    && (entry.state.Stopping? ==> id in w.calls.stopping)
    && (entry.state.Created? ==> id !in w.calls.launched)
  }

  lemma HandlerMoves(cfg: Config, w: World, e: Event)
    requires IsHandler(e) && Enabled(cfg, w, e) && Alone(w, e) && Shape(w, e.id)
    ensures Moves(e, ValueAt(w.entries, e.id), ValueAt(Handle(w, e).entries, e.id))
  {
  }

  lemma CollectorMoves(cfg: Config, w: World, e: Event, id: Id)
    requires IsCollector(e) && Concerns(e, id) && Enabled(cfg, w, e) && Shape(w, id)
    ensures Moves(e, ValueAt(w.entries, id), ValueAt(Collect(cfg, w, e).entries, id))
  {
  }

  lemma HandlerKeepsShape(cfg: Config, w: World, e: Event)
    requires IsHandler(e) && Enabled(cfg, w, e) && Alone(w, e) && Shape(w, e.id)
    ensures Shape(Handle(w, e), e.id)
  {
  }

  lemma CollectorKeepsShape(cfg: Config, w: World, e: Event, id: Id)
    requires IsCollector(e) && Concerns(e, id) && Enabled(cfg, w, e) && Shape(w, id)
    ensures Shape(Collect(cfg, w, e), id)
  {
  }

  lemma NextKeepsShape(cfg: Config, w: World, e: Event, id: Id)
    requires Enabled(cfg, w, e) && Alone(w, e) && Shape(w, id)
    ensures Shape(Next(cfg, w, e), id)
    ensures if Concerns(e, id) then Moves(e, ValueAt(w.entries, id), ValueAt(Next(cfg, w, e).entries, id))
            else ValueAt(Next(cfg, w, e).entries, id) == ValueAt(w.entries, id)
  {
    if !Concerns(e, id) {
      OthersAreTheSame(cfg, w, e, id);
      assert About(Next(cfg, w, e), id) == About(w, id);
    } else if IsHandler(e) {
      HandlerMoves(cfg, w, e);
      HandlerKeepsShape(cfg, w, e);
    } else if IsCollector(e) {
      CollectorMoves(cfg, w, e, id);
      CollectorKeepsShape(cfg, w, e, id);
    }
  }

  lemma {:induction false} AloneKeepsShape(cfg: Config, w: World, run: seq<Event>, v: World)
    requires LeadsAlone(cfg, w, run, v) && forall id :: Shape(w, id)
    ensures forall id :: Shape(v, id)
    decreases |run|
  {
    if run != [] {
      forall id ensures Shape(Next(cfg, w, run[0]), id) {
        NextKeepsShape(cfg, w, run[0], id);
      }
      AloneKeepsShape(cfg, Next(cfg, w, run[0]), run[1..], v);
    }
  }

  /**
   * In a run in which the calls for a runtime do not overlap, each step takes its runtime along the diagram,
   * with the steps of a deletion in one, and touches no other. Two moves are not in the diagram: a disposal
   * goes from READY to STOPPED at once, and an entry whose directory is gone is dropped.
   */
  lemma StepsFollowTheDiagram(cfg: Config, run: seq<Event>, w: World, e: Event, id: Id)
    requires LeadsAlone(cfg, Start, run, w) && Enabled(cfg, w, e) && Alone(w, e)
    ensures if Concerns(e, id) then Moves(e, ValueAt(w.entries, id), ValueAt(Next(cfg, w, e).entries, id))
            else ValueAt(Next(cfg, w, e).entries, id) == ValueAt(w.entries, id)
  {
    AloneKeepsShape(cfg, Start, run, w);
    NextKeepsShape(cfg, w, e, id);
  }

  lemma {:induction false} LeadsAloneIsOrderly(cfg: Config, w: World, run: seq<Event>, v: World)
    requires LeadsAlone(cfg, w, run, v) && forall id :: Shape(w, id)
    ensures Leads(cfg, OrderlyRelease, w, run, v)
    decreases |run|
  {
    if run != [] {
      forall id ensures Shape(Next(cfg, w, run[0]), id) {
        NextKeepsShape(cfg, w, run[0], id);
      }
      if run[0].Release? {
        assert Shape(w, run[0].id);
      }
      LeadsAloneIsOrderly(cfg, Next(cfg, w, run[0]), run[1..], v);
    }
  }

  /** Such runs release only what nothing is under way for, so the quota holds in them. */
  lemma AloneIsOrderly(cfg: Config, run: seq<Event>, w: World)
    requires LeadsAlone(cfg, Start, run, w)
    ensures Leads(cfg, OrderlyRelease, Start, run, w)
  {
    LeadsAloneIsOrderly(cfg, Start, run, w);
  }
}
