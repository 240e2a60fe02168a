/**
 * Event subscriptions (apps/run-supervisor/src/event-subscription.ts): a polling cursor with a
 * filter and a capped buffer over the bridge's append-only event log, and the pager on that buffer.
 */
module EventSubscription {
  import opened Wrappers

  datatype Event = Event(sequence: int, kind: string, actor: Option<string>, data: string)

  /** An empty list of kinds, and an actor that is absent or empty, restrict nothing. */
  datatype Filter = Filter(types: seq<string>, excludeTypes: seq<string>, actor: Option<string>)

  const FETCH_LIMIT: nat := 100

  predicate Matches(e: Event, f: Filter) {
    && (f.types == [] || e.kind in f.types)
    && (f.excludeTypes == [] || e.kind !in f.excludeTypes)
    && (f.actor.None? || f.actor.value == "" || e.actor == f.actor)
  }

  type Accept = Event -> bool

  /** No filter accepts everything. */
  function Acceptance(filter: Option<Filter>): Accept {
    (e: Event) => filter.None? || Matches(e, filter.value)
  }

  datatype Sub = Sub(accept: Accept, maxEvents: int, events: seq<Event>, lastCursor: int, eventsReceived: nat)

  function Fresh(filter: Option<Filter>, maxEvents: int): Sub {
    Sub(Acceptance(filter), maxEvents, [], 0, 0)
  }

  // ----- Taking in what a poll fetched

  function Take(s: Sub, e: Event): Sub {
    if !s.accept(e) then s
    else s.(events := if |s.events| < s.maxEvents then s.events + [e] else s.events,
            lastCursor := e.sequence, eventsReceived := s.eventsReceived + 1)
  }

  function TakeAll(s: Sub, batch: seq<Event>): Sub {
    if batch == [] then s else Take(TakeAll(s, batch[..|batch| - 1]), batch[|batch| - 1])
  }

  /** Raw events that cannot be parsed are skipped. */
  function Parsed(raws: seq<Option<Event>>): seq<Event> {
    if raws == [] then []
    else
      var before, raw := Parsed(raws[..|raws| - 1]), raws[|raws| - 1];
      if raw.Some? then before + [raw.value] else before
  }

  lemma TakeOneMore(s: Sub, raws: seq<Option<Event>>, i: nat)
    requires i < |raws|
    ensures var before := TakeAll(s, Parsed(raws[..i]));
            TakeAll(s, Parsed(raws[..i + 1])) == if raws[i].Some? then Take(before, raws[i].value) else before
  {
    assert raws[..i + 1][..i] == raws[..i];
    if raws[i].Some? {
      assert (Parsed(raws[..i]) + [raws[i].value])[..|Parsed(raws[..i])|] == Parsed(raws[..i]);
    }
  }

  class Subscription {
    const accept: Accept
    const maxEvents: int
    const expiresAtMs: int
    var events: seq<Event>
    var lastCursor: int
    var eventsReceived: nat
    var polling: bool

    constructor (filter: Option<Filter>, maxEvents: int, expiresAtMs: int)
      ensures Now() == Fresh(filter, maxEvents) && polling && this.expiresAtMs == expiresAtMs
    {
      this.accept, this.maxEvents, this.expiresAtMs := Acceptance(filter), maxEvents, expiresAtMs;
      events, lastCursor, eventsReceived, polling := [], 0, 0, true;
    }

    ghost function Now(): Sub
      reads this
    {
      Sub(accept, maxEvents, events, lastCursor, eventsReceived)
    }

    /** One poll; `fetched` is absent when the fetch fails. */
    method Poll(nowMs: int, fetched: Option<seq<Option<Event>>>)
      modifies this
      ensures nowMs > expiresAtMs ==> Now() == old(Now()) && !polling
      ensures nowMs <= expiresAtMs ==> polling == old(polling)
      ensures nowMs <= expiresAtMs ==>
                Now() == if fetched.Some? then TakeAll(old(Now()), Parsed(fetched.value)) else old(Now())
    {
      if nowMs > expiresAtMs {
        polling := false;
        return;
      }
      if fetched.None? {
        return;
      }
      TakeRaws(fetched.value);
    }

    /** The loop over what was fetched. */
    method TakeRaws(raws: seq<Option<Event>>)
      modifies this`events, this`lastCursor, this`eventsReceived
      ensures Now() == TakeAll(old(Now()), Parsed(raws))
    {
      for i := 0 to |raws|
        invariant Now() == TakeAll(old(Now()), Parsed(raws[..i]))
      {
        TakeOneMore(old(Now()), raws, i);
        if raws[i].Some? {
          TakeEvent(raws[i].value);
        }
      }
      assert raws[..|raws|] == raws;
    }

    /** The body of that loop for one event. */
    method TakeEvent(event: Event)
      modifies this`events, this`lastCursor, this`eventsReceived
      ensures Now() == Take(old(Now()), event)
    {
      if !accept(event) {
        return;
      }
      if |events| < maxEvents {
        events := events + [event];
      }
      lastCursor := event.sequence;
      eventsReceived := eventsReceived + 1;
    }

    /** A page of the buffer. */
    method ListEvents(after: Option<int>, limit: Option<int>) returns (page: Page)
      ensures var from := if after.Some? then after.value else 0;
              && (limit.None? ==> page == PageOf(events, from, 100))
              && (limit.Some? && limit.value <= 1000 ==> page == PageOf(events, from, limit.value))
              && (limit.Some? && limit.value > 1000 ==> page == PageOf(events, from, 1000))
      ensures |page.events| <= 1000 || (limit.Some? && limit.value < 0)
    {
      var from := if after.Some? then after.value else 0;
      var n := EffectiveLimit(limit);
      var filtered := Newer(events, from);
      var shown := Slice(filtered, n);
      var hasMore := |filtered| > n;
      page := Page(shown, hasMore, if hasMore && shown != [] then Some(shown[|shown| - 1].sequence) else None);
    }
  }

  // ----- The log behind the bridge

  ghost predicate Increasing(log: seq<Event>) {
    forall i, j :: 0 <= i < j < |log| ==> log[i].sequence < log[j].sequence
  }

  /** Sequence numbers are positive and strictly increase. */
  ghost predicate IsLog(log: seq<Event>) {
    Increasing(log) && forall i :: 0 <= i < |log| ==> log[i].sequence > 0
  }

  /** How many events of the log are at or before the cursor. */
  function Position(log: seq<Event>, cursor: int): (k: nat)
    ensures k <= |log|
  {
    if log == [] || log[|log| - 1].sequence <= cursor then |log| else Position(log[..|log| - 1], cursor)
  }

  function WindowEnd(log: seq<Event>, k: nat): nat {
    if k + FETCH_LIMIT < |log| then k + FETCH_LIMIT else |log|
  }

  /** What the bridge returns for a cursor: the next events, at most a hundred. */
  function Fetch(log: seq<Event>, cursor: int): seq<Event> {
    var k := Position(log, cursor);
    log[k..WindowEnd(log, k)]
  }

  function PollLog(log: seq<Event>, s: Sub): Sub {
    TakeAll(s, Fetch(log, s.lastCursor))
  }

  function Accepted(accept: Accept, es: seq<Event>): seq<Event> {
    if es == [] then []
    else
      var before, e := Accepted(accept, es[..|es| - 1]), es[|es| - 1];
      if accept(e) then before + [e] else before
  }

  function Cap(es: seq<Event>, n: int): seq<Event> {
    if n <= 0 then [] else if |es| <= n then es else es[..n]
  }

  /** The number of events up to and including the last accepted one; 0 if there is none. */
  function LastAccepted(accept: Accept, es: seq<Event>): (n: nat)
    ensures n <= |es|
  {
    if es == [] then 0 else if accept(es[|es| - 1]) then |es| else LastAccepted(accept, es[..|es| - 1])
  }

  lemma {:induction false} LastAcceptedMeans(accept: Accept, es: seq<Event>)
    ensures var n := LastAccepted(accept, es);
            && (n > 0 ==> accept(es[n - 1]))
            && (forall i :: n <= i < |es| ==> !accept(es[i]))
            && Accepted(accept, es[..n]) == Accepted(accept, es)
            && (n == 0 <==> Accepted(accept, es) == [])
  {
    if es == [] {
    } else if accept(es[|es| - 1]) {
      assert es[..|es|] == es;
    } else {
      var before := es[..|es| - 1];
      LastAcceptedMeans(accept, before);
      var n := LastAccepted(accept, before);
      assert es[..n] == before[..n];
      assert forall i :: 0 <= i < |before| ==> es[i] == before[i];
    }
  }

  lemma {:induction false} AcceptedConcat(accept: Accept, a: seq<Event>, b: seq<Event>)
    ensures Accepted(accept, a + b) == Accepted(accept, a) + Accepted(accept, b)
  {
    if b == [] {
      assert a + b == a;
    } else {
      assert (a + b)[..|a + b| - 1] == a + b[..|b| - 1];
      AcceptedConcat(accept, a, b[..|b| - 1]);
    }
  }

  /** A subscription that has taken in exactly the accepted events among those in `seen`. */
  ghost predicate HasTaken(s: Sub, seen: seq<Event>) {
    var taken := Accepted(s.accept, seen);
    && s.events == Cap(taken, s.maxEvents)
    && s.eventsReceived == |taken|
  }

  lemma {:induction false} TakeAllTakes(s: Sub, seen: seq<Event>, batch: seq<Event>)
    requires HasTaken(s, seen)
    ensures var t := TakeAll(s, batch);
            && t.accept == s.accept && t.maxEvents == s.maxEvents && HasTaken(t, seen + batch)
            && t.lastCursor == var n := LastAccepted(s.accept, batch); if n == 0 then s.lastCursor else batch[n - 1].sequence
  {
    if batch == [] {
      assert seen + batch == seen;
    } else {
      var before := batch[..|batch| - 1];
      TakeAllTakes(s, seen, before);
      assert seen + batch == (seen + before) + [batch[|batch| - 1]];
      assert (seen + batch)[..|seen + batch| - 1] == seen + before;
    }
  }

  /** The events that the cursor has passed. */
  function Passed(log: seq<Event>, s: Sub): seq<Event> {
    log[..Position(log, s.lastCursor)]
  }

  /**
   * What holds between polls: the buffer is the first `maxEvents` accepted events up to the cursor,
   * all of them are counted, and the cursor stands at the last of them.
   */
  ghost predicate Consistent(log: seq<Event>, s: Sub) {
    var passed := Passed(log, s);
    && HasTaken(s, passed)
    && LastAccepted(s.accept, passed) == |passed|
    && s.lastCursor == if passed == [] then 0 else passed[|passed| - 1].sequence
  }

  lemma {:induction false} PositionMeans(log: seq<Event>, cursor: int, k: nat)
    requires IsLog(log) && k <= |log|
    requires k > 0 ==> log[k - 1].sequence <= cursor
    requires k < |log| ==> cursor < log[k].sequence
    ensures Position(log, cursor) == k
  {
    if k < |log| {
      assert log[|log| - 1].sequence >= log[k].sequence;
      PositionMeans(log[..|log| - 1], cursor, k);
    }
  }

  /** How far a poll moves the cursor. */
  function Advance(log: seq<Event>, s: Sub): nat {
    LastAccepted(s.accept, Fetch(log, s.lastCursor))
  }

  /** What comes after the last accepted event might as well not be there. */
  lemma TakenUpToLast(s: Sub, seen: seq<Event>, batch: seq<Event>)
    ensures HasTaken(s, seen + batch) <==> HasTaken(s, seen + batch[..LastAccepted(s.accept, batch)])
  {
    var n := LastAccepted(s.accept, batch);
    LastAcceptedMeans(s.accept, batch);
    AcceptedConcat(s.accept, seen, batch);
    AcceptedConcat(s.accept, seen, batch[..n]);
  }

  lemma PollWithoutAccepted(log: seq<Event>, s: Sub)
    requires Consistent(log, s) && Advance(log, s) == 0
    ensures PollLog(log, s) == s
  {
    var k, window := Position(log, s.lastCursor), Fetch(log, s.lastCursor);
    TakeAllTakes(s, log[..k], window);
    TakenUpToLast(PollLog(log, s), log[..k], window);
    assert log[..k] + window[..0] == log[..k];
  }

  lemma SeenAfter(log: seq<Event>, k: nat, window: seq<Event>, n: nat)
    requires k + |window| <= |log| && window == log[k..k + |window|] && 0 < n <= |window|
    ensures log[..k + n] == log[..k] + window[..n]
    ensures window[n - 1] == log[k + n - 1] == log[..k + n][k + n - 1]
  {
  }

  lemma {:induction false} PollWithAccepted(log: seq<Event>, s: Sub)
    requires IsLog(log) && Consistent(log, s) && Advance(log, s) > 0
    ensures var t := PollLog(log, s);
            && t.accept == s.accept && t.maxEvents == s.maxEvents
            && Consistent(log, t) && Position(log, t.lastCursor) == Position(log, s.lastCursor) + Advance(log, s)
  {
    var k, window, n := Position(log, s.lastCursor), Fetch(log, s.lastCursor), Advance(log, s);
    var t := PollLog(log, s);
    TakeAllTakes(s, log[..k], window);
    TakenUpToLast(t, log[..k], window);
    SeenAfter(log, k, window, n);
    PositionMeans(log, t.lastCursor, k + n);
    LastIsAccepted(s.accept, log[..k], window, n);
  }

  lemma LastIsAccepted(accept: Accept, seen: seq<Event>, window: seq<Event>, n: nat)
    requires n == LastAccepted(accept, window) && n > 0
    ensures LastAccepted(accept, seen + window[..n]) == |seen| + n
  {
    LastAcceptedMeans(accept, window);
    var all := seen + window[..n];
    assert all[|all| - 1] == window[n - 1];
  }

  /** One poll of a consistent subscription: where the cursor goes, and that it stays consistent. */
  lemma PollAdvances(log: seq<Event>, s: Sub)
    requires IsLog(log) && Consistent(log, s)
    ensures var t := PollLog(log, s);
            && t.accept == s.accept && t.maxEvents == s.maxEvents && Consistent(log, t)
            && Position(log, t.lastCursor) == Position(log, s.lastCursor) + Advance(log, s)
            && (Advance(log, s) == 0 ==> t == s)
  {
    if Advance(log, s) == 0 {
      PollWithoutAccepted(log, s);
    } else {
      PollWithAccepted(log, s);
    }
  }

  /** Growth of the log behind the cursor changes nothing. */
  lemma GrowthKeepsConsistent(log: seq<Event>, more: seq<Event>, s: Sub)
    requires IsLog(log + more) && IsLog(log) && Consistent(log, s)
    ensures Position(log + more, s.lastCursor) == Position(log, s.lastCursor) && Consistent(log + more, s)
  {
    var k := Position(log, s.lastCursor);
    PositionAt(log, s);
    assert forall i :: 0 <= i < |log| ==> (log + more)[i] == log[i];
    PositionMeans(log + more, s.lastCursor, k);
    assert (log + more)[..k] == log[..k];
  }

  lemma PositionAt(log: seq<Event>, s: Sub)
    requires IsLog(log) && Consistent(log, s)
    ensures var k := Position(log, s.lastCursor);
            && (k > 0 ==> log[k - 1].sequence == s.lastCursor) && (k == 0 ==> s.lastCursor == 0)
  {
  }

  // ----- Runs

  datatype Step = Append(e: Event) | PollSucceeds | PollDoesNothing

  datatype World = World(log: seq<Event>, sub: Sub)

  function Do(w: World, step: Step): World {
    match step
    case Append(e) => w.(log := w.log + [e])
    case PollSucceeds => w.(sub := PollLog(w.log, w.sub))
    case PollDoesNothing => w
  }

  function Run(w: World, steps: seq<Step>): World {
    if steps == [] then w else Do(Run(w, steps[..|steps| - 1]), steps[|steps| - 1])
  }

  /** Safety: whatever is appended and polled, the subscription is consistent with the log. */
  lemma {:induction false} RunIsConsistent(filter: Option<Filter>, maxEvents: int, steps: seq<Step>)
    requires IsLog(Run(World([], Fresh(filter, maxEvents)), steps).log)
    ensures var w := Run(World([], Fresh(filter, maxEvents)), steps);
            Consistent(w.log, w.sub) && w.sub.accept == Acceptance(filter) && w.sub.maxEvents == maxEvents
  {
    if steps != [] {
      var w := Run(World([], Fresh(filter, maxEvents)), steps[..|steps| - 1]);
      var log := Run(World([], Fresh(filter, maxEvents)), steps).log;
      assert w.log == log[..|w.log|];
      assert IsLog(w.log);
      RunIsConsistent(filter, maxEvents, steps[..|steps| - 1]);
      match steps[|steps| - 1]
      case Append(e) => GrowthKeepsConsistent(w.log, [e], w.sub);
      case PollSucceeds => PollAdvances(w.log, w.sub);
      case PollDoesNothing =>
    }
  }

  /** What a filter lets through: a listed kind, no excluded kind, and the actor, each if there is one to look at. */
  predicate Wanted(e: Event, filter: Option<Filter>) {
    filter.Some? ==>
      && (|filter.value.types| > 0 ==> exists i :: 0 <= i < |filter.value.types| && filter.value.types[i] == e.kind)
      && (forall i :: 0 <= i < |filter.value.excludeTypes| ==> filter.value.excludeTypes[i] != e.kind)
      && (filter.value.actor.Some? && |filter.value.actor.value| > 0 ==> e.actor == filter.value.actor)
  }

  lemma AcceptsTheWanted(filter: Option<Filter>, e: Event)
    ensures Acceptance(filter)(e) <==> Wanted(e, filter)
  {
  }

  lemma {:induction false} AcceptedMembers(accept: Accept, es: seq<Event>, e: Event)
    ensures e in Accepted(accept, es) <==> e in es && accept(e)
  {
    if es != [] {
      var before, last := es[..|es| - 1], es[|es| - 1];
      AcceptedMembers(accept, before, e);
      assert es == before + [last];
    }
  }

  /**
   * In every run what is buffered is in the log, at or before the cursor, and wanted; and as long as the
   * buffer has room, everything there that is wanted is buffered.
   */
  lemma BufferHasTheWanted(filter: Option<Filter>, maxEvents: int, steps: seq<Step>, e: Event)
    requires IsLog(Run(World([], Fresh(filter, maxEvents)), steps).log)
    ensures var w := Run(World([], Fresh(filter, maxEvents)), steps);
            && (e in w.sub.events ==> e in w.log && e.sequence <= w.sub.lastCursor && Wanted(e, filter))
            && (e in w.log && e.sequence <= w.sub.lastCursor && Wanted(e, filter) && w.sub.eventsReceived <= maxEvents ==>
                  e in w.sub.events)
  {
    var w := Run(World([], Fresh(filter, maxEvents)), steps);
    var passed := Passed(w.log, w.sub);
    RunIsConsistent(filter, maxEvents, steps);
    AcceptsTheWanted(filter, e);
    AcceptedMembers(w.sub.accept, passed, e);
    PassedMembers(w.log, w.sub.lastCursor, e);
    var taken := Accepted(w.sub.accept, passed);
    assert w.sub.events == Cap(taken, maxEvents);
    assert e in Cap(taken, maxEvents) ==> e in taken;
  }

  lemma {:induction false} PassedMembers(log: seq<Event>, cursor: int, e: Event)
    requires Increasing(log)
    ensures e in log[..Position(log, cursor)] <==> e in log && e.sequence <= cursor
  {
    if log != [] {
      var before, last := log[..|log| - 1], log[|log| - 1];
      assert log == before + [last];
      if last.sequence > cursor {
        PassedMembers(before, cursor, e);
        assert log[..Position(log, cursor)] == before[..Position(before, cursor)];
      } else {
        assert log[..Position(log, cursor)] == log;
        if e in log {
          var i :| 0 <= i < |log| && log[i] == e;
        }
      }
    }
  }

  /** The buffered events are in order and without duplicates. */
  lemma {:induction false} AcceptedIncreasing(accept: Accept, es: seq<Event>)
    requires Increasing(es)
    ensures Increasing(Accepted(accept, es))
    ensures forall e :: e in Accepted(accept, es) ==> e in es
  {
    if es != [] {
      var before, last := es[..|es| - 1], es[|es| - 1];
      AcceptedIncreasing(accept, before);
      forall e | e in Accepted(accept, before) ensures e.sequence < last.sequence {
        var i :| 0 <= i < |before| && before[i] == e;
        assert es[i] == e;
      }
    }
  }

  lemma BufferIncreasing(log: seq<Event>, s: Sub)
    requires IsLog(log) && Consistent(log, s)
    ensures Increasing(s.events)
  {
    AcceptedIncreasing(s.accept, Passed(log, s));
  }

  // ----- Progress

  ghost predicate NoneAccepted(accept: Accept, es: seq<Event>) {
    forall i :: 0 <= i < |es| ==> !accept(es[i])
  }

  lemma NoneAcceptedMeans(accept: Accept, es: seq<Event>)
    ensures NoneAccepted(accept, es) <==> LastAccepted(accept, es) == 0
    ensures NoneAccepted(accept, es) <==> Accepted(accept, es) == []
  {
    LastAcceptedMeans(accept, es);
  }

  /** A poll moves the cursor exactly when one of the next hundred events is accepted. */
  lemma PollMovesExactlyWhen(log: seq<Event>, s: Sub)
    requires IsLog(log) && Consistent(log, s)
    ensures PollLog(log, s).lastCursor == s.lastCursor <==> NoneAccepted(s.accept, Fetch(log, s.lastCursor))
    ensures PollLog(log, s).lastCursor == s.lastCursor <==> PollLog(log, s) == s
  {
    NoneAcceptedMeans(s.accept, Fetch(log, s.lastCursor));
    PollAdvances(log, s);
  }

  /** A full window without an accepted event. */
  ghost predicate Stalled(log: seq<Event>, s: Sub) {
    |Fetch(log, s.lastCursor)| == 100 && NoneAccepted(s.accept, Fetch(log, s.lastCursor))
  }

  /** A subscription that has stalled stays so: no poll moves it, whatever is appended to the log. */
  lemma StalledForGood(log: seq<Event>, more: seq<Event>, s: Sub)
    requires IsLog(log + more) && IsLog(log) && Consistent(log, s) && Stalled(log, s)
    ensures Stalled(log + more, s) && PollLog(log + more, s) == s
  {
    GrowthKeepsConsistent(log, more, s);
    var k := Position(log, s.lastCursor);
    assert (log + more)[k..k + FETCH_LIMIT] == log[k..k + FETCH_LIMIT];
    PollMovesExactlyWhen(log + more, s);
  }

  function PollTimes(log: seq<Event>, s: Sub, n: nat): Sub
    decreases n
  {
    if n == 0 then s else PollTimes(log, PollLog(log, s), n - 1)
  }

  ghost predicate Delivered(log: seq<Event>, s: Sub) {
    s.eventsReceived == |Accepted(s.accept, log)|
  }

  /** From position `k` on, a hundred events in a row are not accepted, and a later one is. */
  ghost predicate LongGap(accept: Accept, log: seq<Event>, k: nat) {
    exists i, j :: GapAt(accept, log, k, i, j)
  }

  ghost predicate GapAt(accept: Accept, log: seq<Event>, k: nat, i: nat, j: nat) {
    k <= i && i + 100 <= j < |log| && accept(log[j]) && NoneAccepted(accept, log[i..i + 100])
  }

  /** How many accepted events are still to come. */
  ghost function Remaining(log: seq<Event>, s: Sub): nat {
    |Accepted(s.accept, log[Position(log, s.lastCursor)..])|
  }

  lemma DeliveredMeans(log: seq<Event>, s: Sub)
    requires IsLog(log) && Consistent(log, s)
    ensures Delivered(log, s) <==> Remaining(log, s) == 0
  {
    var k := Position(log, s.lastCursor);
    assert log == log[..k] + log[k..];
    AcceptedConcat(s.accept, log[..k], log[k..]);
  }

  /** If there is more to come and no long gap, it begins within the next window. */
  lemma NextIsInWindow(log: seq<Event>, s: Sub)
    requires Remaining(log, s) > 0 && !LongGap(s.accept, log, Position(log, s.lastCursor))
    ensures Advance(log, s) > 0
  {
    var k, window := Position(log, s.lastCursor), Fetch(log, s.lastCursor);
    var rest := log[k..];
    var m := LastAccepted(s.accept, rest);
    LastAcceptedMeans(s.accept, rest);
    assert s.accept(log[k + m - 1]);
    NoneAcceptedMeans(s.accept, window);
    if k + FETCH_LIMIT <= k + m - 1 {
      assert window == log[k..k + FETCH_LIMIT];
      assert !GapAt(s.accept, log, k, k, k + m - 1);
    } else {
      assert window[m - 1] == log[k + m - 1];
    }
  }

  lemma GapsShrink(accept: Accept, log: seq<Event>, k: nat, k': nat)
    requires k <= k' && !LongGap(accept, log, k)
    ensures !LongGap(accept, log, k')
  {
    if LongGap(accept, log, k') {
      var i, j :| GapAt(accept, log, k', i, j);
      assert GapAt(accept, log, k, i, j);
    }
  }

  lemma {:induction false} PollTakesSome(log: seq<Event>, s: Sub)
    requires IsLog(log) && Consistent(log, s)
    requires Remaining(log, s) > 0 && !LongGap(s.accept, log, Position(log, s.lastCursor))
    ensures var t := PollLog(log, s);
            Remaining(log, t) < Remaining(log, s) && !LongGap(s.accept, log, Position(log, t.lastCursor))
  {
    var k, n := Position(log, s.lastCursor), Advance(log, s);
    NextIsInWindow(log, s);
    PollAdvances(log, s);
    GapsShrink(s.accept, log, k, k + n);
    FewerAfter(s.accept, log, k, n, Fetch(log, s.lastCursor));
  }

  lemma FewerAfter(accept: Accept, log: seq<Event>, k: nat, n: nat, window: seq<Event>)
    requires k + |window| <= |log| && window == log[k..k + |window|] && n == LastAccepted(accept, window) && n > 0
    ensures |Accepted(accept, log[k + n..])| < |Accepted(accept, log[k..])|
  {
    LastAcceptedMeans(accept, window);
    assert log[k..] == window[..n] + log[k + n..];
    AcceptedConcat(accept, window[..n], log[k + n..]);
  }

  lemma {:induction false} DeliveredStays(log: seq<Event>, s: Sub, n: nat)
    requires IsLog(log) && Consistent(log, s) && Delivered(log, s)
    ensures PollTimes(log, s, n) == s
  {
    if n > 0 {
      var k, window := Position(log, s.lastCursor), Fetch(log, s.lastCursor);
      DeliveredMeans(log, s);
      assert log[k..] == window + log[WindowEnd(log, k)..];
      AcceptedConcat(s.accept, window, log[WindowEnd(log, k)..]);
      LastAcceptedMeans(s.accept, window);
      PollAdvances(log, s);
      DeliveredStays(log, s, n - 1);
    }
  }

  /** Without a long gap, as many polls as there are accepted events left deliver all of them. */
  lemma {:induction false} PollsDeliver(log: seq<Event>, s: Sub, n: nat)
    requires IsLog(log) && Consistent(log, s) && !LongGap(s.accept, log, Position(log, s.lastCursor))
    requires n >= Remaining(log, s)
    ensures var t := PollTimes(log, s, n); t.accept == s.accept && Consistent(log, t) && Delivered(log, t)
    decreases n
  {
    DeliveredMeans(log, s);
    if Delivered(log, s) {
      DeliveredStays(log, s, n);
    } else {
      PollAdvances(log, s);
      PollTakesSome(log, s);
      PollsDeliver(log, PollLog(log, s), n - 1);
    }
  }

  /** A poll does not get past a long gap. */
  lemma PollStopsAtGap(log: seq<Event>, s: Sub, i: nat, j: nat)
    requires GapAt(s.accept, log, Position(log, s.lastCursor), i, j)
    ensures Position(log, s.lastCursor) + Advance(log, s) <= i
  {
    var k, n, window := Position(log, s.lastCursor), Advance(log, s), Fetch(log, s.lastCursor);
    LastAcceptedMeans(s.accept, window);
    if n > 0 {
      assert window[n - 1] == log[k + n - 1];
      NotInGap(s.accept, log, i, k + n - 1);
    }
  }

  lemma NotInGap(accept: Accept, log: seq<Event>, i: nat, p: nat)
    requires i + FETCH_LIMIT <= |log| && NoneAccepted(accept, log[i..i + FETCH_LIMIT]) && p < |log|
    ensures i <= p < i + FETCH_LIMIT ==> !accept(log[p])
  {
    if i <= p < i + FETCH_LIMIT {
      assert log[i..i + FETCH_LIMIT][p - i] == log[p];
    }
  }

  /** Beyond a long gap nothing is ever delivered. */
  lemma {:induction false} GapBlocks(log: seq<Event>, s: Sub, i: nat, j: nat, n: nat)
    requires IsLog(log) && Consistent(log, s) && GapAt(s.accept, log, Position(log, s.lastCursor), i, j)
    ensures !Delivered(log, PollTimes(log, s, n))
    decreases n
  {
    var k := Position(log, s.lastCursor);
    if n == 0 {
      DeliveredMeans(log, s);
      assert log[k..][j - k] == log[j];
      AcceptedHas(s.accept, log[k..], j - k);
    } else {
      PollAdvances(log, s);
      PollStopsAtGap(log, s, i, j);
      GapBlocks(log, PollLog(log, s), i, j, n - 1);
    }
  }

  lemma AcceptedHas(accept: Accept, es: seq<Event>, i: nat)
    requires i < |es| && accept(es[i])
    ensures Accepted(accept, es) != []
  {
    LastAcceptedMeans(accept, es);
  }

  /**
   * On a fixed log, some number of polls delivers every accepted event if and only if no hundred
   * events in a row after the cursor are all rejected before one that is accepted.
   */
  lemma DeliversExactlyWhen(log: seq<Event>, s: Sub)
    requires IsLog(log) && Consistent(log, s)
    ensures (exists n: nat :: Delivered(log, PollTimes(log, s, n)))
            <==> !LongGap(s.accept, log, Position(log, s.lastCursor))
    ensures !LongGap(s.accept, log, Position(log, s.lastCursor)) ==> Delivered(log, PollTimes(log, s, Remaining(log, s)))
  {
    var k := Position(log, s.lastCursor);
    if LongGap(s.accept, log, k) {
      var i, j :| GapAt(s.accept, log, k, i, j);
      forall n: nat ensures !Delivered(log, PollTimes(log, s, n)) {
        GapBlocks(log, s, i, j, n);
      }
    } else {
      PollsDeliver(log, s, Remaining(log, s));
    }
  }

  // ----- The pager

  datatype Page = Page(events: seq<Event>, hasMore: bool, nextCursor: Option<int>)

  function EffectiveLimit(limit: Option<int>): int {
    var n := if limit.Some? then limit.value else 100;
    if n < 1000 then n else 1000
  }

  function Newer(es: seq<Event>, after: int): seq<Event> {
    if es == [] then []
    else if es[0].sequence > after then [es[0]] + Newer(es[1..], after)
    else Newer(es[1..], after)
  }

  /** Array.prototype.slice(0, n): a negative bound counts from the end. */
  function Slice(es: seq<Event>, n: int): seq<Event> {
    if n >= 0 then (if n < |es| then es[..n] else es)
    else if |es| + n > 0 then es[..|es| + n] else []
  }

  function PageOf(es: seq<Event>, after: int, n: int): Page {
    var filtered := Newer(es, after);
    var shown := Slice(filtered, n);
    var hasMore := |filtered| > n;
    Page(shown, hasMore, if hasMore && shown != [] then Some(shown[|shown| - 1].sequence) else None)
  }

  lemma {:induction false} NewerIsSuffix(es: seq<Event>, after: int, k: nat)
    requires Increasing(es) && k <= |es|
    requires k > 0 ==> es[k - 1].sequence <= after
    requires k < |es| ==> es[k].sequence > after
    ensures Newer(es, after) == es[k..]
  {
    if es != [] {
      if k == 0 {
        if |es| > 1 {
          assert es[1].sequence > after;
        }
        NewerIsSuffix(es[1..], after, 0);
      } else {
        assert es[0].sequence <= es[k - 1].sequence;
        NewerIsSuffix(es[1..], after, k - 1);
      }
    }
  }

  /** A page has the first `n` of the newer events, tells whether there are more, and then where it ends. */
  lemma PageHasTheFirst(es: seq<Event>, after: int, n: nat)
    ensures var newer, page := Newer(es, after), PageOf(es, after, n);
            && (|newer| <= n ==> page == Page(newer, false, None))
            && (|newer| > n ==> page.hasMore && page.events == newer[..n])
            && (|newer| > n > 0 ==> page.nextCursor == Some(newer[n - 1].sequence))
            && (|newer| > n == 0 ==> page.nextCursor == None)
  {
  }

  lemma {:induction false} NewerMembers(es: seq<Event>, after: int, e: Event)
    ensures e in Newer(es, after) <==> e in es && e.sequence > after
  {
    if es != [] {
      assert es == [es[0]] + es[1..];
      NewerMembers(es[1..], after, e);
    }
  }

  /** The pages from a position on; every page but the last leads to the next. */
  ghost predicate PagesFrom(es: seq<Event>, after: int, n: int, pages: seq<Page>)
    decreases |pages|
  {
    && pages != []
    && pages[0] == PageOf(es, after, n)
    && (pages[0].hasMore ==> pages[0].nextCursor.Some? && PagesFrom(es, pages[0].nextCursor.value, n, pages[1..]))
    && (!pages[0].hasMore ==> |pages| == 1)
  }

  function Concatenated(pages: seq<Page>): seq<Event> {
    if pages == [] then [] else pages[0].events + Concatenated(pages[1..])
  }

  lemma PageAt(es: seq<Event>, after: int, n: int, k: nat)
    requires Increasing(es) && n >= 1 && k <= |es|
    requires k > 0 ==> es[k - 1].sequence <= after
    requires k < |es| ==> es[k].sequence > after
    ensures Newer(es, after) == es[k..]
    ensures var page := PageOf(es, after, n);
            && (page.hasMore <==> k + n < |es|)
            && (page.hasMore ==>
                  && page.events == es[k..k + n] && page.nextCursor.Some?
                  && es[k + n - 1].sequence <= page.nextCursor.value < es[k + n].sequence)
            && (!page.hasMore ==> page.events == es[k..])
  {
    NewerIsSuffix(es, after, k);
    if k + n < |es| {
      assert es[k..][..n] == es[k..k + n];
    }
  }

  /**
   * Following the cursor ends, and the pages together are all events after the start, in order and
   * each once; `k` is the position of the first of them.
   */
  lemma {:induction false} PagesAreComplete(es: seq<Event>, after: int, n: int, k: nat) returns (pages: seq<Page>)
    requires Increasing(es) && n >= 1 && k <= |es|
    requires k > 0 ==> es[k - 1].sequence <= after
    requires k < |es| ==> es[k].sequence > after
    ensures PagesFrom(es, after, n, pages) && Concatenated(pages) == es[k..]
    ensures |pages| <= |es| - k + 1
    decreases |es| - k
  {
    PageAt(es, after, n, k);
    var page := PageOf(es, after, n);
    if page.hasMore {
      var rest := PagesAreComplete(es, page.nextCursor.value, n, k + n);
      pages := [page] + rest;
      JoinPages(es, after, n, k, page, rest);
    } else {
      pages := [page];
      LastPage(es, after, n, page);
    }
  }

  lemma JoinPages(es: seq<Event>, after: int, n: int, k: nat, page: Page, rest: seq<Page>)
    requires n >= 1 && k + n <= |es| && page == PageOf(es, after, n) && page.hasMore && page.nextCursor.Some?
    requires page.events == es[k..k + n]
    requires PagesFrom(es, page.nextCursor.value, n, rest) && Concatenated(rest) == es[k + n..]
    ensures PagesFrom(es, after, n, [page] + rest) && Concatenated([page] + rest) == es[k..]
  {
    PagesCons(es, after, n, page, rest);
    SplitAt(es, k, k + n);
  }

  lemma SplitAt(es: seq<Event>, i: nat, j: nat)
    requires i <= j <= |es|
    ensures es[i..] == es[i..j] + es[j..]
  {
  }

  lemma LastPage(es: seq<Event>, after: int, n: int, page: Page)
    requires page == PageOf(es, after, n) && !page.hasMore
    ensures PagesFrom(es, after, n, [page]) && Concatenated([page]) == page.events
  {
    assert page.events + Concatenated([]) == page.events;
  }

  lemma PagesCons(es: seq<Event>, after: int, n: int, page: Page, rest: seq<Page>)
    requires page == PageOf(es, after, n) && page.hasMore && page.nextCursor.Some?
    requires PagesFrom(es, page.nextCursor.value, n, rest)
    ensures PagesFrom(es, after, n, [page] + rest) && Concatenated([page] + rest) == page.events + Concatenated(rest)
  {
    assert ([page] + rest)[1..] == rest;
  }

  /** The position of the first event after a cursor. */
  lemma FirstAfter(es: seq<Event>, after: int) returns (k: nat)
    requires Increasing(es)
    ensures k <= |es| && (k > 0 ==> es[k - 1].sequence <= after) && (k < |es| ==> es[k].sequence > after)
  {
    k := |es|;
    while k > 0 && es[k - 1].sequence > after
      invariant k <= |es| && (k < |es| ==> es[k].sequence > after)
    {
      k := k - 1;
    }
  }

  /** For any start and any limit of at least 1 there is one chain of pages, and it lists everything after the start. */
  lemma PagerIsComplete(es: seq<Event>, after: int, n: int) returns (pages: seq<Page>)
    requires Increasing(es) && n >= 1
    ensures PagesFrom(es, after, n, pages) && Concatenated(pages) == Newer(es, after)
    ensures forall other :: PagesFrom(es, after, n, other) ==> other == pages
  {
    var k := FirstAfter(es, after);
    PageAt(es, after, n, k);
    pages := PagesAreComplete(es, after, n, k);
    forall other | PagesFrom(es, after, n, other) ensures other == pages {
      PagesUnique(es, after, n, other, pages);
    }
  }

  /** The pages are determined by where they start. */
  lemma {:induction false} PagesUnique(es: seq<Event>, after: int, n: int, a: seq<Page>, b: seq<Page>)
    requires PagesFrom(es, after, n, a) && PagesFrom(es, after, n, b)
    ensures a == b
    decreases |a|
  {
    if a[0].hasMore {
      PagesUnique(es, a[0].nextCursor.value, n, a[1..], b[1..]);
    }
    assert a == [a[0]] + a[1..] && b == [b[0]] + b[1..];
  }

  /** With a limit below 1 following the cursor never comes to an end while there is anything to list. */
  lemma {:induction false} NoLimitNoEnd(es: seq<Event>, after: int, n: int, pages: seq<Page>)
    requires n < 1 && (Newer(es, after) != [] || n < 0)
    ensures !PagesFrom(es, after, n, pages)
    decreases |pages|
  {
    if pages != [] && pages[0] == PageOf(es, after, n) && pages[0].nextCursor.Some? {
      NoLimitNoEnd(es, pages[0].nextCursor.value, n, pages[1..]);
    }
  }
}
