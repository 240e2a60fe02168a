/**
 * The client's table of pending calls (apps/mcp-server/src/supervisor-client.ts). A settlement is one
 * use of a call's resolve or reject; the log of settlements records every use, in order.
 */
module IpcClient {
  import opened Wrappers

  type Id = string

  datatype Outcome = Resolved(result: string) | Rejected(code: string)

  datatype Settlement = Settlement(id: Id, outcome: Outcome)

  datatype Reply = Reply(id: Id, outcome: Outcome)

  /** `pending` is in the order in which the calls were registered; `timers` are the armed ones. */
  datatype Client = Client(pending: seq<Id>, timers: set<Id>, socket: Option<nat>, log: seq<Settlement>)

  const UNAVAILABLE := "SUPERVISOR_UNAVAILABLE"
  const TIMED_OUT := "SUPERVISOR_TIMEOUT"

  // ----- The operations on values

  function Without(s: seq<Id>, x: Id): seq<Id> {
    if s == [] then [] else if s[0] == x then s[1..] else [s[0]] + Without(s[1..], x)
  }

  function ToSet(s: seq<Id>): set<Id> {
    set x | x in s
  }

  function Register(c: Client, id: Id): Client {
    c.(pending := c.pending + [id], timers := c.timers + {id})
  }

  function Settle(c: Client, id: Id, outcome: Outcome): Client {
    c.(pending := Without(c.pending, id), timers := c.timers - {id}, log := c.log + [Settlement(id, outcome)])
  }

  /** A reply to a call that is no longer pending is dropped. */
  function Receive(c: Client, reply: Reply): Client {
    if reply.id in c.pending then Settle(c, reply.id, reply.outcome) else c
  }

  function Rejections(ids: seq<Id>, code: string): seq<Settlement> {
    if ids == [] then [] else Rejections(ids[..|ids| - 1], code) + [Settlement(ids[|ids| - 1], Rejected(code))]
  }

  function FailAll(c: Client, code: string): Client {
    c.(pending := [], timers := c.timers - ToSet(c.pending), log := c.log + Rejections(c.pending, code))
  }

  function CloseSocket(c: Client): Client {
    FailAll(c.(socket := None), UNAVAILABLE)
  }

  // ----- The program's object

  class SupervisorClient {
    var pending: seq<Id>
    var timers: set<Id>
    var socket: Option<nat>
    ghost var log: seq<Settlement>

    constructor ()
      ensures Now() == Client([], {}, None, [])
    {
      pending, timers, socket, log := [], {}, None, [];
    }

    ghost function Now(): Client
      reads this
    {
      Client(pending, timers, socket, log)
    }

    /** The `connect` event of a socket. */
    method OnConnect(s: nat)
      modifies this
      ensures Now() == old(Now()).(socket := Some(s))
    {
      socket := Some(s);
    }

    method Delete(id: Id)
      modifies this`pending
      ensures pending == Without(old(pending), id)
    {
      var kept := [];
      var rest := pending;
      while rest != [] && rest[0] != id
        invariant Without(pending, id) == kept + Without(rest, id)
        decreases |rest|
      {
        assert kept + ([rest[0]] + Without(rest[1..], id)) == kept + [rest[0]] + Without(rest[1..], id);
        kept, rest := kept + [rest[0]], rest[1..];
      }
      assert Without(rest, id) == if rest == [] then [] else rest[1..];
      pending := kept + if rest == [] then [] else rest[1..];
    }

    /**
     * The part of `call` after the socket is there: arms a timer, registers the call and writes the
     * frame; a frame that cannot be encoded undoes both and rejects the call.
     */
    method Call(id: Id, encodes: bool, code: string)
      requires id !in pending
      modifies this
      ensures Now() == if encodes then Register(old(Now()), id)
                       else Settle(Register(old(Now()), id), id, Rejected(code))
    {
      timers := timers + {id};
      pending := pending + [id];
      if !encodes {
        Delete(id);
        timers := timers - {id};
        log := log + [Settlement(id, Rejected(code))];
      }
    }

    /** The timer of a call fires. */
    method OnTimeout(id: Id)
      requires id in timers
      modifies this
      ensures Now() == Settle(old(Now()), id, Rejected(TIMED_OUT))
    {
      timers := timers - {id};
      Delete(id);
      log := log + [Settlement(id, Rejected(TIMED_OUT))];
    }

    /** A line from the supervisor; `reply` is absent when it is not JSON. */
    method OnResponse(reply: Option<Reply>)
      modifies this
      ensures Now() == if reply.Some? then Receive(old(Now()), reply.value) else old(Now())
    {
      if reply.None? || reply.value.id !in pending {
        return;
      }
      Delete(reply.value.id);
      timers := timers - {reply.value.id};
      log := log + [Settlement(reply.value.id, reply.value.outcome)];
    }

    method RejectAll(code: string)
      modifies this
      ensures Now() == FailAll(old(Now()), code)
    {
      var ids := pending;
      for i := 0 to |ids|
        invariant pending == ids && socket == old(socket)
        invariant timers == old(timers) - ToSet(ids[..i])
        invariant log == old(log) + Rejections(ids[..i], code)
      {
        assert ids[..i + 1][..i] == ids[..i];
        timers := timers - {ids[i]};
        log := log + [Settlement(ids[i], Rejected(code))];
      }
      assert ids[..|ids|] == ids;
      pending := [];
    }

    /** The `close` event of a socket, of whichever connection it was. */
    method OnClose()
      modifies this
      ensures Now() == CloseSocket(old(Now()))
    {
      socket := None;
      RejectAll(UNAVAILABLE);
    }

    method Close()
      modifies this
      ensures Now() == FailAll(old(Now()), UNAVAILABLE).(socket := None)
    {
      RejectAll(UNAVAILABLE);
      socket := None;
    }
  }

  // ----- Settling

  ghost predicate NoDuplicates(s: seq<Id>) {
    s == [] || (s[0] !in s[1..] && NoDuplicates(s[1..]))
  }

  lemma {:induction false} NoDuplicatesMeans(s: seq<Id>, i: nat, j: nat)
    requires NoDuplicates(s) && i < j < |s|
    ensures s[i] != s[j]
  {
    if i == 0 {
      assert s[j] == s[1..][j - 1];
    } else {
      NoDuplicatesMeans(s[1..], i - 1, j - 1);
    }
  }

  function Ids(log: seq<Settlement>): seq<Id> {
    seq(|log|, i requires 0 <= i < |log| => log[i].id)
  }

  /**
   * Of the calls ever registered, those that are not pending are settled, exactly once; a call is
   * pending exactly as long as its timer is armed.
   */
  ghost predicate Sound(c: Client, registered: set<Id>) {
    && NoDuplicates(c.pending + Ids(c.log))
    && ToSet(c.pending) == c.timers
    && ToSet(c.pending + Ids(c.log)) == registered
  }

  lemma {:induction false} WithoutKeeps(s: seq<Id>, x: Id)
    requires NoDuplicates(s) && x in s
    ensures x !in Without(s, x) && |Without(s, x)| == |s| - 1
    ensures forall y :: y in Without(s, x) <==> y in s && y != x
    ensures NoDuplicates(Without(s, x))
  {
    assert s == [s[0]] + s[1..];
    if s[0] != x {
      WithoutKeeps(s[1..], x);
      assert Without(s, x)[1..] == Without(s[1..], x);
    }
  }

  /** A sequence without duplicates, by parts. */
  lemma {:induction false} NoDuplicatesParts(a: seq<Id>, b: seq<Id>)
    ensures NoDuplicates(a + b) <==> NoDuplicates(a) && NoDuplicates(b) && forall x :: x in a ==> x !in b
  {
    if a == [] {
      assert a + b == b;
    } else {
      assert (a + b)[0] == a[0] && (a + b)[1..] == a[1..] + b;
      assert a == [a[0]] + a[1..];
      NoDuplicatesParts(a[1..], b);
    }
  }

  lemma RegisterSound(c: Client, registered: set<Id>, id: Id)
    requires Sound(c, registered) && id !in registered
    ensures Sound(Register(c, id), registered + {id})
  {
    NoDuplicatesParts(c.pending, Ids(c.log));
    assert id !in c.pending + Ids(c.log) by {
      assert ToSet(c.pending + Ids(c.log)) == registered;
    }
    NoDuplicatesParts(c.pending, [id]);
    NoDuplicatesParts(c.pending + [id], Ids(c.log));
    assert ToSet(c.pending + [id]) == ToSet(c.pending) + {id};
    forall x ensures x in c.pending + [id] + Ids(c.log) <==> x in registered || x == id {
      assert x in registered <==> x in c.pending + Ids(c.log);
    }
  }

  lemma SettleSound(c: Client, registered: set<Id>, id: Id, outcome: Outcome)
    requires Sound(c, registered) && id in c.pending
    ensures Sound(Settle(c, id, outcome), registered)
  {
    var d := Settle(c, id, outcome);
    NoDuplicatesParts(c.pending, Ids(c.log));
    WithoutKeeps(c.pending, id);
    assert Ids(d.log) == Ids(c.log) + [id];
    NoDuplicatesParts(Ids(c.log), [id]);
    NoDuplicatesParts(d.pending, Ids(d.log));
    assert ToSet(d.pending) == ToSet(c.pending) - {id};
    forall x ensures x in d.pending + Ids(d.log) <==> x in c.pending + Ids(c.log) {
    }
  }

  lemma {:induction false} RejectionIds(ids: seq<Id>, code: string)
    ensures Ids(Rejections(ids, code)) == ids
  {
    if ids != [] {
      RejectionIds(ids[..|ids| - 1], code);
    }
  }

  lemma FailAllSound(c: Client, registered: set<Id>, code: string)
    requires Sound(c, registered)
    ensures Sound(FailAll(c, code), registered) && FailAll(c, code).pending == []
  {
    var d := FailAll(c, code);
    RejectionIds(c.pending, code);
    assert Ids(d.log) == Ids(c.log) + c.pending;
    NoDuplicatesParts(c.pending, Ids(c.log));
    NoDuplicatesParts(Ids(c.log), c.pending);
    assert d.pending + Ids(d.log) == Ids(d.log);
    forall x ensures x in Ids(d.log) <==> x in c.pending + Ids(c.log) {
    }
  }
}
