/** What the supervisor does with one request line (apps/run-supervisor/src/ipc-server.ts). */
module IpcServer {
  import opened Wrappers
  import opened IpcClient

  /** UTF-16 code units. */
  type Token = seq<bv16>

  lemma NoDifference(diff: bv16, a: bv16, b: bv16)
    ensures diff | (a ^ b) == 0 <==> diff == 0 && a == b
  {
  }

  /** Goes through the whole token whatever it finds; the answer is equality. */
  method TokenMatches(presented: Token, expected: Token) returns (matches: bool)
    ensures matches <==> presented == expected
  {
    if |presented| != |expected| {
      return false;
    }
    var diff: bv16 := 0;
    for i := 0 to |expected|
      invariant diff == 0 <==> forall k :: 0 <= k < i ==> expected[k] == presented[k]
    {
      NoDifference(diff, expected[i], presented[i]);
      diff := diff | (expected[i] ^ presented[i]);
    }
    return diff == 0;
  }

  /**
   * A line as JSON.parse gives it, if it does. Of a value that is not an object, or of fields of the wrong
   * type, the fields count as absent; only `null` has no fields to look at.
   */
  datatype Line =
    | Garbage
    | Nothing
    | Parsed(version1: bool, id: Option<Id>, token: Option<Token>, operation: string, params: string)

  /** `Throws` is an exception that nobody handles: no reply is sent. */
  datatype Verdict = Refuse(reply: Reply) | Handle(id: Id, operation: string, params: string) | Throws

  const UNKNOWN_ID: Id := "unknown"

  /** The checks made before the handler is called, in order. */
  function Dispatch(line: Line, token: Token, operations: set<string>): Verdict {
    match line
    case Garbage => Refuse(Reply(UNKNOWN_ID, Rejected("TOOL_INPUT_INVALID")))
    case Nothing => Throws
    case Parsed(version1, optionalId, presented, operation, params) =>
      var id := if optionalId.Some? then optionalId.value else UNKNOWN_ID;
      if !version1 then Refuse(Reply(id, Rejected("IPC_VERSION_UNSUPPORTED")))
      else if presented != Some(token) then Refuse(Reply(id, Rejected("BRIDGE_UNAUTHORIZED")))
      else if operation !in operations then Refuse(Reply(id, Rejected("UNKNOWN_TOOL")))
      else Handle(id, operation, params)
  }

  /**
   * What becomes of each line: only `null` goes unanswered; what reaches the handler is the line's own
   * request; and the reply to any other carries its id, if it has one, and the code of what is wrong with it.
   */
  lemma LinesAreJudged(line: Line, token: Token, operations: set<string>)
    ensures var v := Dispatch(line, token, operations);
            && (v.Throws? <==> line.Nothing?)
            && (v.Handle? <==> line.Parsed? && line.version1 && line.token == Some(token) && line.operation in operations)
            && (v.Handle? ==> v.operation == line.operation && v.params == line.params)
            && (v.Handle? && line.id.Some? ==> v.id == line.id.value)
    ensures Dispatch(line, token, operations).Refuse? ==>
              var reply := Dispatch(line, token, operations).reply;
              && reply.id == (if line.Parsed? && line.id.Some? then line.id.value else "unknown")
              && (line.Garbage? ==> reply.outcome == Rejected("TOOL_INPUT_INVALID"))
              && (line.Parsed? && !line.version1 ==> reply.outcome == Rejected("IPC_VERSION_UNSUPPORTED"))
              && (line.Parsed? && line.version1 && line.token != Some(token) ==>
                    reply.outcome == Rejected("BRIDGE_UNAUTHORIZED"))
              && (line.Parsed? && line.version1 && line.token == Some(token) ==>
                    reply.outcome == Rejected("UNKNOWN_TOOL") && line.operation !in operations)
  {
  }
}

/**
 * Client, supervisor and the sockets between them as interleaved steps. Lines can be lost and can
 * overtake each other, which covers what sockets do; a socket's close can be noticed late.
 */
module IpcProtocol {
  import opened Wrappers
  import opened IpcClient
  import opened IpcServer

  datatype Config = Config(clientToken: Token, serverToken: Token, operations: set<string>)

  datatype Request = Request(operation: string, params: string)

  datatype Sent = Sent(socket: nat, id: Id, request: Request)

  datatype Packet = Packet(socket: nat, reply: Reply)

  /**
   * `requests` has every call's own request, `madeOn` the socket it was made on, `answers` every reply
   * ever sent, and `results` how the handler ended for each request that reached it. A socket in
   * `closing` is destroyed, but its close has not been noticed yet.
   */
  datatype World = World(
    client: Client, nextSocket: nat, live: set<nat>, closing: set<nat>,
    requests: map<Id, Request>, madeOn: map<Id, nat>, toServer: set<Sent>, inFlight: set<Sent>, toClient: set<Packet>,
    answers: seq<Settlement>, results: map<Id, Outcome>)

  datatype Event =
    | Connected
    | Called(id: Id, request: Request, socket: nat, encodes: bool)
    | Taken(sent: Sent)
    | Finished(sent: Sent, outcome: Outcome, fits: bool)
    | Arrived(packet: Packet)
    | BadFrame
    | TimedOut(id: Id)
    | SocketFailed(socket: nat)
    | Oversized(socket: nat)
    | Closed(socket: nat)
    | ClientClosed

  const Start := World(Client([], {}, None, []), 0, {}, {}, map[], map[], {}, {}, {}, [], map[])

  /** Calls have fresh ids; timers and sockets do only what they can do. */
  predicate Enabled(w: World, e: Event) {
    match e
    case Called(id, _, socket, _) => id !in w.requests && id != UNKNOWN_ID && socket < w.nextSocket
    case Taken(sent) => sent in w.toServer
    case Finished(sent, _, _) => sent in w.inFlight
    case Arrived(packet) => packet in w.toClient && packet.socket in w.live
    case TimedOut(id) => id in w.client.timers
    case Oversized(socket) => socket in w.live
    case SocketFailed(socket) => socket in w.live || socket in w.closing
    case Closed(socket) => socket in w.live || socket in w.closing
    case _ => true
  }

  function Send(w: World, socket: nat, reply: Reply): World {
    w.(toClient := w.toClient + {Packet(socket, reply)}, answers := w.answers + [Settlement(reply.id, reply.outcome)])
  }

  function LineOf(cfg: Config, sent: Sent): Line {
    Parsed(true, Some(sent.id), Some(cfg.clientToken), sent.request.operation, sent.request.params)
  }

  function Next(cfg: Config, w: World, e: Event): World
    requires Enabled(w, e)
  {
    match e
    case Connected =>
      w.(client := w.client.(socket := Some(w.nextSocket)), live := w.live + {w.nextSocket}, nextSocket := w.nextSocket + 1)
    case Called(id, request, socket, encodes) =>
      var v := w.(requests := w.requests[id := request], madeOn := w.madeOn[id := socket]);
      if !encodes then v.(client := Settle(Register(w.client, id), id, Rejected("FRAME_TOO_LARGE")))
      else
        v.(client := Register(w.client, id),
           toServer := if socket in w.live then w.toServer + {Sent(socket, id, request)} else w.toServer)
    case Taken(sent) =>
      var v := w.(toServer := w.toServer - {sent});
      (match Dispatch(LineOf(cfg, sent), cfg.serverToken, cfg.operations)
       case Refuse(reply) => Send(v, sent.socket, reply)
       case Handle(_, _, _) => v.(inFlight := w.inFlight + {sent})
       case Throws => v)
    case Finished(sent, outcome, fits) =>
      var v := w.(inFlight := w.inFlight - {sent}, results := w.results[sent.id := outcome]);
      if fits then Send(v, sent.socket, Reply(sent.id, outcome)) else v
    case Arrived(packet) => w.(client := Receive(w.client, packet.reply), toClient := w.toClient - {packet})
    case BadFrame => w
    case TimedOut(id) => w.(client := Settle(w.client, id, Rejected(TIMED_OUT)))
    case SocketFailed(socket) =>
      w.(client := FailAll(w.client, UNAVAILABLE), live := w.live - {socket}, closing := w.closing + {socket})
    case Oversized(socket) =>
      w.(client := FailAll(w.client, "FRAME_TOO_LARGE"), live := w.live - {socket}, closing := w.closing + {socket})
    case Closed(socket) =>
      w.(client := CloseSocket(w.client), live := w.live - {socket}, closing := w.closing - {socket})
    case ClientClosed =>
      var s := w.client.socket;
      w.(client := FailAll(w.client, UNAVAILABLE).(socket := None),
         live := if s.Some? then w.live - {s.value} else w.live,
         closing := if s.Some? && s.value in w.live then w.closing + {s.value} else w.closing)
  }

  /** Where a run leads, if each of its events is enabled when it happens. */
  function Run(cfg: Config, run: seq<Event>): Option<World> {
    if run == [] then Some(Start)
    else
      match Run(cfg, run[..|run| - 1])
      case Some(v) => if Enabled(v, run[|run| - 1]) then Some(Next(cfg, v, run[|run| - 1])) else None
      case None => None
  }

  ghost predicate Reaches(cfg: Config, run: seq<Event>, w: World) {
    Run(cfg, run) == Some(w)
  }

  // ----- What every step keeps

  /** What has been sent and is not answered yet. */
  function Open(w: World): set<Sent> {
    w.toServer + w.inFlight
  }

  ghost predicate OpenIsOwn(w: World) {
    && w.toServer !! w.inFlight
    && (forall x :: x in Open(w) ==> x.id in w.requests && w.requests[x.id] == x.request)
    && (forall x, y :: x in Open(w) && y in Open(w) && x.id == y.id ==> x == y)
  }

  ghost predicate AnsweredIsClosed(w: World) {
    && (forall x :: x in Open(w) ==> x.id !in Ids(w.answers) && x.id !in w.results)
    && (forall id :: id in Ids(w.answers) || id in w.results ==> id in w.requests)
    && NoDuplicates(Ids(w.answers))
  }

  /** The handler was called for this request. */
  predicate Handled(cfg: Config, request: Request) {
    cfg.clientToken == cfg.serverToken && request.operation in cfg.operations
  }

  ghost predicate ResultsAreHandlers(cfg: Config, w: World) {
    && (forall x :: x in w.inFlight ==> Handled(cfg, x.request))
    && (forall id :: id in w.results ==> id in w.requests && Handled(cfg, w.requests[id]))
  }

  /** An answer is the handler's outcome for that id, or a refusal before the handler. */
  ghost predicate AnswersAreResults(cfg: Config, w: World) {
    forall a :: a in w.answers ==> AnswerIsResult(cfg, w, a)
  }

  ghost predicate AnswerIsResult(cfg: Config, w: World, a: Settlement) {
    || (a.id in w.results && w.results[a.id] == a.outcome)
    || (a.outcome.Rejected? && a.id in w.requests && !Handled(cfg, w.requests[a.id]))
  }

  ghost predicate DeliveredIsAnswered(w: World) {
    && (forall p :: p in w.toClient ==> Settlement(p.reply.id, p.reply.outcome) in w.answers)
    && (forall s :: s in w.client.log && s.outcome.Resolved? ==> s in w.answers)
  }

  ghost predicate Inv(cfg: Config, w: World) {
    && Sound(w.client, w.requests.Keys)
    && OpenIsOwn(w) && AnsweredIsClosed(w) && ResultsAreHandlers(cfg, w)
    && AnswersAreResults(cfg, w) && DeliveredIsAnswered(w)
  }

  /** The client's table stays sound whatever happens. */
  lemma ClientStaysSound(cfg: Config, w: World, e: Event)
    requires Sound(w.client, w.requests.Keys) && Enabled(w, e)
    ensures Sound(Next(cfg, w, e).client, Next(cfg, w, e).requests.Keys)
  {
    match e
    case Connected =>
      SocketIrrelevant(w.client, w.requests.Keys, Some(w.nextSocket));
    case Called(id, request, socket, encodes) =>
      RegisterSound(w.client, w.requests.Keys, id);
      assert w.requests[id := request].Keys == w.requests.Keys + {id};
      if !encodes {
        SettleSound(Register(w.client, id), w.requests.Keys + {id}, id, Rejected("FRAME_TOO_LARGE"));
      }
    case Arrived(packet) =>
      if packet.reply.id in w.client.pending {
        SettleSound(w.client, w.requests.Keys, packet.reply.id, packet.reply.outcome);
      }
    case TimedOut(id) => SettleSound(w.client, w.requests.Keys, id, Rejected(TIMED_OUT));
    case SocketFailed(_) => FailAllSound(w.client, w.requests.Keys, UNAVAILABLE);
    case Oversized(_) => FailAllSound(w.client, w.requests.Keys, "FRAME_TOO_LARGE");
    case Closed(_) =>
      SocketIrrelevant(w.client, w.requests.Keys, None);
      FailAllSound(w.client.(socket := None), w.requests.Keys, UNAVAILABLE);
    case ClientClosed =>
      FailAllSound(w.client, w.requests.Keys, UNAVAILABLE);
      SocketIrrelevant(FailAll(w.client, UNAVAILABLE), w.requests.Keys, None);
    case _ =>
  }

  lemma SocketIrrelevant(c: Client, registered: set<Id>, socket: Option<nat>)
    requires Sound(c, registered)
    ensures Sound(c.(socket := socket), registered)
  {
  }

  lemma IdsSnoc(log: seq<Settlement>, s: Settlement)
    ensures Ids(log + [s]) == Ids(log) + [s.id]
  {
  }

  /** Sending the answer to a request that has just stopped being open. */
  lemma SendKeeps(cfg: Config, w: World, x: Sent, reply: Reply)
    requires OpenIsOwn(w) && AnsweredIsClosed(w) && ResultsAreHandlers(cfg, w)
    requires AnswersAreResults(cfg, w) && DeliveredIsAnswered(w)
    requires reply.id == x.id && x.id in w.requests && x.id !in Ids(w.answers)
    requires forall y :: y in Open(w) ==> y.id != x.id
    requires AnswerIsResult(cfg, w, Settlement(reply.id, reply.outcome))
    ensures var v := Send(w, x.socket, reply);
            && OpenIsOwn(v) && AnsweredIsClosed(v) && ResultsAreHandlers(cfg, v)
            && AnswersAreResults(cfg, v) && DeliveredIsAnswered(v)
  {
    var v := Send(w, x.socket, reply);
    IdsSnoc(w.answers, Settlement(reply.id, reply.outcome));
    NoDuplicatesParts(Ids(w.answers), [reply.id]);
    assert Open(v) == Open(w);
    forall a | a in v.answers ensures AnswerIsResult(cfg, v, a) {
      assert AnswerIsResult(cfg, w, a);
    }
  }

  lemma CalledKeeps(cfg: Config, w: World, e: Event)
    requires Inv(cfg, w) && e.Called? && Enabled(w, e)
    ensures Inv(cfg, Next(cfg, w, e))
  {
    ClientStaysSound(cfg, w, e);
    var v := Next(cfg, w, e);
    forall x | x in Open(v) ensures x.id in v.requests && v.requests[x.id] == x.request {
      assert x in Open(w) || x.id == e.id;
    }
    forall x, y | x in Open(v) && y in Open(v) && x.id == y.id ensures x == y {
      assert x in Open(w) || x.id == e.id;
      assert y in Open(w) || y.id == e.id;
    }
    forall a | a in v.answers ensures AnswerIsResult(cfg, v, a) {
      assert AnswerIsResult(cfg, w, a);
      assert a.id in Ids(w.answers) by {
        var i :| 0 <= i < |w.answers| && w.answers[i] == a;
        assert Ids(w.answers)[i] == a.id;
      }
    }
  }

  lemma TakenKeeps(cfg: Config, w: World, e: Event)
    requires Inv(cfg, w) && e.Taken? && Enabled(w, e)
    ensures Inv(cfg, Next(cfg, w, e))
  {
    ClientStaysSound(cfg, w, e);
    var v := w.(toServer := w.toServer - {e.sent});
    assert e.sent in Open(w);
    match Dispatch(LineOf(cfg, e.sent), cfg.serverToken, cfg.operations)
    case Refuse(reply) =>
      assert forall a :: AnswerIsResult(cfg, w, a) ==> AnswerIsResult(cfg, v, a);
      SendKeeps(cfg, v, e.sent, reply);
    case Handle(_, _, _) =>
      assert Open(v.(inFlight := w.inFlight + {e.sent})) == Open(w);
      assert forall a :: AnswerIsResult(cfg, w, a) ==> AnswerIsResult(cfg, Next(cfg, w, e), a);
    case Throws => assert false;
  }

  lemma FinishedKeeps(cfg: Config, w: World, e: Event)
    requires Inv(cfg, w) && e.Finished? && Enabled(w, e)
    ensures Inv(cfg, Next(cfg, w, e))
  {
    ClientStaysSound(cfg, w, e);
    var x := e.sent;
    var v := w.(inFlight := w.inFlight - {x}, results := w.results[x.id := e.outcome]);
    assert x in Open(w);
    forall a | a in v.answers ensures AnswerIsResult(cfg, v, a) {
      assert AnswerIsResult(cfg, w, a);
      assert a.id in Ids(w.answers) by {
        var i :| 0 <= i < |w.answers| && w.answers[i] == a;
        assert Ids(w.answers)[i] == a.id;
      }
    }
    if e.fits {
      SendKeeps(cfg, v, x, Reply(x.id, e.outcome));
    }
  }

  lemma {:induction false} RejectionsAreRejected(ids: seq<Id>, code: string)
    ensures forall s :: s in Rejections(ids, code) ==> s.outcome.Rejected?
  {
    if ids != [] {
      RejectionsAreRejected(ids[..|ids| - 1], code);
    }
  }

  lemma OnlyTheClientKeeps(cfg: Config, w: World, v: World)
    requires Inv(cfg, w) && Sound(v.client, v.requests.Keys) && v.requests == w.requests
    requires v.toServer == w.toServer && v.inFlight == w.inFlight && v.toClient <= w.toClient
    requires v.answers == w.answers && v.results == w.results
    requires forall s :: s in v.client.log && s.outcome.Resolved? ==> s in w.answers
    ensures Inv(cfg, v)
  {
    assert Open(v) == Open(w);
    forall a | a in v.answers ensures AnswerIsResult(cfg, v, a) {
      assert AnswerIsResult(cfg, w, a);
    }
  }

  lemma ClientOnlyKeeps(cfg: Config, w: World, e: Event)
    requires Inv(cfg, w) && Enabled(w, e) && !e.Called? && !e.Taken? && !e.Finished?
    ensures Inv(cfg, Next(cfg, w, e))
  {
    ClientStaysSound(cfg, w, e);
    RejectionsAreRejected(w.client.pending, UNAVAILABLE);
    RejectionsAreRejected(w.client.pending, "FRAME_TOO_LARGE");
    OnlyTheClientKeeps(cfg, w, Next(cfg, w, e));
  }

  lemma NextKeeps(cfg: Config, w: World, e: Event)
    requires Inv(cfg, w) && Enabled(w, e)
    ensures Inv(cfg, Next(cfg, w, e))
  {
    match e
    case Called(_, _, _, _) => CalledKeeps(cfg, w, e);
    case Taken(_) => TakenKeeps(cfg, w, e);
    case Finished(_, _, _) => FinishedKeeps(cfg, w, e);
    case _ => ClientOnlyKeeps(cfg, w, e);
  }

  lemma {:induction false} ReachableInv(cfg: Config, run: seq<Event>, w: World)
    requires Reaches(cfg, run, w)
    ensures Inv(cfg, w)
    decreases |run|
  {
    if run == [] {
      assert Start.client.pending + Ids(Start.client.log) == [];
    } else {
      var v := Run(cfg, run[..|run| - 1]).value;
      ReachableInv(cfg, run[..|run| - 1], v);
      NextKeeps(cfg, v, run[|run| - 1]);
    }
  }

  // ----- Over whole runs

  /** In every interleaving no call is settled twice, and a call is pending exactly when it is not settled. */
  lemma SettledAtMostOnce(cfg: Config, run: seq<Event>, w: World)
    requires Reaches(cfg, run, w)
    ensures forall i, j :: 0 <= i < j < |w.client.log| ==> w.client.log[i].id != w.client.log[j].id
    ensures forall id :: id in w.client.pending <==> id in w.requests && id !in Ids(w.client.log)
    ensures forall id :: id in w.client.pending <==> id in w.client.timers
  {
    ReachableInv(cfg, run, w);
    var c := w.client;
    NoDuplicatesParts(c.pending, Ids(c.log));
    forall i, j | 0 <= i < j < |c.log| ensures c.log[i].id != c.log[j].id {
      NoDuplicatesMeans(Ids(c.log), i, j);
    }
    forall id ensures id in c.pending <==> id in w.requests && id !in Ids(c.log) {
      assert id in w.requests.Keys <==> id in ToSet(c.pending + Ids(c.log));
    }
    forall id ensures id in c.pending <==> id in c.timers {
      assert id in ToSet(c.pending) <==> id in c.timers;
    }
  }

  /**
   * A call that succeeds gets the result with which the handler ended for that call's own request,
   * which carried the right token and named a known operation.
   */
  lemma SuccessIsOwnResult(cfg: Config, run: seq<Event>, w: World, s: Settlement)
    requires Reaches(cfg, run, w) && s in w.client.log && s.outcome.Resolved?
    ensures s.id in w.results && w.results[s.id] == s.outcome
    ensures s.id in w.requests && Handled(cfg, w.requests[s.id])
  {
    ReachableInv(cfg, run, w);
    assert AnswerIsResult(cfg, w, s);
  }

  /**
   * A reply that arrives settles the call with its id, if that is still pending, with the outcome it carries,
   * and no other call; if the call is not pending, nothing changes for the client.
   */
  lemma ArrivalSettles(cfg: Config, run: seq<Event>, w: World, p: Packet)
    requires Reaches(cfg, run, w) && Enabled(w, Arrived(p))
    ensures var c, d := w.client, Next(cfg, w, Arrived(p)).client;
            && (p.reply.id !in c.pending ==> d == c)
            && (p.reply.id in c.pending ==>
                  && d.log == c.log + [Settlement(p.reply.id, p.reply.outcome)]
                  && (forall id :: id in d.pending <==> id in c.pending && id != p.reply.id)
                  && d.timers == c.timers - {p.reply.id} && d.socket == c.socket)
  {
    ReachableInv(cfg, run, w);
    if p.reply.id in w.client.pending {
      NoDuplicatesParts(w.client.pending, Ids(w.client.log));
      WithoutKeeps(w.client.pending, p.reply.id);
    }
  }

  lemma {:induction false} RejectionAt(ids: seq<Id>, code: string, i: nat)
    requires i < |ids|
    ensures |Rejections(ids, code)| == |ids| && Rejections(ids, code)[i] == Settlement(ids[i], Rejected(code))
  {
    if i < |ids| - 1 {
      RejectionAt(ids[..|ids| - 1], code, i);
    } else if |ids| > 1 {
      RejectionAt(ids[..|ids| - 1], code, 0);
    }
  }

  /** What ends a socket or the client rejects all pending calls, in the order in which they were made. */
  lemma EndRejectsAll(cfg: Config, w: World, e: Event, i: nat)
    requires Enabled(w, e) && (e.Closed? || e.SocketFailed? || e.ClientClosed? || e.Oversized?)
    requires i < |w.client.pending|
    ensures var c, d := w.client, Next(cfg, w, e).client;
            var code := if e.Oversized? then "FRAME_TOO_LARGE" else "SUPERVISOR_UNAVAILABLE";
            && d.pending == [] && |d.log| == |c.log| + |c.pending| && c.log <= d.log
            && d.log[|c.log| + i] == Settlement(c.pending[i], Rejected(code))
            && (e.Closed? || e.ClientClosed? ==> d.socket == None)
  {
    RejectionAt(w.client.pending, if e.Oversized? then "FRAME_TOO_LARGE" else UNAVAILABLE, i);
  }

  /** A call is pending from when it is made, unless its frame is too large: then it is rejected at once. */
  lemma CallRegisters(cfg: Config, run: seq<Event>, w: World, id: Id, request: Request, socket: nat, encodes: bool)
    requires Reaches(cfg, run, w) && Enabled(w, Called(id, request, socket, encodes))
    ensures var v := Next(cfg, w, Called(id, request, socket, encodes));
            var c, d := w.client, v.client;
            && id in v.requests && v.requests[id] == request && d.socket == c.socket
            && (encodes ==> d.pending == c.pending + [id] && d.log == c.log && d.timers == c.timers + {id})
            && (encodes && socket in w.live ==> Sent(socket, id, request) in v.toServer)
            && (!encodes ==> d.log == c.log + [Settlement(id, Rejected("FRAME_TOO_LARGE"))] && v.toServer == w.toServer)
            && (!encodes ==> forall x :: x in d.pending <==> x in c.pending)
  {
    ReachableInv(cfg, run, w);
    RegisterSound(w.client, w.requests.Keys, id);
    NoDuplicatesParts(w.client.pending + [id], Ids(w.client.log));
    WithoutKeeps(w.client.pending + [id], id);
    assert id !in w.client.pending by {
      assert id in w.client.pending ==> id in ToSet(w.client.pending + Ids(w.client.log));
    }
  }

  /** A request that is taken reaches the handler, or is answered at once with a refusal. */
  lemma TakenIsHandledOrRefused(cfg: Config, w: World, x: Sent)
    requires Enabled(w, Taken(x))
    ensures var v := Next(cfg, w, Taken(x));
            && x !in v.toServer && v.client == w.client
            && (Handled(cfg, x.request) ==> x in v.inFlight && v.answers == w.answers && v.toClient == w.toClient)
            && (!Handled(cfg, x.request) ==>
                  var code := if cfg.clientToken != cfg.serverToken then "BRIDGE_UNAUTHORIZED" else "UNKNOWN_TOOL";
                  && v.inFlight == w.inFlight && v.answers == w.answers + [Settlement(x.id, Rejected(code))]
                  && v.toClient == w.toClient + {Packet(x.socket, Reply(x.id, Rejected(code)))})
  {
  }

  lemma {:induction false} PendingIsNew(cfg: Config, run: seq<Event>, more: seq<Event>, w: World, u: World, p: Packet)
    requires Reaches(cfg, run, w) && Reaches(cfg, run + more, u) && p.reply.id in w.requests
    requires p in w.toClient || p.reply.id !in w.client.pending
    ensures p in u.toClient || p.reply.id !in u.client.pending
    ensures p.reply.id in u.requests
    decreases |more|
  {
    if more == [] {
      assert run + more == run;
    } else {
      var before, e := more[..|more| - 1], more[|more| - 1];
      assert (run + more)[..|run + more| - 1] == run + before;
      var v := Run(cfg, run + before).value;
      PendingIsNew(cfg, run, before, w, v, p);
      ReachableInv(cfg, run + before, v);
      PacketStays(cfg, v, e, p);
    }
  }

  lemma PacketStays(cfg: Config, w: World, e: Event, p: Packet)
    requires Inv(cfg, w) && Enabled(w, e) && p.reply.id in w.requests
    requires p in w.toClient || p.reply.id !in w.client.pending
    ensures var v := Next(cfg, w, e);
            p.reply.id in v.requests && (p in v.toClient || p.reply.id !in v.client.pending)
  {
    NoDuplicatesParts(w.client.pending, Ids(w.client.log));
    if e.TimedOut? {
      WithoutMembers(w.client.pending, e.id);
    }
    if e.Arrived? && e.packet.reply.id in w.client.pending {
      WithoutKeeps(w.client.pending, e.packet.reply.id);
    }
    if e.Called? {
      WithoutMembers(w.client.pending + [e.id], e.id);
    }
  }

  /**
   * A result gets through: when a handler has ended and its reply fits, then as long as the call is pending
   * and the socket live, whatever else has happened since, the reply can arrive, and settles the call with
   * what the handler gave.
   */
  lemma ResultGetsThrough(
    cfg: Config, run: seq<Event>, w: World, x: Sent, outcome: Outcome, more: seq<Event>, u: World)
    requires Reaches(cfg, run, w) && Enabled(w, Finished(x, outcome, true))
    requires Reaches(cfg, run + [Finished(x, outcome, true)] + more, u)
    requires x.id in u.client.pending && x.socket in u.live
    ensures var arrival := Arrived(Packet(x.socket, Reply(x.id, outcome)));
            && Enabled(u, arrival)
            && Next(cfg, u, arrival).client.log == u.client.log + [Settlement(x.id, outcome)]
  {
    var p, after := Packet(x.socket, Reply(x.id, outcome)), run + [Finished(x, outcome, true)];
    ReachableInv(cfg, run, w);
    assert x in Open(w);
    assert after[..|after| - 1] == run;
    PendingIsNew(cfg, after, more, Next(cfg, w, Finished(x, outcome, true)), u, p);
    ArrivalSettles(cfg, after + more, u, p);
  }

  /** A request line is answered at most once. */
  lemma AnsweredAtMostOnce(cfg: Config, run: seq<Event>, w: World)
    requires Reaches(cfg, run, w)
    ensures forall i, j :: 0 <= i < j < |w.answers| ==> w.answers[i].id != w.answers[j].id
  {
    ReachableInv(cfg, run, w);
    forall i, j | 0 <= i < j < |w.answers| ensures w.answers[i].id != w.answers[j].id {
      NoDuplicatesMeans(Ids(w.answers), i, j);
    }
  }

  /** What has been settled stays settled, and a handler's result is never replaced. */
  lemma SettledForGood(cfg: Config, w: World, e: Event)
    requires Inv(cfg, w) && Enabled(w, e)
    ensures w.client.log <= Next(cfg, w, e).client.log
    ensures forall id :: id in w.results ==> id in Next(cfg, w, e).results && Next(cfg, w, e).results[id] == w.results[id]
    ensures forall id :: id in w.requests ==> id in Next(cfg, w, e).requests && Next(cfg, w, e).requests[id] == w.requests[id]
  {
    if e.Finished? {
      assert e.sent in Open(w);
    }
  }

  /** No call is left hanging: closing the client, or any socket's close, settles every call there is. */
  lemma ClosingSettlesAll(cfg: Config, run: seq<Event>, w: World, e: Event)
    requires Reaches(cfg, run, w) && Enabled(w, e) && (e.ClientClosed? || e.Closed? || e.SocketFailed? || e.Oversized?)
    ensures var v := Next(cfg, w, e);
            v.client.pending == [] && forall id :: id in v.requests ==> id in Ids(v.client.log)
  {
    ReachableInv(cfg, run, w);
    NextKeeps(cfg, w, e);
    var v := Next(cfg, w, e);
    forall id | id in v.requests ensures id in Ids(v.client.log) {
      assert id in ToSet(v.client.pending + Ids(v.client.log));
    }
  }

  /** And a pending call can always still time out. */
  lemma PendingCanTimeOut(cfg: Config, run: seq<Event>, w: World, id: Id)
    requires Reaches(cfg, run, w) && id in w.client.pending
    ensures Enabled(w, TimedOut(id))
    ensures var c, d := w.client, Next(cfg, w, TimedOut(id)).client;
            && d.log == c.log + [Settlement(id, Rejected("SUPERVISOR_TIMEOUT"))]
            && forall x :: x in d.pending <==> x in c.pending && x != id
  {
    SettledAtMostOnce(cfg, run, w);
    ReachableInv(cfg, run, w);
    NoDuplicatesParts(w.client.pending, Ids(w.client.log));
    WithoutKeeps(w.client.pending, id);
  }

  // ----- Whose calls a socket's end rejects

  /** The events with which a socket comes to its end. */
  predicate EndsSocket(e: Event) {
    e.Closed? || e.SocketFailed? || e.Oversized?
  }

  /** The calls that an event settles. */
  function SettledBy(cfg: Config, w: World, e: Event): seq<Id>
    requires Enabled(w, e) && |w.client.log| <= |Next(cfg, w, e).client.log|
  {
    Ids(Next(cfg, w, e).client.log[|w.client.log|..])
  }

  lemma SocketEndSettlesPending(cfg: Config, w: World, e: Event)
    requires Enabled(w, e) && EndsSocket(e)
    ensures |w.client.log| <= |Next(cfg, w, e).client.log| && SettledBy(cfg, w, e) == w.client.pending
  {
    var code := if e.Oversized? then "FRAME_TOO_LARGE" else UNAVAILABLE;
    RejectionIds(w.client.pending, code);
    assert Next(cfg, w, e).client.log == w.client.log + Rejections(w.client.pending, code);
  }

  lemma {:induction false} CallsAreMade(cfg: Config, run: seq<Event>, w: World)
    requires Reaches(cfg, run, w)
    ensures w.madeOn.Keys == w.requests.Keys && forall id :: id in w.client.pending ==> id in w.madeOn
    decreases |run|
  {
    if run != [] {
      CallsAreMade(cfg, run[..|run| - 1], Run(cfg, run[..|run| - 1]).value);
    }
    SettledAtMostOnce(cfg, run, w);
  }

  /** The event settles no other calls than those made on its own socket. */
  ghost predicate SparesOtherSockets(cfg: Config, w: World, e: Event)
    requires Enabled(w, e) && EndsSocket(e)
  {
    SocketEndSettlesPending(cfg, w, e);
    forall id :: id in SettledBy(cfg, w, e) ==> id in w.madeOn && w.madeOn[id] == e.socket
  }

  /** In every run: a socket's end spares the calls of other sockets exactly when there are none of them. */
  lemma SocketEndSparesExactlyWhen(cfg: Config, run: seq<Event>, w: World, e: Event)
    requires Reaches(cfg, run, w) && Enabled(w, e) && EndsSocket(e)
    ensures forall id :: id in w.client.pending ==> id in w.madeOn
    ensures SparesOtherSockets(cfg, w, e) <==> forall id :: id in w.client.pending ==> w.madeOn[id] == e.socket
  {
    CallsAreMade(cfg, run, w);
    SocketEndSettlesPending(cfg, w, e);
  }

  /** Calls are made on the socket the client has, which is not destroyed; it connects only if there is none. */
  predicate AsTheClientDoes(w: World, e: Event) {
    && (e.Called? ==> w.client.socket == Some(e.socket) && e.socket in w.live)
    && (e.Connected? ==> w.client.socket.None? || w.client.socket.value !in w.live)
  }

  ghost predicate Disciplined(cfg: Config, run: seq<Event>) {
    run == []
    || (&& Disciplined(cfg, run[..|run| - 1])
        && (Run(cfg, run[..|run| - 1]).Some? ==> AsTheClientDoes(Run(cfg, run[..|run| - 1]).value, run[|run| - 1])))
  }

  /** Pending calls were made on the socket the client has, and that is not destroyed. */
  ghost predicate PendingOnCurrent(w: World) {
    && (forall id :: id in w.client.pending ==> id in w.madeOn && w.client.socket == Some(w.madeOn[id]))
    && (forall id :: id in w.client.pending ==> id in w.requests)
    && (w.client.socket.None? || w.client.socket.value !in w.live ==> w.client.pending == [])
  }

  lemma NextKeepsOnCurrent(cfg: Config, w: World, e: Event)
    requires PendingOnCurrent(w) && Enabled(w, e) && AsTheClientDoes(w, e) && NoDuplicates(w.client.pending)
    ensures PendingOnCurrent(Next(cfg, w, e))
  {
    if e.TimedOut? {
      WithoutMembers(w.client.pending, e.id);
    }
    if e.Arrived? {
      WithoutMembers(w.client.pending, e.packet.reply.id);
    }
    if e.Called? {
      WithoutMembers(w.client.pending + [e.id], e.id);
    }
  }

  lemma {:induction false} WithoutMembers(s: seq<Id>, x: Id)
    ensures forall y :: y in Without(s, x) ==> y in s
  {
    if s != [] {
      WithoutMembers(s[1..], x);
    }
  }

  lemma {:induction false} DisciplinedKeepsOnCurrent(cfg: Config, run: seq<Event>, w: World)
    requires Reaches(cfg, run, w) && Disciplined(cfg, run)
    ensures PendingOnCurrent(w)
    decreases |run|
  {
    if run != [] {
      var before := run[..|run| - 1];
      var v := Run(cfg, before).value;
      DisciplinedKeepsOnCurrent(cfg, before, v);
      ReachableInv(cfg, before, v);
      NoDuplicatesParts(v.client.pending, Ids(v.client.log));
      NextKeepsOnCurrent(cfg, v, run[|run| - 1]);
    }
  }

  /**
   * In the runs the client allows: the end of a socket, whether closed, failed or oversized, spares the
   * calls of other sockets if and only if that socket is the one the client has, or nothing is pending.
   * The program does not look.
   */
  lemma SocketEndSparesOthersExactlyWhen(cfg: Config, run: seq<Event>, w: World, e: Event)
    requires Reaches(cfg, run, w) && Disciplined(cfg, run) && Enabled(w, e) && EndsSocket(e)
    ensures SparesOtherSockets(cfg, w, e) <==> w.client.socket == Some(e.socket) || w.client.pending == []
  {
    SocketEndSparesExactlyWhen(cfg, run, w, e);
    DisciplinedKeepsOnCurrent(cfg, run, w);
    assert w.client.pending != [] ==> w.client.pending[0] in w.client.pending;
  }

  /**
   * Such a run: when the client has closed and connected again, the late close of the old socket rejects
   * a call made on the new one.
   */
  lemma {:induction false} LateCloseRejectsNewCalls(cfg: Config, request: Request)
    ensures var run := [Connected, ClientClosed, Connected, Called("a", request, 1, true)];
            exists w :: && Reaches(cfg, run, w) && Disciplined(cfg, run) && Enabled(w, Closed(0))
                        && !SparesOtherSockets(cfg, w, Closed(0)) && 1 in Next(cfg, w, Closed(0)).live
                        && Settlement("a", Rejected(UNAVAILABLE)) in Next(cfg, w, Closed(0)).client.log
  {
    var run := [Connected, ClientClosed, Connected, Called("a", request, 1, true)];
    var w := CallAfterReconnecting(cfg, request, run);
    SocketEndSparesOthersExactlyWhen(cfg, run, w, Closed(0));
    OneRejection("a");
    assert Settlement("a", Rejected(UNAVAILABLE)) in Next(cfg, w, Closed(0)).client.log;
  }

  lemma OneRejection(id: Id)
    ensures Rejections([id], UNAVAILABLE) == [Settlement(id, Rejected(UNAVAILABLE))]
  {
    assert [id][..0] == [];
  }

  lemma {:induction false} CallAfterReconnecting(cfg: Config, request: Request, run: seq<Event>) returns (w: World)
    requires run == [Connected, ClientClosed, Connected, Called("a", request, 1, true)]
    ensures Reaches(cfg, run, w) && w.client.pending == ["a"] && w.live == {1} && w.closing == {0}
    ensures Disciplined(cfg, run) && w.client.socket == Some(1)
  {
    var w1 := Next(cfg, Start, Connected);
    OneMore(cfg, [], Start, Connected);
    assert run[..1] == [] + [Connected];
    var w2 := Next(cfg, w1, ClientClosed);
    OneMore(cfg, run[..1], w1, ClientClosed);
    assert run[..2] == run[..1] + [ClientClosed];
    var w3 := Next(cfg, w2, Connected);
    OneMore(cfg, run[..2], w2, Connected);
    assert run[..3] == run[..2] + [Connected];
    w := Next(cfg, w3, run[3]);
    OneMore(cfg, run[..3], w3, run[3]);
    assert run == run[..3] + [run[3]];
  }

  lemma {:induction false} OneMore(cfg: Config, run: seq<Event>, w: World, e: Event)
    requires Reaches(cfg, run, w) && Disciplined(cfg, run) && Enabled(w, e) && AsTheClientDoes(w, e)
    ensures Reaches(cfg, run + [e], Next(cfg, w, e)) && Disciplined(cfg, run + [e])
  {
    assert (run + [e])[..|run|] == run;
  }
}
