/** The server from the sockets' point of view: sockets open, deliver bytes in any interleaving, and
    close. What the byte streams decode to drives the state machine. */
module Service {
  import opened Prelude
  import opened PacketCodec
  import Framing
  import opened Streams
  import opened Tables
  import opened ChatCreation
  import opened ServerModel
  import opened ServerProofs

  /** One signal of a socket, with what the outside contributes to each step it causes. */
  datatype Signal = Signal(event: SocketEvent, envs: nat -> Env)

  datatype Process = Process(buffers: Buffers, state: State)

  /** What one signal makes of the state machine: a step per packet it completes, or a disconnect. */
  function StepsOf(buffers: Buffers, e: SocketEvent, envs: nat -> Env): seq<Event> {
    match e
    case Opened(_) => []
    case Arrived(socket, _) => Receipts(socket, DispatchedBy(buffers, e), envs)
    case Closed(socket) => [Disconnected(socket, envs(0))]
  }

  function AfterSignal(f: Formats, p: Process, e: SocketEvent, envs: nat -> Env): Process {
    Process(BuffersAfter(p.buffers, e), RunFrom(f, p.state, StepsOf(p.buffers, e, envs)))
  }

  function RunProcess(f: Formats, db: Tables, signals: seq<Signal>): Process {
    if signals == [] then Process(map[], State(map[], db))
    else
      var last := signals[|signals| - 1];
      AfterSignal(f, RunProcess(f, db, signals[..|signals| - 1]), last.event, last.envs)
  }

  function SocketEvents(signals: seq<Signal>): seq<SocketEvent> {
    if signals == [] then []
    else SocketEvents(signals[..|signals| - 1]) + [signals[|signals| - 1].event]
  }

  /** All the steps of a run. */
  function AllSteps(signals: seq<Signal>): seq<Event> {
    if signals == [] then []
    else
      var before, last := signals[..|signals| - 1], signals[|signals| - 1];
      AllSteps(before) + StepsOf(BuffersOfRun(SocketEvents(before)), last.event, last.envs)
  }

  /** The packets of one socket among some steps. */
  function PacketsFrom(steps: seq<Event>, socket: Socket): seq<Packet> {
    if steps == [] then []
    else
      var rest, last := PacketsFrom(steps[..|steps| - 1], socket), steps[|steps| - 1];
      if last.Received? && last.socket == socket then rest + [last.packet] else rest
  }

  lemma PacketsFromSnoc(steps: seq<Event>, e: Event, socket: Socket)
    ensures PacketsFrom(steps + [e], socket)
         == PacketsFrom(steps, socket) + if e.Received? && e.socket == socket then [e.packet] else []
  {
    assert (steps + [e])[..|steps|] == steps;
  }

  lemma {:induction false} PacketsFromConcat(a: seq<Event>, b: seq<Event>, socket: Socket)
    ensures PacketsFrom(a + b, socket) == PacketsFrom(a, socket) + PacketsFrom(b, socket)
  {
    if b == [] {
      assert a + b == a;
    } else {
      hide *;
      var m, x := b[..|b| - 1], b[|b| - 1];
      SplitLast(b);
      ConcatAssociative(a, m, [x]);
      PacketsFromConcat(a, m, socket);
      PacketsFromSnoc(a + m, x, socket);
      PacketsFromSnoc(m, x, socket);
    }
  }

  lemma {:induction false} PacketsFromReceipts(owner: Socket, ps: seq<Packet>, envs: nat -> Env, socket: Socket)
    ensures PacketsFrom(Receipts(owner, ps, envs), socket) == if owner == socket then ps else []
  {
    if ps == [] {
    } else {
      var n := |ps| - 1;
      PacketsFromReceipts(owner, ps[..n], envs, socket);
      PacketsFromSnoc(Receipts(owner, ps[..n], envs), Received(owner, ps[n], envs(n)), socket);
    }
  }

  lemma {:induction false} RunFromConcat(f: Formats, s: State, a: seq<Event>, b: seq<Event>)
    ensures RunFrom(f, s, a + b) == RunFrom(f, RunFrom(f, s, a), b)
  {
    if b == [] {
      assert a + b == a;
    } else {
      var m, x := b[..|b| - 1], b[|b| - 1];
      assert (a + b)[..|a + b| - 1] == a + m && (a + b)[|a + b| - 1] == x;
      RunFromConcat(f, s, a, m);
      hide ServerModel.Step;
    }
  }

  /** The process is its two halves: the buffers of the byte streams, and the state machine run over
      the steps those streams decode to. */
  lemma {:induction false} ProcessSplits(f: Formats, db: Tables, signals: seq<Signal>)
    ensures RunProcess(f, db, signals)
         == Process(BuffersOfRun(SocketEvents(signals)), RunServer(f, db, AllSteps(signals)))
  {
    if signals == [] {
    } else {
      var before, last := signals[..|signals| - 1], signals[|signals| - 1];
      ProcessSplits(f, db, before);
      EventsSnoc(before, last);
      SplitLast(signals);
      hide RunFrom, BuffersOfRun, SocketEvents, StepsOf, BuffersAfter;
      RunFromConcat(f, State(map[], db), AllSteps(before),
                    StepsOf(BuffersOfRun(SocketEvents(before)), last.event, last.envs));
    }
  }

  lemma EventsSnoc(before: seq<Signal>, last: Signal)
    ensures SocketEvents(before + [last]) == SocketEvents(before) + [last.event]
    ensures AllSteps(before + [last])
         == AllSteps(before) + StepsOf(BuffersOfRun(SocketEvents(before)), last.event, last.envs)
    ensures BuffersOfRun(SocketEvents(before) + [last.event])
         == BuffersAfter(BuffersOfRun(SocketEvents(before)), last.event)
  {
    assert (before + [last])[..|before|] == before;
    RunOneMore(SocketEvents(before), last.event, last.event.socket);
  }

  /** The packets of a socket that the state machine steps through are those dispatched for it. */
  lemma {:induction false} StepsFollowLog(signals: seq<Signal>, socket: Socket)
    ensures PacketsFrom(AllSteps(signals), socket) == LogOf(DispatchLog(SocketEvents(signals)), socket)
  {
    if signals == [] {
    } else {
      var before, last := signals[..|signals| - 1], signals[|signals| - 1];
      var e, buffers := last.event, BuffersOfRun(SocketEvents(before));
      StepsFollowLog(before, socket);
      SplitLast(signals);
      EventsSnoc(before, last);
      RunOneMore(SocketEvents(before), e, socket);
      StepPackets(buffers, last, socket);
      hide *;
      PacketsFromConcat(AllSteps(before), StepsOf(buffers, e, last.envs), socket);
      LogOfConcat(DispatchLog(SocketEvents(before)), Tagged(e.socket, DispatchedBy(buffers, e)), socket);
    }
  }

  lemma StepPackets(buffers: Buffers, last: Signal, socket: Socket)
    ensures var e := last.event;
      PacketsFrom(StepsOf(buffers, e, last.envs), socket) == LogOf(Tagged(e.socket, DispatchedBy(buffers, e)), socket)
  {
    var e := last.event;
    LogOfTagged(e.socket, DispatchedBy(buffers, e), socket);
    match e
    case Opened(_) =>
    case Arrived(owner, _) => PacketsFromReceipts(owner, DispatchedBy(buffers, e), last.envs, socket);
    case Closed(owner) => PacketsFromSnoc([], Disconnected(owner, last.envs(0)), socket);
      assert [] + [Disconnected(owner, last.envs(0))] == [Disconnected(owner, last.envs(0))];
  }

  ghost predicate OrderlySignals(signals: seq<Signal>) {
    forall g, n: nat | g in signals :: Orderly(g.envs(n).order)
  }

  /** From bytes to invariants: for any interleaving of sockets opening, delivering bytes and closing,
      the sessions and tables are those of a run of the state machine in which each socket's packets
      are exactly what its own bytes parse to, connection by connection; so the sessions agree, no two
      for one user, and from tables with exact counters the counters are exact. */
  lemma {:induction false} BytesDriveStates(f: Formats, db: Tables, signals: seq<Signal>)
    ensures var steps, p := AllSteps(signals), RunProcess(f, db, signals);
      && p.state == RunServer(f, db, steps)
      && SessionsAgree(p.state.clients)
      && (TablesSound(db) && OrderlySignals(signals) ==> TablesSound(p.state.db))
      && forall socket: Socket ::
           && PacketsFrom(steps, socket) == PacketsOfEach(Lifetimes(SocketEvents(signals), socket))
           && BufferOf(p.buffers, socket) == Framing.Residue(Current(SocketEvents(signals), socket))
  {
    ProcessSplits(f, db, signals);
    OneSessionPerUser(f, db, AllSteps(signals));
    if TablesSound(db) && OrderlySignals(signals) {
      StepsOrderly(signals);
      ServerKeepsTables(f, db, AllSteps(signals));
    }
    forall socket: Socket
      ensures PacketsFrom(AllSteps(signals), socket) == PacketsOfEach(Lifetimes(SocketEvents(signals), socket))
      ensures BufferOf(RunProcess(f, db, signals).buffers, socket)
           == Framing.Residue(Current(SocketEvents(signals), socket))
    {
      StepsFollowLog(signals, socket);
      StreamIsolation(SocketEvents(signals), socket);
    }
  }

  lemma {:induction false} StepsOrderly(signals: seq<Signal>)
    requires OrderlySignals(signals)
    ensures OrderlyRun(AllSteps(signals))
  {
    if signals == [] {
    } else {
      var before, last := signals[..|signals| - 1], signals[|signals| - 1];
      assert OrderlySignals(before);
      StepsOrderly(before);
      var buffers := BuffersOfRun(SocketEvents(before));
      assert last in signals;
      if last.event.Arrived? {
        ReceiptsOrderly(last.event.socket, DispatchedBy(buffers, last.event), last.envs);
      }
    }
  }

  lemma {:induction false} ReceiptsOrderly(socket: Socket, ps: seq<Packet>, envs: nat -> Env)
    requires forall n: nat :: Orderly(envs(n).order)
    ensures OrderlyRun(Receipts(socket, ps, envs))
  {
    if ps == [] {
    } else {
      ReceiptsOrderly(socket, ps[..|ps| - 1], envs);
    }
  }

  // --------------------------------------------------- no session outlives its socket

  /** Every session is on a socket that is open. */
  ghost predicate SocketsOpen(p: Process) {
    forall k | k in p.state.clients :: p.state.clients[k].socket in p.buffers
  }

  /** Bytes arrive on open sockets only, and a socket that closes carries one session at most. */
  ghost predicate Proper(p: Process, g: Signal) {
    match g.event
    case Opened(_) => true
    case Arrived(socket, _) => socket in p.buffers
    case Closed(socket) =>
      && Orderly(g.envs(0).order)
      && forall j, k | j in p.state.clients && k in p.state.clients ::
           p.state.clients[j].socket == socket && p.state.clients[k].socket == socket ==> j == k
  }

  /** The sessions after a step: those from before, each where it was, and none new but on this socket. */
  ghost predicate StayPut(before: Sessions, after: Sessions, socket: Socket) {
    forall k | k in after :: (k in before && after[k].socket == before[k].socket) || after[k].socket == socket
  }

  lemma PacketStaysPut(f: Formats, s: State, socket: Socket, p: Packet, env: Env)
    ensures StayPut(s.clients, ServerModel.Step(f, s, Received(socket, p, env)).state.clients, socket)
  {
    if p.kind !in {CONNECT_CLIENT, LOGIN_USER, LOGOUT_USER} {
      OnlyThreeChangeSessions(f, env, s, socket, p);
      hide Handle;
    } else {
      hide Authenticate, SignedInElsewhere;
    }
  }

  lemma {:induction false} ReceiptsStayPut(f: Formats, s: State, socket: Socket, ps: seq<Packet>, envs: nat -> Env)
    ensures StayPut(s.clients, RunFrom(f, s, Receipts(socket, ps, envs)).clients, socket)
  {
    if ps == [] {
    } else {
      var n := |ps| - 1;
      var before, last := Receipts(socket, ps[..n], envs), Received(socket, ps[n], envs(n));
      ReceiptsStayPut(f, s, socket, ps[..n], envs);
      assert (before + [last])[..|before|] == before;
      hide ServerModel.Step;
      PacketStaysPut(f, RunFrom(f, s, before), socket, ps[n], envs(n));
    }
  }

  lemma SignalKeepsSocketsOpen(f: Formats, p: Process, g: Signal)
    requires SocketsOpen(p) && Proper(p, g)
    ensures SocketsOpen(AfterSignal(f, p, g.event, g.envs))
  {
    match g.event
    case Opened(socket) =>
    case Arrived(socket, chunk) =>
      ReceiptsStayPut(f, p.state, socket, DispatchedBy(p.buffers, g.event), g.envs);
      hide RunFrom, Receipts;
    case Closed(socket) =>
      var env, clients := g.envs(0), p.state.clients;
      var closing: seq<Event> := [Disconnected(socket, env)];
      assert closing[..|closing| - 1] == [] && closing[|closing| - 1] == Disconnected(socket, env);
      assert RunFrom(f, p.state, closing) == Disconnect(env, p.state, socket);
      assert Enumerates(env.order(clients.Keys), clients.Keys);
      var left := Disconnect(env, p.state, socket).clients;
      assert AfterSignal(f, p, g.event, g.envs).state.clients == left;
      forall k | k in left ensures left[k].socket in p.buffers - {socket} {
        assert k in env.order(clients.Keys);
      }
  }

  /** In every run in which bytes arrive on open sockets only and each socket carries one session at most,
      no session outlives its connection. */
  lemma {:induction false} NoSessionOutlivesItsSocket(f: Formats, db: Tables, signals: seq<Signal>)
    requires forall i | 0 <= i < |signals| :: Proper(RunProcess(f, db, signals[..i]), signals[i])
    ensures forall k | k in RunProcess(f, db, signals).state.clients ::
      RunProcess(f, db, signals).state.clients[k].socket in RunProcess(f, db, signals).buffers
  {
    if signals == [] {
    } else {
      var n := |signals| - 1;
      hide AfterSignal, Proper, SocketsOpen;
      assert forall i | 0 <= i < n :: signals[..n][..i] == signals[..i] && signals[..n][i] == signals[i];
      NoSessionOutlivesItsSocket(f, db, signals[..n]);
      assert SocketsOpen(RunProcess(f, db, signals[..n])) by {
        IsOpen(RunProcess(f, db, signals[..n]));
      }
      SignalKeepsSocketsOpen(f, RunProcess(f, db, signals[..n]), signals[n]);
      IsOpen(RunProcess(f, db, signals));
    }
  }

  lemma IsOpen(p: Process)
    ensures SocketsOpen(p) <==> forall k | k in p.state.clients :: p.state.clients[k].socket in p.buffers
  {
  }
}
