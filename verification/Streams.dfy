/** The two places that keep a buffer between reads: the client's single incoming buffer
    (`client/src/RequestManager.cpp`) and the server's buffer per socket
    (`server/src/Server.cpp`). */
module Streams {
  import opened Prelude
  import opened PacketCodec
  import opened Framing

  // ----------------------------------------------------------------- client

  /** The receiving half of the client's RequestManager. */
  class RequestManager {
    const incomingBuffer: ByteArray
    ghost var received: seq<byte>
    ghost var processed: seq<Packet>

    /** Everything ever received has been parsed as if it had come in one piece. */
    ghost predicate Valid()
      reads this, incomingBuffer
    {
      && incomingBuffer.bytes == Residue(received)
      && processed == PacketsOf(received)
    }

    constructor ()
      ensures Valid() && fresh(incomingBuffer)
      ensures received == []
    {
      incomingBuffer := new ByteArray([]);
      received := [];
      processed := [];
    }

    method ProcessBytes(bytes: seq<byte>) returns (packets: seq<Packet>)
      requires Valid()
      modifies this, incomingBuffer
      ensures Valid()
      ensures received == old(received) + bytes
      ensures processed == old(processed) + packets
    {
      incomingBuffer.Append(bytes);
      packets := ParseStream(incomingBuffer);
      ParseResumes(received, bytes);
      received := received + bytes;
      processed := processed + packets;
    }
  }

  // ----------------------------------------------------------------- server

  /** A QTcpSocket pointer. */
  type Socket = nat

  datatype SocketEvent =
    | Opened(socket: Socket)
    | Arrived(socket: Socket, chunk: seq<byte>)
    | Closed(socket: Socket)

  /** The server's `m_socketBuffers`. */
  type Buffers = map<Socket, seq<byte>>

  function BufferOf(buffers: Buffers, socket: Socket): seq<byte> {
    if socket in buffers then buffers[socket] else []
  }

  function BuffersAfter(buffers: Buffers, e: SocketEvent): Buffers {
    match e
    case Opened(socket) => buffers[socket := []]
    case Arrived(socket, chunk) => buffers[socket := Residue(BufferOf(buffers, socket) + chunk)]
    case Closed(socket) => buffers - {socket}
  }

  /** The packets handed to the handlers by one event. */
  function DispatchedBy(buffers: Buffers, e: SocketEvent): seq<Packet> {
    if e.Arrived? then PacketsOf(BufferOf(buffers, e.socket) + e.chunk) else []
  }

  function BuffersOfRun(events: seq<SocketEvent>): Buffers {
    if events == [] then map[]
    else BuffersAfter(BuffersOfRun(events[..|events| - 1]), events[|events| - 1])
  }

  function Tagged(socket: Socket, ps: seq<Packet>): seq<(Socket, Packet)> {
    if ps == [] then [] else Tagged(socket, ps[..|ps| - 1]) + [(socket, ps[|ps| - 1])]
  }

  lemma TaggedSnoc(socket: Socket, ps: seq<Packet>, p: Packet)
    ensures Tagged(socket, ps + [p]) == Tagged(socket, ps) + [(socket, p)]
  {
    assert (ps + [p])[..|ps|] == ps;
  }

  /** Everything dispatched in a run, over all sockets, in order. */
  function DispatchLog(events: seq<SocketEvent>): seq<(Socket, Packet)> {
    if events == [] then []
    else
      var before, e := events[..|events| - 1], events[|events| - 1];
      DispatchLog(before) + Tagged(e.socket, DispatchedBy(BuffersOfRun(before), e))
  }

  /** The part of a log that belongs to one socket. */
  function LogOf(log: seq<(Socket, Packet)>, socket: Socket): seq<Packet> {
    if log == [] then []
    else
      var rest := LogOf(log[..|log| - 1], socket);
      if log[|log| - 1].0 == socket then rest + [log[|log| - 1].1] else rest
  }

  function LivesAfter(lives: seq<seq<byte>>, e: SocketEvent, socket: Socket): seq<seq<byte>>
    requires lives != []
  {
    if e.socket != socket then lives
    else if e.Arrived? then lives[..|lives| - 1] + [lives[|lives| - 1] + e.chunk]
    else lives + [[]]
  }

  /** The byte strings one socket carried, one per period between opening and closing. It looks
      at that socket's own events only. */
  function Lifetimes(events: seq<SocketEvent>, socket: Socket): (r: seq<seq<byte>>)
    ensures r != []
  {
    if events == [] then [[]]
    else LivesAfter(Lifetimes(events[..|events| - 1], socket), events[|events| - 1], socket)
  }

  function PacketsOfEach(streams: seq<seq<byte>>): seq<Packet> {
    if streams == [] then []
    else PacketsOfEach(streams[..|streams| - 1]) + PacketsOf(streams[|streams| - 1])
  }

  lemma LogOfSnoc(log: seq<(Socket, Packet)>, x: (Socket, Packet), socket: Socket)
    ensures LogOf(log + [x], socket) == LogOf(log, socket) + if x.0 == socket then [x.1] else []
  {
    assert (log + [x])[..|log|] == log;
  }

  lemma {:induction false} LogOfConcat(a: seq<(Socket, Packet)>, b: seq<(Socket, Packet)>, socket: Socket)
    ensures LogOf(a + b, socket) == LogOf(a, socket) + LogOf(b, socket)
  {
    if b == [] {
      assert a + b == a;
    } else {
      hide *;
      var m, x := b[..|b| - 1], b[|b| - 1];
      SplitLast(b);
      ConcatAssociative(a, m, [x]);
      LogOfConcat(a, m, socket);
      LogOfSnoc(a + m, x, socket);
      LogOfSnoc(m, x, socket);
      ConcatAssociative(LogOf(a, socket), LogOf(m, socket), if x.0 == socket then [x.1] else []);
    }
  }

  lemma {:induction false} LogOfTagged(owner: Socket, ps: seq<Packet>, socket: Socket)
    ensures LogOf(Tagged(owner, ps), socket) == if owner == socket then ps else []
  {
    if ps == [] {
    } else {
      hide *;
      var m, p := ps[..|ps| - 1], ps[|ps| - 1];
      SplitLast(ps);
      LogOfTagged(owner, m, socket);
      TaggedSnoc(owner, m, p);
      LogOfSnoc(Tagged(owner, m), (owner, p), socket);
    }
  }

  /** The current period's bytes. */
  function Current(events: seq<SocketEvent>, socket: Socket): seq<byte> {
    var lives := Lifetimes(events, socket);
    lives[|lives| - 1]
  }

  /** Whatever the interleaving over however many sockets, what is dispatched for one socket is
      what that socket's own bytes parse to, period by period, and its buffer holds the residue
      of the current period. */
  lemma {:induction false} StreamIsolation(events: seq<SocketEvent>, socket: Socket)
    ensures LogOf(DispatchLog(events), socket) == PacketsOfEach(Lifetimes(events, socket))
    ensures BufferOf(BuffersOfRun(events), socket) == Residue(Current(events, socket))
  {
    if events == [] {
      NoPackets();
    } else {
      var before, e := events[..|events| - 1], events[|events| - 1];
      StreamIsolation(before, socket);
      OneEvent(before, e, socket);
      SplitLast(events);
    }
  }

  lemma NoPackets()
    ensures PacketsOfEach([[]]) == [] && Residue([]) == []
  {
    var none: seq<seq<byte>> := [[]];
    assert none[..0] == [];
  }

  lemma OneEvent(before: seq<SocketEvent>, e: SocketEvent, socket: Socket)
    requires LogOf(DispatchLog(before), socket) == PacketsOfEach(Lifetimes(before, socket))
    requires BufferOf(BuffersOfRun(before), socket) == Residue(Current(before, socket))
    ensures LogOf(DispatchLog(before + [e]), socket) == PacketsOfEach(Lifetimes(before + [e], socket))
    ensures BufferOf(BuffersOfRun(before + [e]), socket) == Residue(Current(before + [e], socket))
  {
    var buffers, lives := BuffersOfRun(before), Lifetimes(before, socket);
    var dispatched := DispatchedBy(buffers, e);
    RunOneMore(before, e, socket);
    hide BuffersOfRun, DispatchLog, Lifetimes, LogOf, Tagged, PacketsOfEach, PacketsOf, Residue;
    LogOfConcat(DispatchLog(before), Tagged(e.socket, dispatched), socket);
    LogOfTagged(e.socket, dispatched, socket);
    if e.socket == socket {
      if e.Arrived? {
        LifetimeGrows(lives, e.chunk);
      } else {
        LifetimeOpens(lives);
      }
    }
  }

  lemma RunOneMore(before: seq<SocketEvent>, e: SocketEvent, socket: Socket)
    ensures BuffersOfRun(before + [e]) == BuffersAfter(BuffersOfRun(before), e)
    ensures DispatchLog(before + [e])
         == DispatchLog(before) + Tagged(e.socket, DispatchedBy(BuffersOfRun(before), e))
    ensures Lifetimes(before + [e], socket) == LivesAfter(Lifetimes(before, socket), e, socket)
  {
    assert (before + [e])[..|before|] == before;
  }

  lemma LifetimeOpens(lives: seq<seq<byte>>)
    ensures PacketsOfEach(lives + [[]]) == PacketsOfEach(lives)
    ensures Residue([]) == []
  {
    assert (lives + [[]])[..|lives|] == lives;
  }

  lemma PacketsOfEachSnoc(lives: seq<seq<byte>>, life: seq<byte>)
    ensures PacketsOfEach(lives + [life]) == PacketsOfEach(lives) + PacketsOf(life)
  {
    assert (lives + [life])[..|lives|] == lives;
  }

  lemma LifetimeGrows(lives: seq<seq<byte>>, chunk: seq<byte>)
    requires lives != []
    ensures var current := lives[|lives| - 1];
      && PacketsOfEach(lives[..|lives| - 1] + [current + chunk])
         == PacketsOfEach(lives) + PacketsOf(Residue(current) + chunk)
      && Residue(current + chunk) == Residue(Residue(current) + chunk)
  {
    hide *;
    var earlier, current := lives[..|lives| - 1], lives[|lives| - 1];
    SplitLast(lives);
    PacketsOfEachSnoc(earlier, current);
    PacketsOfEachSnoc(earlier, current + chunk);
    ParseResumes(current, chunk);
    ConcatAssociative(PacketsOfEach(earlier), PacketsOf(current), PacketsOf(Residue(current) + chunk));
  }
}
