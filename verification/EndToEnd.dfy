/** From one client's chat window to another's session: the send pipeline, the transport, the server's
    byte streams and the routing, put together. */
module EndToEnd {
  import opened Prelude
  import opened PacketCodec
  import opened Tables
  import opened ChatCreation
  import opened Streams
  import opened ServerModel
  import opened ServerProofs
  import opened Service
  import F = Framing
  import P = Pipeline

  /** The server reads messages as the client writes them. */
  ghost predicate FormatsAgree(f: Formats, c: P.Config) {
    forall author, chat, text ::
      && c.encode(author, chat, text) != []
      && f.message(c.encode(author, chat, text)) == Message(author, chat, false, text)
  }

  /** A message packet for this chat. */
  predicate ForChat(f: Formats, p: Packet, chat: Uuid) {
    p.kind == CHAT_MESSAGE && p.data.Some? && f.message(p.data.value).targetChatId == chat
  }

  /** The texts of the message packets for this chat, in order. */
  function Texts(f: Formats, ps: seq<Packet>, chat: Uuid): seq<string> {
    if ps == [] then []
    else
      var rest, last := Texts(f, ps[..|ps| - 1], chat), ps[|ps| - 1];
      if ForChat(f, last, chat) then rest + [f.message(last.data.value).content] else rest
  }

  function TextsOf(ms: seq<P.Submission>): seq<string> {
    if ms == [] then [] else TextsOf(ms[..|ms| - 1]) + [ms[|ms| - 1].text]
  }

  /** The texts of the messages routed to one session. */
  function HeardOf(sent: seq<Outbound>, k: Uuid): seq<string> {
    if sent == [] then []
    else
      var rest, last := HeardOf(sent[..|sent| - 1], k), sent[|sent| - 1];
      if last.session == k && last.content.Routed? then rest + [last.content.message.content] else rest
  }

  /** What session `k` is sent, over a run, because of the messages for this chat from this socket. */
  function Heard(f: Formats, db: Tables, steps: seq<Event>, socket: Socket, chat: Uuid, k: Uuid): seq<string> {
    if steps == [] then []
    else
      var before, last := steps[..|steps| - 1], steps[|steps| - 1];
      Heard(f, db, before, socket, chat, k)
      + if IsMessage(f, last, socket, chat) then HeardOf(Step(f, RunServer(f, db, before), last).sent, k) else []
  }

  predicate IsMessage(f: Formats, e: Event, socket: Socket, chat: Uuid) {
    e.Received? && e.socket == socket && ForChat(f, e.packet, chat)
  }

  /** When such a message is handled it is accepted, and `k` is another member's signed-in session. */
  ghost predicate Attends(f: Formats, s: State, e: Event, chat: Uuid, k: Uuid)
    requires e.Received?
  {
    && Orderly(e.env.order) && Accepted(f, e.env, s, e.packet)
    && Receives(s.clients, k, e.packet.sender, MembersSeen(s.db, chat, e.env.readFault))
  }

  ghost predicate AlwaysAttends(
    f: Formats, db: Tables, steps: seq<Event>, socket: Socket, chat: Uuid, k: Uuid)
  {
    forall i | 0 <= i < |steps| && IsMessage(f, steps[i], socket, chat) ::
      Attends(f, RunServer(f, db, steps[..i]), steps[i], chat, k)
  }

  // ------------------------------------------------------------- the server

  lemma {:induction false} OneCopy(
    clients: Sessions, order: seq<Uuid>, from: Uuid, members: set<Uuid>, m: Message, k: Uuid)
    requires NoDuplicates(order) && Receives(clients, k, from, members)
    ensures HeardOf(Copies(clients, order, from, members, m), k) == if k in order then [m.content] else []
  {
    if order == [] {
    } else {
      var n := |order| - 1;
      var before, sent := Copies(clients, order[..n], from, members, m), Copies(clients, order, from, members, m);
      OneCopy(clients, order[..n], from, members, m, k);
      SplitLast(order);
      if |sent| > |before| {
        assert sent[..|sent| - 1] == before;
      }
    }
  }

  lemma MessageHeard(f: Formats, s: State, e: Event, chat: Uuid, k: Uuid)
    requires SessionsAgree(s.clients) && e.Received? && ForChat(f, e.packet, chat) && Attends(f, s, e, chat, k)
    ensures HeardOf(Step(f, s, e).sent, k) == [f.message(e.packet.data.value).content]
  {
    var p, user := e.packet, s.clients[e.packet.sender].userId.value;
    AcceptedIsRouted(f, e.env, s, e.socket, p);
    var order := e.env.order(s.clients.Keys);
    assert Enumerates(order, s.clients.Keys);
    OneCopy(s.clients, order, p.sender, MembersSeen(s.db, chat, e.env.readFault), Stamped(f, p, user), k);
  }

  lemma PacketsFromLast(steps: seq<Event>, socket: Socket)
    requires steps != []
    ensures var before, last := steps[..|steps| - 1], steps[|steps| - 1];
      PacketsFrom(steps, socket)
      == PacketsFrom(before, socket) + if last.Received? && last.socket == socket then [last.packet] else []
  {
  }

  lemma TextsSnoc(f: Formats, ps: seq<Packet>, p: Packet, chat: Uuid)
    ensures Texts(f, ps + [p], chat)
         == Texts(f, ps, chat) + if ForChat(f, p, chat) then [f.message(p.data.value).content] else []
  {
    assert (ps + [p])[..|ps|] == ps;
  }

  /** The session is sent exactly the texts of the socket's packets, each once and in order. */
  lemma {:induction false} HeardIsRead(
    f: Formats, db: Tables, steps: seq<Event>, socket: Socket, chat: Uuid, k: Uuid)
    requires AlwaysAttends(f, db, steps, socket, chat, k)
    ensures Heard(f, db, steps, socket, chat, k) == Texts(f, PacketsFrom(steps, socket), chat)
  {
    if steps == [] {
    } else {
      var n := |steps| - 1;
      var before, last := steps[..n], steps[n];
      assert AlwaysAttends(f, db, before, socket, chat, k) by {
        assert forall i | 0 <= i < n :: before[..i] == steps[..i] && before[i] == steps[i];
      }
      HeardIsRead(f, db, before, socket, chat, k);
      PacketsFromLast(steps, socket);
      if IsMessage(f, last, socket, chat) {
        OneSessionPerUser(f, db, before);
        MessageHeard(f, RunServer(f, db, before), last, chat, k);
      }
      hide RunServer, Step, HeardOf, PacketsFrom, Texts;
      if last.Received? && last.socket == socket {
        TextsSnoc(f, PacketsFrom(before, socket), last.packet, chat);
      }
    }
  }

  // ------------------------------------------------------------- the client

  lemma TextsOfSnoc(ms: seq<P.Submission>, m: P.Submission)
    ensures TextsOf(ms + [m]) == TextsOf(ms) + [m.text]
  {
    assert (ms + [m])[..|ms|] == ms;
  }

  lemma CanonicalSnoc(ps: seq<Packet>, p: Packet)
    ensures CanonicalAll(ps + [p]) == CanonicalAll(ps) + [Canonical(p)]
  {
    assert (ps + [p])[..|ps|] == ps;
  }

  ghost predicate Writable(f: Formats, c: P.Config, t: P.Task, chat: Uuid) {
    P.WellFormed(c, t) && (t.Write? && t.origin.Interface? ==> !ForChat(f, t.packet, chat))
  }

  /** A message's packet reads as that message. */
  lemma PacketReads(f: Formats, c: P.Config, author: Uuid, server: Uuid, chat: Uuid, m: P.Submission)
    requires FormatsAgree(f, c)
    ensures var p := P.MessagePacket(c, author, server, chat, m);
      && Canonical(p) == p && p.kind == CHAT_MESSAGE && p.data.Some?
      && f.message(p.data.value) == Message(author, chat, false, m.text)
  {
    assert c.encode(author, chat, m.text) != [];
  }

  /** Read back, the packets of some tasks carry the texts of the chat's messages among them. */
  lemma {:induction false} TasksRead(f: Formats, c: P.Config, tasks: seq<P.Task>, chat: Uuid)
    requires FormatsAgree(f, c) && forall t | t in tasks :: Writable(f, c, t, chat)
    ensures Texts(f, CanonicalAll(P.PacketsIn(tasks)), chat) == TextsOf(P.MessagesOf(tasks, chat))
  {
    if tasks == [] {
    } else {
      var before, t := tasks[..|tasks| - 1], tasks[|tasks| - 1];
      SplitLast(tasks);
      TasksRead(f, c, before, chat);
      P.Snoc(before, t, chat);
      assert Writable(f, c, t, chat);
      if t.Write? {
        TaskReads(f, c, t, chat);
        hide FormatsAgree, Texts, TextsOf, CanonicalAll, P.PacketsIn, P.MessagesOf, ForChat, Canonical, Writable;
        CanonicalSnoc(P.PacketsIn(before), t.packet);
        TextsSnoc(f, CanonicalAll(P.PacketsIn(before)), Canonical(t.packet), chat);
        if t.origin.FromChat? && t.origin.chat == chat {
          TextsOfSnoc(P.MessagesOf(before, chat), t.origin.message);
        }
      }
    }
  }

  lemma TaskReads(f: Formats, c: P.Config, t: P.Task, chat: Uuid)
    requires FormatsAgree(f, c) && Writable(f, c, t, chat) && t.Write?
    ensures ForChat(f, Canonical(t.packet), chat) <==> t.origin.FromChat? && t.origin.chat == chat
    ensures ForChat(f, Canonical(t.packet), chat) ==>
      f.message(Canonical(t.packet).data.value).content == t.origin.message.text
  {
    if t.origin.FromChat? {
      var author, server :| t.packet == P.MessagePacket(c, author, server, t.origin.chat, t.origin.message);
      PacketReads(f, c, author, server, t.origin.chat, t.origin.message);
    }
  }

  lemma {:induction false} RequestAmong(tasks: seq<P.Task>, t: P.Task)
    requires t in tasks && t.Write? && t.origin.Interface?
    ensures t.packet in P.RequestsIn(tasks)
  {
    var before := tasks[..|tasks| - 1];
    SplitLast(tasks);
    if t in before {
      RequestAmong(before, t);
    }
  }

  /** What the client has written reads as the messages submitted to the chat, as far as they are
      written. */
  lemma WireReads(f: Formats, c: P.Config, steps: seq<P.Step>, chat: Uuid)
    requires FormatsAgree(f, c)
    requires forall p | p in P.Run(c, steps).requested :: !ForChat(f, p, chat)
    ensures var s := P.Run(c, steps);
      && Texts(f, F.PacketsOf(s.wire), chat) == TextsOf(P.MessagesOf(s.done, chat))
      && P.MessagesOf(s.done, chat) <= P.SubmittedOf(s, chat)
  {
    var s := P.Run(c, steps);
    P.RunInvariants(c, steps, chat);
    P.ProjectionsConcat(s.done, s.queue, chat);
    F.FramesDecode(P.PacketsIn(s.done));
    forall t | t in s.done ensures Writable(f, c, t, chat) {
      assert t in s.done + s.queue;
      if t.Write? && t.origin.Interface? {
        RequestAmong(s.done + s.queue, t);
      }
    }
    hide P.Run, P.MessagesOf, P.PacketsIn, Texts, TextsOf;
    TasksRead(f, c, s.done, chat);
  }

  // ---------------------------------------------------------- from end to end

  lemma {:induction false} TextsConcat(f: Formats, a: seq<Packet>, b: seq<Packet>, chat: Uuid)
    ensures Texts(f, a + b, chat) == Texts(f, a, chat) + Texts(f, b, chat)
  {
    if b == [] {
      assert a + b == a;
    } else {
      hide *;
      var m, x := b[..|b| - 1], b[|b| - 1];
      SplitLast(b);
      ConcatAssociative(a, m, [x]);
      TextsConcat(f, a, m, chat);
      TextsSnoc(f, a + m, x, chat);
      TextsSnoc(f, m, x, chat);
    }
  }

  /** Less of the stream reads as fewer messages of it, from the front. */
  lemma PartReads(f: Formats, part: seq<byte>, whole: seq<byte>, chat: Uuid)
    requires part <= whole
    ensures Texts(f, F.PacketsOf(part), chat) <= Texts(f, F.PacketsOf(whole), chat)
  {
    var rest := whole[|part|..];
    assert whole == part + rest;
    F.ParseResumes(part, rest);
    TextsConcat(f, F.PacketsOf(part), F.PacketsOf(F.Residue(part) + rest), chat);
  }

  lemma {:induction false} TextsOfPrefix(a: seq<P.Submission>, b: seq<P.Submission>)
    requires a <= b
    ensures TextsOf(a) <= TextsOf(b)
  {
    if a == b {
    } else {
      assert b[..|b| - 1][..|a|] == a;
      TextsOfPrefix(a, b[..|b| - 1]);
    }
  }

  /** What one life of a socket that was opened once brought is all that was read from it. */
  lemma OnlyLife(signals: seq<Signal>, socket: Socket, received: seq<byte>)
    requires Lifetimes(SocketEvents(signals), socket) == [[], received]
    ensures PacketsFrom(AllSteps(signals), socket) == F.PacketsOf(received)
  {
    StepsFollowLog(signals, socket);
    StreamIsolation(SocketEvents(signals), socket);
    NoPackets();
    PacketsOfEachSnoc([[]], received);
    assert [[]] + [received] == [[], received];
  }

  /** For any interleaving of the sender threads with the interface, any cutting of the stream, and any
      interleaving with other sockets: the messages submitted to a chat reach every other member's
      session in the order of submission, none twice and none passed over, as far as their bytes have
      arrived; and once everything written has arrived, all that was written has been routed. The
      messages must be accepted when they are handled, with the member's session signed in. */
  lemma {:induction false} DeliveredInOrder(
    f: Formats, c: P.Config, steps: seq<P.Step>, db: Tables, signals: seq<Signal>, socket: Socket,
    received: seq<byte>, chat: Uuid, k: Uuid)
    requires FormatsAgree(f, c)
    requires forall p | p in P.Run(c, steps).requested :: !ForChat(f, p, chat)
    requires Lifetimes(SocketEvents(signals), socket) == [[], received] && received <= P.Run(c, steps).wire
    requires AlwaysAttends(f, db, AllSteps(signals), socket, chat, k)
    ensures var s, heard := P.Run(c, steps), Heard(f, db, AllSteps(signals), socket, chat, k);
      && heard <= TextsOf(P.SubmittedOf(s, chat))
      && (received == s.wire ==> heard == TextsOf(P.MessagesOf(s.done, chat)))
  {
    var s := P.Run(c, steps);
    hide *;
    HeardIsRead(f, db, AllSteps(signals), socket, chat, k);
    OnlyLife(signals, socket, received);
    WireReads(f, c, steps, chat);
    PartReads(f, received, s.wire, chat);
    TextsOfPrefix(P.MessagesOf(s.done, chat), P.SubmittedOf(s, chat));
  }
}
