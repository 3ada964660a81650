/** The client's way out: `client/src/Chat.cpp` hands each message to its own sender thread
    (`client/src/MessageSender.cpp`), which posts a write to the main thread's event queue
    (`client/src/Client.cpp`); the main thread writes to the socket. Every step of either kind of
    thread is one transition, and any interleaving of them is a run. */
module Pipeline {
  import opened Prelude
  import opened PacketCodec
  import opened Framing

  /** A ChatMessage as far as sending goes. */
  datatype Submission = Submission(id: Uuid, text: string)

  datatype Origin = Interface | FromChat(chat: Uuid, message: Submission)

  /** An entry of the main thread's event queue: a closure that writes these bytes, or the news
      that a message was sent. Where the bytes come from is kept for the statements below. */
  datatype Task =
    | Write(bytes: seq<byte>, packet: Packet, origin: Origin)
    | SentNotice(chat: Uuid, messageId: Uuid)

  /** Where a sender thread is inside `processMessage`. */
  datatype Sender = Idle | Processing(message: Submission) | Posted(message: Submission)

  datatype Pipe = Pipe(
    submitted: map<Uuid, seq<Submission>>,
    inbox: map<Uuid, seq<Submission>>,
    senders: map<Uuid, Sender>,
    queue: seq<Task>,
    done: seq<Task>,
    wire: seq<byte>,
    sent: set<(Uuid, Uuid)>,
    requested: seq<Packet>)

  const START := Pipe(map[], map[], map[], [], [], [], {}, [])

  /** This client's session, the text format of a message, and text trimming. */
  datatype Config = Config(session: Uuid, encode: (Uuid, Uuid, string) -> seq<byte>, trimmed: string -> string)

  datatype Step =
    | Submit(chat: Uuid, message: Submission)
    | Take(chat: Uuid)
    | Post(chat: Uuid, connected: bool, author: Uuid, server: Uuid)
    | Notify(chat: Uuid)
    | Request(packet: Packet)
    | RunMain

  function InboxOf(s: Pipe, chat: Uuid): seq<Submission> {
    if chat in s.inbox then s.inbox[chat] else []
  }

  function SubmittedOf(s: Pipe, chat: Uuid): seq<Submission> {
    if chat in s.submitted then s.submitted[chat] else []
  }

  function SenderOf(s: Pipe, chat: Uuid): Sender {
    if chat in s.senders then s.senders[chat] else Idle
  }

  function MessagePacket(c: Config, author: Uuid, server: Uuid, chat: Uuid, m: Submission): Packet {
    Packet(CHAT_MESSAGE, c.session, server, Some(c.encode(author, chat, m.text)))
  }

  function Next(c: Config, s: Pipe, e: Step): Pipe {
    match e
    case Submit(chat, m) =>
      // Blank text is not submitted.
      if c.trimmed(m.text) == "" then s
      else s.(submitted := s.submitted[chat := SubmittedOf(s, chat) + [m]],
              inbox := s.inbox[chat := InboxOf(s, chat) + [m]])
    case Take(chat) =>
      if SenderOf(s, chat) != Idle || InboxOf(s, chat) == [] then s
      else s.(senders := s.senders[chat := Processing(InboxOf(s, chat)[0])],
              inbox := s.inbox[chat := InboxOf(s, chat)[1..]])
    case Post(chat, connected, author, server) =>
      // The thread spins until the client is connected.
      if !SenderOf(s, chat).Processing? || !connected then s
      else
        var m := SenderOf(s, chat).message;
        var p := MessagePacket(c, author, server, chat, m);
        s.(senders := s.senders[chat := Posted(m)],
           queue := s.queue + [Write(Encoded(p), p, FromChat(chat, m))])
    case Notify(chat) =>
      if !SenderOf(s, chat).Posted? then s
      else s.(senders := s.senders[chat := Idle],
              queue := s.queue + [SentNotice(chat, SenderOf(s, chat).message.id)])
    case Request(p) => s.(queue := s.queue + [Write(Encoded(p), p, Interface)], requested := s.requested + [p])
    case RunMain =>
      if s.queue == [] then s
      else
        var task := s.queue[0];
        var s' := s.(queue := s.queue[1..], done := s.done + [task]);
        if task.Write? then s'.(wire := s.wire + task.bytes)
        else s'.(sent := s.sent + {(task.chat, task.messageId)})
  }

  function Run(c: Config, steps: seq<Step>): Pipe {
    if steps == [] then START else Next(c, Run(c, steps[..|steps| - 1]), steps[|steps| - 1])
  }

  // ------------------------------------------------------------ projections

  /** The messages of one chat among some tasks, in order. */
  function MessagesOf(tasks: seq<Task>, chat: Uuid): seq<Submission> {
    if tasks == [] then []
    else
      var rest, t := MessagesOf(tasks[..|tasks| - 1], chat), tasks[|tasks| - 1];
      if t.Write? && t.origin.FromChat? && t.origin.chat == chat then rest + [t.origin.message] else rest
  }

  /** The packets of the writes among some tasks, in order. */
  function PacketsIn(tasks: seq<Task>): seq<Packet> {
    if tasks == [] then []
    else
      var rest, t := PacketsIn(tasks[..|tasks| - 1]), tasks[|tasks| - 1];
      if t.Write? then rest + [t.packet] else rest
  }

  /** The packets among them that the interface itself requested, in order. */
  function RequestsIn(tasks: seq<Task>): seq<Packet> {
    if tasks == [] then []
    else
      var rest, t := RequestsIn(tasks[..|tasks| - 1]), tasks[|tasks| - 1];
      if t.Write? && t.origin.Interface? then rest + [t.packet] else rest
  }

  /** A message that a sender thread has taken but not yet posted. */
  function InHand(s: Pipe, chat: Uuid): seq<Submission> {
    if SenderOf(s, chat).Processing? then [SenderOf(s, chat).message] else []
  }

  lemma Snoc(tasks: seq<Task>, t: Task, chat: Uuid)
    ensures MessagesOf(tasks + [t], chat) == MessagesOf(tasks, chat)
      + if t.Write? && t.origin.FromChat? && t.origin.chat == chat then [t.origin.message] else []
    ensures PacketsIn(tasks + [t]) == PacketsIn(tasks) + if t.Write? then [t.packet] else []
    ensures RequestsIn(tasks + [t]) == RequestsIn(tasks) + if t.Write? && t.origin.Interface? then [t.packet] else []
  {
    assert (tasks + [t])[..|tasks|] == tasks;
  }

  lemma {:induction false} ProjectionsConcat(a: seq<Task>, b: seq<Task>, chat: Uuid)
    ensures MessagesOf(a + b, chat) == MessagesOf(a, chat) + MessagesOf(b, chat)
    ensures RequestsIn(a + b) == RequestsIn(a) + RequestsIn(b)
  {
    if b == [] {
      assert a + b == a;
    } else {
      hide *;
      var m, x := b[..|b| - 1], b[|b| - 1];
      SplitLast(b);
      ConcatAssociative(a, m, [x]);
      ProjectionsConcat(a, m, chat);
      Snoc(a + m, x, chat);
      Snoc(m, x, chat);
    }
  }

  // ------------------------------------------------------------- wire merge

  /** Each message is in exactly one place: written or waiting on the main thread, in the hands of
      its sender thread, or still in that thread's queue; and each place keeps their order. */
  ghost predicate Accounted(s: Pipe, chat: Uuid) {
    SubmittedOf(s, chat) == MessagesOf(s.done + s.queue, chat) + InHand(s, chat) + InboxOf(s, chat)
  }

  lemma SubmitAccounts(c: Config, s: Pipe, other: Uuid, m: Submission, chat: Uuid)
    requires Accounted(s, chat)
    ensures Accounted(Next(c, s, Submit(other, m)), chat)
  {
    hide MessagesOf;
    var before := MessagesOf(s.done + s.queue, chat) + InHand(s, chat);
    ConcatAssociative(before, InboxOf(s, chat), [m]);
  }

  lemma TakeAccounts(c: Config, s: Pipe, other: Uuid, chat: Uuid)
    requires Accounted(s, chat)
    ensures Accounted(Next(c, s, Take(other)), chat)
  {
    hide MessagesOf;
    if other == chat && SenderOf(s, chat) == Idle && InboxOf(s, chat) != [] {
      var written, waiting := MessagesOf(s.done + s.queue, chat), InboxOf(s, chat);
      assert written + [] == written;
      assert [waiting[0]] + waiting[1..] == waiting;
      ConcatAssociative(written, [waiting[0]], waiting[1..]);
    }
  }

  /** A task is added to the main thread's queue, and the message it carries, if it is of this
      chat, leaves the hands of the sender. */
  lemma PostAccounts(s: Pipe, s': Pipe, t: Task, chat: Uuid)
    requires Accounted(s, chat)
    requires s'.done == s.done && s'.queue == s.queue + [t]
    requires SubmittedOf(s', chat) == SubmittedOf(s, chat) && InboxOf(s', chat) == InboxOf(s, chat)
    requires if t.Write? && t.origin.FromChat? && t.origin.chat == chat
      then InHand(s, chat) == [t.origin.message] && InHand(s', chat) == []
      else InHand(s', chat) == InHand(s, chat)
    ensures Accounted(s', chat)
  {
    hide MessagesOf, InHand, InboxOf, SubmittedOf;
    assert s'.done + s'.queue == (s.done + s.queue) + [t];
    Snoc(s.done + s.queue, t, chat);
    var written := MessagesOf(s.done + s.queue, chat);
    assert written + [] == written;
    assert (written + InHand(s, chat)) + [] == written + InHand(s, chat);
  }

  lemma StepAccounts(c: Config, s: Pipe, e: Step, chat: Uuid)
    requires Accounted(s, chat)
    ensures Accounted(Next(c, s, e), chat)
  {
    hide MessagesOf, Encoded;
    var s' := Next(c, s, e);
    match e
    case Submit(other, m) => SubmitAccounts(c, s, other, m, chat);
    case Take(other) => TakeAccounts(c, s, other, chat);
    case RunMain => assert s'.done + s'.queue == s.done + s.queue;
    case _ =>
      if |s'.queue| > |s.queue| {
        PostAccounts(s, s', s'.queue[|s.queue|], chat);
      }
  }

  /** Each packet the interface requested is written or waiting on the main thread, in order. */
  ghost predicate RequestsAccounted(s: Pipe) {
    s.requested == RequestsIn(s.done + s.queue)
  }

  lemma StepRequests(c: Config, s: Pipe, e: Step)
    requires RequestsAccounted(s)
    ensures RequestsAccounted(Next(c, s, e))
  {
    hide RequestsIn, Encoded;
    var s' := Next(c, s, e);
    if |s'.queue| > |s.queue| {
      var t := s'.queue[|s.queue|];
      assert s'.done + s'.queue == (s.done + s.queue) + [t];
      Snoc(s.done + s.queue, t, NULL_UUID);
    } else {
      assert s'.done + s'.queue == s.done + s.queue;
    }
  }

  /** What the main thread has written is the frames of the writes it has run, in order, and every
      write carries its packet's frame; a chat's writes carry that chat's messages. */
  ghost predicate FramesInOrder(c: Config, s: Pipe) {
    && s.wire == EncodedAll(PacketsIn(s.done))
    && (forall t | t in s.done + s.queue :: WellFormed(c, t))
  }

  ghost predicate WellFormed(c: Config, t: Task) {
    t.Write? ==>
      && t.bytes == Encoded(t.packet)
      && (t.origin.FromChat? ==> exists author, server ::
            t.packet == MessagePacket(c, author, server, t.origin.chat, t.origin.message))
  }

  lemma StepFrames(c: Config, s: Pipe, e: Step)
    requires FramesInOrder(c, s)
    ensures FramesInOrder(c, Next(c, s, e))
  {
    hide PacketsIn, EncodedAll, Encoded;
    if e.RunMain? && s.queue != [] {
      var t, s' := s.queue[0], Next(c, s, e);
      assert s'.done + s'.queue == s.done + s.queue;
      assert t in s.done + s.queue && WellFormed(c, t);
      Snoc(s.done, t, NULL_UUID);
      if t.Write? {
        EncodedAllSnoc(PacketsIn(s.done), t.packet);
      } else {
        assert PacketsIn(s'.done) == PacketsIn(s.done);
      }
    } else if e.Post? && SenderOf(s, e.chat).Processing? {
      assert WellFormed(c, Write(
        Encoded(MessagePacket(c, e.author, e.server, e.chat, SenderOf(s, e.chat).message)),
        MessagePacket(c, e.author, e.server, e.chat, SenderOf(s, e.chat).message),
        FromChat(e.chat, SenderOf(s, e.chat).message)));
    }
  }

  lemma {:induction false} RunInvariants(c: Config, steps: seq<Step>, chat: Uuid)
    ensures Accounted(Run(c, steps), chat) && RequestsAccounted(Run(c, steps)) && FramesInOrder(c, Run(c, steps))
  {
    if steps == [] {
    } else {
      var before := steps[..|steps| - 1];
      RunInvariants(c, before, chat);
      StepAccounts(c, Run(c, before), steps[|steps| - 1], chat);
      StepRequests(c, Run(c, before), steps[|steps| - 1]);
      StepFrames(c, Run(c, before), steps[|steps| - 1]);
    }
  }

  /** For every interleaving of the sender threads and the main thread: the bytes written, however
      the transport cuts them, decode to the packets written, in that order, with nothing left
      over; and for every chat, what was submitted is what was written, then what waits in the
      main queue, then what its sender thread holds, then what waits for that thread; and what the
      interface requested is what was written for it, then what waits in the main queue - nothing
      lost, doubled or reordered. */
  lemma {:induction false} WireMerge(c: Config, steps: seq<Step>, chat: Uuid, chunks: seq<seq<byte>>)
    requires Flatten(chunks) == Run(c, steps).wire
    ensures var s := Run(c, steps);
      && FeedPackets(chunks) == CanonicalAll(PacketsIn(s.done))
      && FeedBuffer(chunks) == []
      && SubmittedOf(s, chat)
         == MessagesOf(s.done, chat) + MessagesOf(s.queue, chat) + InHand(s, chat) + InboxOf(s, chat)
      && s.requested == RequestsIn(s.done) + RequestsIn(s.queue)
      && forall t | t in s.done && t.Write? && t.origin.FromChat? ::
           exists author, server :: t.packet == MessagePacket(c, author, server, t.origin.chat, t.origin.message)
  {
    var s := Run(c, steps);
    RunInvariants(c, steps, chat);
    TransportRoundTrip(PacketsIn(s.done), chunks);
    ProjectionsConcat(s.done, s.queue, chat);
    forall t | t in s.done && t.Write? && t.origin.FromChat?
      ensures exists author, server :: t.packet == MessagePacket(c, author, server, t.origin.chat, t.origin.message)
    {
      assert t in s.done + s.queue;
      assert WellFormed(c, t);
    }
  }

  // ------------------------------------------------------- sent means written

  predicate WritesMessage(t: Task, chat: Uuid, messageId: Uuid) {
    t.Write? && t.origin.FromChat? && t.origin.chat == chat && t.origin.message.id == messageId
  }

  ghost predicate WrittenIn(tasks: seq<Task>, chat: Uuid, messageId: Uuid) {
    exists i :: 0 <= i < |tasks| && WritesMessage(tasks[i], chat, messageId)
  }

  /** Every notice comes after the write it reports, in the order the main thread runs them; a
      sender that is about to give notice has posted its write; and a message is marked as sent
      only when its notice has been run. */
  ghost predicate NoticesFollowWrites(s: Pipe) {
    var posted := s.done + s.queue;
    && (forall k | 0 <= k < |posted| && posted[k].SentNotice? ::
          WrittenIn(posted[..k], posted[k].chat, posted[k].messageId))
    && (forall chat | chat in s.senders && s.senders[chat].Posted? ::
          WrittenIn(posted, chat, s.senders[chat].message.id))
    && (forall m | m in s.sent :: SentNotice(m.0, m.1) in s.done)
  }

  lemma WrittenMonotone(tasks: seq<Task>, more: seq<Task>, chat: Uuid, messageId: Uuid)
    requires WrittenIn(tasks, chat, messageId) && tasks <= more
    ensures WrittenIn(more, chat, messageId)
  {
    var i :| 0 <= i < |tasks| && WritesMessage(tasks[i], chat, messageId);
    assert WritesMessage(more[i], chat, messageId);
  }

  /** Posting one more task keeps the order, when a notice reports a write already posted. */
  lemma PostOne(posted: seq<Task>, t: Task)
    requires forall k | 0 <= k < |posted| && posted[k].SentNotice? ::
      WrittenIn(posted[..k], posted[k].chat, posted[k].messageId)
    requires t.SentNotice? ==> WrittenIn(posted, t.chat, t.messageId)
    ensures var more := posted + [t];
      forall k | 0 <= k < |more| && more[k].SentNotice? :: WrittenIn(more[..k], more[k].chat, more[k].messageId)
  {
    var more := posted + [t];
    forall k | 0 <= k < |more| && more[k].SentNotice?
      ensures WrittenIn(more[..k], more[k].chat, more[k].messageId)
    {
      assert more[..k] == posted[..k];
      if k < |posted| {
        assert more[k] == posted[k];
      } else {
        assert posted[..k] == posted;
      }
    }
  }

  lemma LastWritten(posted: seq<Task>, t: Task, chat: Uuid, messageId: Uuid)
    requires WritesMessage(t, chat, messageId)
    ensures WrittenIn(posted + [t], chat, messageId)
  {
    assert WritesMessage((posted + [t])[|posted|], chat, messageId);
  }

  lemma StepNotices(c: Config, s: Pipe, e: Step)
    requires NoticesFollowWrites(s)
    ensures NoticesFollowWrites(Next(c, s, e))
  {
    hide WrittenIn, Encoded;
    var s' := Next(c, s, e);
    var posted := s.done + s.queue;
    if |s'.queue| > |s.queue| {
      var t := s'.queue[|s.queue|];
      assert s'.done + s'.queue == posted + [t];
      PostOne(posted, t);
      forall chat | chat in s'.senders && s'.senders[chat].Posted?
        ensures WrittenIn(posted + [t], chat, s'.senders[chat].message.id)
      {
        if e.Post? && e.chat == chat {
          LastWritten(posted, t, chat, s'.senders[chat].message.id);
        } else {
          WrittenMonotone(posted, posted + [t], chat, s'.senders[chat].message.id);
        }
      }
    } else {
      assert s'.done + s'.queue == posted;
    }
  }

  lemma {:induction false} RunNotices(c: Config, steps: seq<Step>)
    ensures NoticesFollowWrites(Run(c, steps))
  {
    if steps == [] {
    } else {
      RunNotices(c, steps[..|steps| - 1]);
      StepNotices(c, Run(c, steps[..|steps| - 1]), steps[|steps| - 1]);
    }
  }

  // ---------------------------------------------------- what was asked for

  /** The messages submitted to a chat in these steps: those whose text is not blank. */
  function SubmissionsIn(c: Config, steps: seq<Step>, chat: Uuid): seq<Submission> {
    if steps == [] then []
    else
      var rest, e := SubmissionsIn(c, steps[..|steps| - 1], chat), steps[|steps| - 1];
      if e.Submit? && e.chat == chat && c.trimmed(e.message.text) != "" then rest + [e.message] else rest
  }

  function RequestSteps(steps: seq<Step>): seq<Packet> {
    if steps == [] then []
    else
      var rest, e := RequestSteps(steps[..|steps| - 1]), steps[|steps| - 1];
      if e.Request? then rest + [e.packet] else rest
  }

  /** What counts as submitted and requested is what was: every submission that is not blank and every
      request, in order. */
  lemma {:induction false} SubmittedIsAsked(c: Config, steps: seq<Step>, chat: Uuid)
    ensures SubmittedOf(Run(c, steps), chat) == SubmissionsIn(c, steps, chat)
    ensures Run(c, steps).requested == RequestSteps(steps)
  {
    if steps == [] {
    } else {
      SubmittedIsAsked(c, steps[..|steps| - 1], chat);
      SubmittedStep(c, Run(c, steps[..|steps| - 1]), steps[|steps| - 1], chat);
      hide Next, SubmittedOf;
    }
  }

  lemma SubmittedStep(c: Config, s: Pipe, e: Step, chat: Uuid)
    ensures SubmittedOf(Next(c, s, e), chat)
         == if e.Submit? && e.chat == chat && c.trimmed(e.message.text) != "" then SubmittedOf(s, chat) + [e.message]
            else SubmittedOf(s, chat)
    ensures Next(c, s, e).requested == if e.Request? then s.requested + [e.packet] else s.requested
  {
    hide Encoded;
  }

  // --------------------------------------------------------- one notice a message

  function NoticesOf(tasks: seq<Task>, chat: Uuid): seq<Uuid> {
    if tasks == [] then []
    else
      var rest, t := NoticesOf(tasks[..|tasks| - 1], chat), tasks[|tasks| - 1];
      if t.SentNotice? && t.chat == chat then rest + [t.messageId] else rest
  }

  function IdsOf(ms: seq<Submission>): seq<Uuid> {
    if ms == [] then [] else IdsOf(ms[..|ms| - 1]) + [ms[|ms| - 1].id]
  }

  /** A message that its sender thread has posted but not yet given notice of. */
  function ToNotify(s: Pipe, chat: Uuid): seq<Uuid> {
    if SenderOf(s, chat).Posted? then [SenderOf(s, chat).message.id] else []
  }

  /** A chat's notices are those of its posted messages, one each and in order, but for the one that is
      still to be given. */
  ghost predicate NoticesMatch(s: Pipe, chat: Uuid) {
    IdsOf(MessagesOf(s.done + s.queue, chat)) == NoticesOf(s.done + s.queue, chat) + ToNotify(s, chat)
  }

  /** The messages marked as sent are exactly those whose notice has been run. */
  ghost predicate SentIsNoticed(s: Pipe) {
    forall m :: m in s.sent <==> SentNotice(m.0, m.1) in s.done
  }

  lemma IdsSnoc(ms: seq<Submission>, m: Submission)
    ensures IdsOf(ms + [m]) == IdsOf(ms) + [m.id]
  {
    assert (ms + [m])[..|ms|] == ms;
  }

  /** What one more task adds to the posted ids and to the notices of a chat. */
  lemma TaskAdded(tasks: seq<Task>, t: Task, chat: Uuid)
    ensures NoticesOf(tasks + [t], chat)
         == NoticesOf(tasks, chat) + if t.SentNotice? && t.chat == chat then [t.messageId] else []
    ensures IdsOf(MessagesOf(tasks + [t], chat))
         == IdsOf(MessagesOf(tasks, chat))
          + if t.Write? && t.origin.FromChat? && t.origin.chat == chat then [t.origin.message.id] else []
  {
    assert (tasks + [t])[..|tasks|] == tasks;
    Snoc(tasks, t, chat);
    hide MessagesOf, NoticesOf, IdsOf;
    if t.Write? && t.origin.FromChat? && t.origin.chat == chat {
      IdsSnoc(MessagesOf(tasks, chat), t.origin.message);
    } else {
      assert MessagesOf(tasks, chat) + [] == MessagesOf(tasks, chat);
      assert IdsOf(MessagesOf(tasks, chat)) + [] == IdsOf(MessagesOf(tasks, chat));
    }
  }

  /** One more task, and what it leaves to notify of. */
  lemma AddedMatches(s: Pipe, s': Pipe, t: Task, chat: Uuid)
    requires NoticesMatch(s, chat) && s'.done + s'.queue == s.done + s.queue + [t]
    requires if t.Write? && t.origin.FromChat? && t.origin.chat == chat
      then ToNotify(s, chat) == [] && ToNotify(s', chat) == [t.origin.message.id]
      else if t.SentNotice? && t.chat == chat
      then ToNotify(s, chat) == [t.messageId] && ToNotify(s', chat) == []
      else ToNotify(s', chat) == ToNotify(s, chat)
    ensures NoticesMatch(s', chat)
  {
    hide MessagesOf, NoticesOf, IdsOf, ToNotify;
    TaskAdded(s.done + s.queue, t, chat);
  }

  lemma StepNoticesMatch(c: Config, s: Pipe, e: Step, chat: Uuid)
    requires NoticesMatch(s, chat)
    ensures NoticesMatch(Next(c, s, e), chat)
  {
    hide MessagesOf, NoticesOf, IdsOf, Encoded;
    var s' := Next(c, s, e);
    if |s'.queue| > |s.queue| {
      var t := s'.queue[|s.queue|];
      assert s'.done + s'.queue == s.done + s.queue + [t];
      hide NoticesMatch;
      AddedMatches(s, s', t, chat);
    } else {
      assert s'.done + s'.queue == s.done + s.queue;
      assert ToNotify(s', chat) == ToNotify(s, chat);
    }
  }

  lemma StepSentIsNoticed(c: Config, s: Pipe, e: Step)
    requires SentIsNoticed(s)
    ensures SentIsNoticed(Next(c, s, e))
  {
    hide Encoded;
  }

  /** In every interleaving each message posted by a chat gets one notice, in the order of posting, and
      is marked as sent exactly when that notice has been run. */
  lemma {:induction false} OneNoticeEach(c: Config, steps: seq<Step>, chat: Uuid)
    ensures NoticesMatch(Run(c, steps), chat) && SentIsNoticed(Run(c, steps))
  {
    if steps == [] {
    } else {
      var s := Run(c, steps[..|steps| - 1]);
      OneNoticeEach(c, steps[..|steps| - 1], chat);
      StepNoticesMatch(c, s, steps[|steps| - 1], chat);
      StepSentIsNoticed(c, s, steps[|steps| - 1]);
    }
  }

  // ------------------------------------------------------------ who wrote what

  /** The write was posted by a step of the chat's sender thread while connected, naming as author and
      server whoever it found then. */
  ghost predicate PostedBy(c: Config, steps: seq<Step>, t: Task) {
    t.Write? && t.origin.FromChat? ==>
      exists i :: 0 <= i < |steps| && Posts(c, steps[i], t)
  }

  predicate Posts(c: Config, e: Step, t: Task)
    requires t.Write? && t.origin.FromChat?
  {
    && e.Post? && e.chat == t.origin.chat && e.connected
    && t.packet.kind == CHAT_MESSAGE && t.packet.sender == c.session && t.packet.receiver == e.server
    && t.packet.data == Some(c.encode(e.author, e.chat, t.origin.message.text))
  }

  /** In every interleaving each message on its way was posted while the client was connected, from this
      session to the server, under the user and for the chat it was written in. */
  lemma {:induction false} WrittenWhileConnected(c: Config, steps: seq<Step>)
    ensures forall t | t in Run(c, steps).done + Run(c, steps).queue :: PostedBy(c, steps, t)
  {
    if steps == [] {
    } else {
      var n := |steps| - 1;
      var before, s, s' := steps[..n], Run(c, steps[..n]), Run(c, steps);
      WrittenWhileConnected(c, before);
      forall t | t in s'.done + s'.queue ensures PostedBy(c, steps, t) {
        TaskFromStep(c, s, steps[n], t);
        if t in s.done + s.queue {
          PostedBefore(c, before, steps[n], t);
          SplitLast(steps);
        }
      }
      hide Next;
    }
  }

  /** A task that is not there before a step is posted by it. */
  lemma TaskFromStep(c: Config, s: Pipe, e: Step, t: Task)
    requires t in Next(c, s, e).done + Next(c, s, e).queue
    ensures t in s.done + s.queue || (t.Write? && t.origin.FromChat? ==> Posts(c, e, t))
  {
    hide Encoded;
  }

  lemma PostedBefore(c: Config, before: seq<Step>, e: Step, t: Task)
    requires PostedBy(c, before, t)
    ensures PostedBy(c, before + [e], t)
  {
    if t.Write? && t.origin.FromChat? {
      var i :| 0 <= i < |before| && Posts(c, before[i], t);
      assert Posts(c, (before + [e])[i], t);
    }
  }

  /** The whole frame of this packet stands between whole frames. */
  ghost predicate OnWire(wire: seq<byte>, p: Packet) {
    exists before, after :: wire == EncodedAll(before) + Encoded(p) + EncodedAll(after)
  }

  lemma FrameOnWire(tasks: seq<Task>, i: nat)
    requires i < |tasks| && tasks[i].Write?
    ensures OnWire(EncodedAll(PacketsIn(tasks)), tasks[i].packet)
  {
    hide *;
    var before, t := tasks[..i], tasks[i];
    assert tasks[..i + 1] == before + [t];
    PrefixPackets(tasks, i + 1);
    Snoc(before, t, NULL_UUID);
    FrameAmong(PacketsIn(tasks), PacketsIn(before), t.packet);
  }

  lemma FrameAmong(all: seq<Packet>, before: seq<Packet>, p: Packet)
    requires before + [p] <= all
    ensures OnWire(EncodedAll(all), p)
  {
    hide EncodedAll, Encoded;
    var after := all[|before| + 1..];
    assert all == (before + [p]) + after;
    EncodedAllConcat(before + [p], after);
    EncodedAllSnoc(before, p);
  }

  lemma {:induction false} PrefixPackets(tasks: seq<Task>, i: nat)
    requires i <= |tasks|
    ensures PacketsIn(tasks[..i]) <= PacketsIn(tasks)
  {
    if i == |tasks| {
      assert tasks[..i] == tasks;
    } else {
      var m := tasks[..|tasks| - 1];
      assert m[..i] == tasks[..i];
      PrefixPackets(m, i);
    }
  }

  /** In every interleaving, a message is marked as sent only after its whole frame was handed to
      the socket: the frame stands on the wire, after whole frames and before whole frames. */
  lemma SentMeansWritten(c: Config, steps: seq<Step>, chat: Uuid, messageId: Uuid)
    requires (chat, messageId) in Run(c, steps).sent
    ensures exists author, server, m: Submission ::
      && m.id == messageId && m in SubmittedOf(Run(c, steps), chat)
      && OnWire(Run(c, steps).wire, MessagePacket(c, author, server, chat, m))
  {
    var s := Run(c, steps);
    RunNotices(c, steps);
    RunInvariants(c, steps, chat);
    hide Run, EncodedAll, Encoded, PacketsIn, MessagesOf, OnWire;
    var notice := SentNotice(chat, messageId);
    assert notice in s.done;
    var k :| 0 <= k < |s.done| && s.done[k] == notice;
    var posted := s.done + s.queue;
    assert posted[k] == notice && posted[..k] == s.done[..k];
    var i :| 0 <= i < k && WritesMessage(posted[..k][i], chat, messageId);
    var t := s.done[i];
    assert t == posted[..k][i] && t in posted;
    assert WellFormed(c, t);
    var author, server :| t.packet == MessagePacket(c, author, server, chat, t.origin.message);
    WrittenWasSubmitted(s.done, i, chat);
    ProjectionsConcat(s.done, s.queue, chat);
    assert t.origin.message in SubmittedOf(s, chat);
    FrameOnWire(s.done, i);
  }

  lemma {:induction false} WrittenWasSubmitted(tasks: seq<Task>, i: nat, chat: Uuid)
    requires i < |tasks| && tasks[i].Write? && tasks[i].origin.FromChat? && tasks[i].origin.chat == chat
    ensures tasks[i].origin.message in MessagesOf(tasks, chat)
  {
    var n := |tasks| - 1;
    if i < n {
      assert tasks[..n][i] == tasks[i];
      WrittenWasSubmitted(tasks[..n], i, chat);
    }
  }
}
