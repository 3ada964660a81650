/** What holds of the server over every run. */
module ServerProofs {
  import opened Prelude
  import opened PacketCodec
  import opened Tables
  import opened ChatCreation
  import opened Streams
  import opened ServerModel

  // ------------------------------------------------- one session per user

  /** Each key is its connection's session id; a connection is authorized exactly when it stores
      a user id; and no two connections are authorized as the same user. */
  ghost predicate SessionsAgree(clients: Sessions) {
    && (forall k | k in clients :: clients[k].sessionId == k)
    && (forall k | k in clients :: clients[k].isAuthorized <==> clients[k].userId.Some?)
    && (forall j, k | j in clients && k in clients && j != k ::
          clients[j].userId.Some? ==> clients[j].userId != clients[k].userId)
  }

  lemma LoginKeepsSessions(f: Formats, env: Env, s: State, socket: Socket, p: Packet)
    requires SessionsAgree(s.clients)
    ensures SessionsAgree(LoginUser(f, env, s, socket, p).state.clients)
  {
    if p.sender in s.clients && p.data.Some? && f.login(p.data.value).Some? {
      var c := s.clients[p.sender];
      var user := Authenticate(s.db, f.login(p.data.value).value, env);
      if user.Some? && !SignedInElsewhere(s.clients, c.sessionId, user.value) {
        forall k | k in s.clients && k != p.sender
          ensures s.clients[k].userId != user
        {
          assert s.clients[k].sessionId != c.sessionId;
        }
      }
    }
  }

  lemma StepKeepsSessions(f: Formats, s: State, e: Event)
    requires SessionsAgree(s.clients)
    ensures SessionsAgree(Step(f, s, e).state.clients)
  {
    if e.Received? && e.packet.kind == LOGIN_USER {
      LoginKeepsSessions(f, e.env, s, e.socket, e.packet);
    } else if e.Received? && e.packet.kind !in {CONNECT_CLIENT, LOGOUT_USER} {
      OnlyThreeChangeSessions(f, e.env, s, e.socket, e.packet);
    }
  }

  lemma OnlyThreeChangeSessions(f: Formats, env: Env, s: State, socket: Socket, p: Packet)
    requires p.kind !in {CONNECT_CLIENT, LOGIN_USER, LOGOUT_USER}
    ensures Handle(f, env, s, socket, p).state.clients == s.clients
  {
  }

  /** In every run, whatever is sent in whatever order, the sessions agree. */
  lemma {:induction false} OneSessionPerUser(f: Formats, db: Tables, events: seq<Event>)
    ensures SessionsAgree(RunServer(f, db, events).clients)
  {
    if events == [] {
    } else {
      var n := |events| - 1;
      OneSessionPerUser(f, db, events[..n]);
      StepKeepsSessions(f, RunServer(f, db, events[..n]), events[n]);
    }
  }

  // ------------------------------------------- who is authorized, and since when

  ghost predicate AuthorizedAs(clients: Sessions, k: Uuid, user: Uuid) {
    k in clients && clients[k].isAuthorized && clients[k].userId == Some(user)
  }

  /** The event is a login of session `k`, from its own socket, with the name and password hash of
      this user, whom no other session has. */
  ghost predicate LogsIn(f: Formats, s: State, e: Event, k: Uuid, user: Uuid) {
    && e.Received? && e.packet.kind == LOGIN_USER && e.packet.sender == k && e.packet.data.Some?
    && k in s.clients && s.clients[k].socket == e.socket
    && f.login(e.packet.data.value).Some?
    && Authenticate(s.db, f.login(e.packet.data.value).value, e.env) == Some(user)
    && forall j | j in s.clients && j != k :: !AuthorizedAs(s.clients, j, user)
  }

  /** The event is a logout of session `k` from its own socket, or the session goes with its
      connection. */
  ghost predicate Leaves(s: State, e: Event, k: Uuid) {
    match e
    case Received(socket, p, env) =>
      p.kind == LOGOUT_USER && p.sender == k && k in s.clients && s.clients[k].socket == socket
    case Disconnected(socket, env) => k in s.clients && k !in Disconnect(env, s, socket).clients
  }

  /** Event `i` logged the session in as this user, and since then it has neither left nor logged in
      again. */
  ghost predicate Holding(f: Formats, db: Tables, events: seq<Event>, i: nat, k: Uuid, user: Uuid) {
    && i < |events|
    && LogsIn(f, RunServer(f, db, events[..i]), events[i], k, user)
    && forall j | i < j < |events| :: Undisturbed(f, RunServer(f, db, events[..j]), events[j], k)
  }

  ghost predicate Undisturbed(f: Formats, s: State, e: Event, k: Uuid) {
    !Leaves(s, e, k) && forall v: Uuid :: !LogsIn(f, s, e, k, v)
  }

  /** What one event does to the authorization of one session. */
  lemma AuthorizationStep(f: Formats, s: State, e: Event, k: Uuid, user: Uuid)
    requires SessionsAgree(s.clients)
    ensures AuthorizedAs(Step(f, s, e).state.clients, k, user) <==>
            LogsIn(f, s, e, k, user) || (AuthorizedAs(s.clients, k, user) && Undisturbed(f, s, e, k))
  {
    if e.Disconnected? {
    } else if e.packet.kind == LOGIN_USER {
      LoginStep(f, s, e, k, user);
    } else if e.packet.kind !in {CONNECT_CLIENT, LOGOUT_USER} {
      OnlyThreeChangeSessions(f, e.env, s, e.socket, e.packet);
      hide Handle;
    }
  }

  lemma LoginStep(f: Formats, s: State, e: Event, k: Uuid, user: Uuid)
    requires SessionsAgree(s.clients) && e.Received? && e.packet.kind == LOGIN_USER
    ensures AuthorizedAs(Step(f, s, e).state.clients, k, user) <==>
            LogsIn(f, s, e, k, user) || (AuthorizedAs(s.clients, k, user) && Undisturbed(f, s, e, k))
  {
    var p, after := e.packet, Step(f, s, e).state.clients;
    if p.sender == k && k in s.clients && s.clients[k].socket == e.socket
      && p.data.Some? && f.login(p.data.value).Some? {
      var found := Authenticate(s.db, f.login(p.data.value).value, e.env);
      assert found.Some? ==> (LogsIn(f, s, e, k, found.value) <==> !SignedInElsewhere(s.clients, k, found.value)) by {
        hide Authenticate;
      }
      hide Authenticate, SignedInElsewhere;
      if found.Some? && LogsIn(f, s, e, k, found.value) {
        assert after == s.clients[k := s.clients[k].(isAuthorized := true, userId := found)];
      } else {
        assert after == s.clients;
      }
    } else {
      hide Authenticate, SignedInElsewhere;
      assert k in s.clients ==> k in after && after[k] == s.clients[k];
    }
  }

  /** A login only ever succeeds with the name and password hash stored for that user. */
  lemma LoginMatches(f: Formats, s: State, e: Event, k: Uuid, user: Uuid)
    requires LogsIn(f, s, e, k, user) && Orderly(e.env.order)
    ensures user in s.db.users
    ensures s.db.users[user].username == f.login(e.packet.data.value).value.login
    ensures s.db.users[user].passwordHash == f.login(e.packet.data.value).value.passwordHash
  {
    var info := f.login(e.packet.data.value).value;
    var found := e.env.order(Matching(s.db, info));
    assert Enumerates(found, Matching(s.db, info));
    assert found[0] in found;
  }

  lemma HoldingStep(f: Formats, db: Tables, events: seq<Event>, i: nat, k: Uuid, user: Uuid)
    requires events != []
    ensures var n := |events| - 1;
      Holding(f, db, events, i, k, user) <==>
        if i == n then LogsIn(f, RunServer(f, db, events[..n]), events[n], k, user)
        else Holding(f, db, events[..n], i, k, user) && Undisturbed(f, RunServer(f, db, events[..n]), events[n], k)
  {
    hide RunServer, LogsIn, Undisturbed;
    var n := |events| - 1;
    assert forall j | 0 <= j <= n :: events[..n][..j] == events[..j];
  }

  lemma HoldingBefore(f: Formats, db: Tables, events: seq<Event>, i: nat, k: Uuid, user: Uuid)
    requires Holding(f, db, events, i, k, user)
    ensures i < |events|
  {
  }

  /** In every run a session is authorized as a user exactly when it logged in as that user at some
      point, and since then has neither logged out nor logged in again nor lost its connection. */
  lemma {:induction false} AuthorizedIffLoggedIn(f: Formats, db: Tables, events: seq<Event>, k: Uuid, user: Uuid)
    ensures AuthorizedAs(RunServer(f, db, events).clients, k, user) <==>
            exists i: nat :: Holding(f, db, events, i, k, user)
  {
    if events == [] {
    } else {
      var n := |events| - 1;
      var before, s, e := events[..n], RunServer(f, db, events[..n]), events[n];
      AuthorizedIffLoggedIn(f, db, before, k, user);
      OneSessionPerUser(f, db, before);
      AuthorizationStep(f, s, e, k, user);
      assert RunServer(f, db, events) == Step(f, s, e).state;
      hide *;
      if LogsIn(f, s, e, k, user) {
        HoldingStep(f, db, events, n, k, user);
      } else if AuthorizedAs(s.clients, k, user) && Undisturbed(f, s, e, k) {
        var i: nat :| Holding(f, db, before, i, k, user);
        HoldingStep(f, db, events, i, k, user);
        HoldingBefore(f, db, before, i, k, user);
      }
      if i: nat :| Holding(f, db, events, i, k, user) {
        HoldingStep(f, db, events, i, k, user);
      }
    }
  }

  // ---------------------------------------------------- exactly-once routing

  /** The positions of the packets sent to a session that is signed in as this user. */
  ghost function AddressedTo(clients: Sessions, sent: seq<Outbound>, user: Uuid): set<int> {
    set i | 0 <= i < |sent| && sent[i].session in clients && clients[sent[i].session].userId == Some(user)
  }

  ghost predicate Online(clients: Sessions, user: Uuid) {
    exists k :: k in clients && clients[k].userId == Some(user)
  }

  /** A copy of the message on its way to a session that should get one. */
  ghost predicate IsCopy(clients: Sessions, o: Outbound, from: Uuid, members: set<Uuid>, m: Message) {
    && Receives(clients, o.session, from, members)
    && o.socket == clients[o.session].socket
    && o.content == Routed(m)
  }

  ghost predicate SentTo(sent: seq<Outbound>, k: Uuid) {
    exists i :: 0 <= i < |sent| && sent[i].session == k
  }

  ghost predicate DistinctSessions(sent: seq<Outbound>) {
    forall i, j | 0 <= i < j < |sent| :: sent[i].session != sent[j].session
  }

  lemma {:induction false} CopiesAreCorrect(
    clients: Sessions, order: seq<Uuid>, from: Uuid, members: set<Uuid>, m: Message)
    requires NoDuplicates(order)
    ensures forall o | o in Copies(clients, order, from, members, m) ::
      o.session in order && IsCopy(clients, o, from, members, m)
    ensures DistinctSessions(Copies(clients, order, from, members, m))
    ensures forall k | k in order && Receives(clients, k, from, members) ::
      SentTo(Copies(clients, order, from, members, m), k)
  {
    if order == [] {
    } else {
      var n := |order| - 1;
      assert order == order[..n] + [order[n]];
      CopiesAreCorrect(clients, order[..n], from, members, m);
      var before, sent := Copies(clients, order[..n], from, members, m), Copies(clients, order, from, members, m);
      forall i, j | 0 <= i < j < |sent| ensures sent[i].session != sent[j].session {
        assert sent[i] == before[i] && before[i] in before;
        if j < |before| {
          assert sent[j] == before[j];
        } else {
          assert sent[j].session == order[n];
          assert before[i].session in order[..n];
          assert order[n] !in order[..n];
        }
      }
      forall k | k in order && Receives(clients, k, from, members)
        ensures SentTo(sent, k)
      {
        if k in order[..n] {
          assert SentTo(before, k);
          var i :| 0 <= i < |before| && before[i].session == k;
          assert sent[i].session == k;
        } else {
          assert sent[|sent| - 1].session == k;
        }
      }
    }
  }

  /** The sender's own words, stamped with the authenticated user. */
  function Stamped(f: Formats, p: Packet, user: Uuid): Message
    requires p.data.Some?
  {
    f.message(p.data.value).(senderUserId := user)
  }

  /** A message the server accepts: from a signed-in session, to a real chat the user belongs to,
      claiming no one else's identity. */
  ghost predicate Accepted(f: Formats, env: Env, s: State, p: Packet) {
    && p.kind == CHAT_MESSAGE && p.data.Some? && p.sender != NULL_UUID
    && p.sender in s.clients && s.clients[p.sender].userId.Some?
    && var m, user := f.message(p.data.value), s.clients[p.sender].userId.value;
       && m.targetChatId != NULL_UUID
       && m.senderUserId in {NULL_UUID, user}
       && user in MembersSeen(s.db, m.targetChatId, env.readFault)
  }

  lemma AcceptedIsRouted(f: Formats, env: Env, s: State, socket: Socket, p: Packet)
    requires SessionsAgree(s.clients) && Accepted(f, env, s, p)
    ensures Handle(f, env, s, socket, p)
         == Outcome(s, Copies(s.clients, env.order(s.clients.Keys), p.sender,
                              MembersSeen(s.db, f.message(p.data.value).targetChatId, env.readFault),
                              Stamped(f, p, s.clients[p.sender].userId.value)))
  {
  }

  /** In every reachable state an accepted message goes out exactly once to each member who is
      online, except the sender, and to no one else; no copy returns to the sender's session; and
      every copy carries the authenticated user id and the sender's own words. */
  lemma ExactlyOnceRouting(f: Formats, db: Tables, events: seq<Event>, socket: Socket, p: Packet, env: Env)
    requires Orderly(env.order)
    requires Accepted(f, env, RunServer(f, db, events), p)
    ensures var s := RunServer(f, db, events);
      var written := f.message(p.data.value);
      var author, chatId := s.clients[p.sender].userId.value, written.targetChatId;
      var sent := Handle(f, env, s, socket, p).sent;
      && Handle(f, env, s, socket, p).state == s
      && (forall user: Uuid :: |AddressedTo(s.clients, sent, user)|
            == if user in UsersIn(s.db.members, chatId) && user != author && Online(s.clients, user) then 1 else 0)
      && (forall i | 0 <= i < |sent| ::
            && sent[i].session != p.sender && sent[i].session in s.clients
            && s.clients[sent[i].session].userId.Some?
            && sent[i].socket == s.clients[sent[i].session].socket
            && sent[i].content == Routed(Message(author, chatId, written.isMedia, written.content)))
  {
    var s := RunServer(f, db, events);
    OneSessionPerUser(f, db, events);
    AcceptedIsRouted(f, env, s, socket, p);
    var author, chatId := s.clients[p.sender].userId.value, f.message(p.data.value).targetChatId;
    var members := UsersIn(s.db.members, chatId);
    var sent := Handle(f, env, s, socket, p).sent;
    var order := env.order(s.clients.Keys);
    assert Enumerates(order, s.clients.Keys);
    CopiesAreCorrect(s.clients, order, p.sender, members, Stamped(f, p, author));
    forall user: Uuid
      ensures |AddressedTo(s.clients, sent, user)|
           == if user in members && user != author && Online(s.clients, user) then 1 else 0
    {
      AddressedOnce(s.clients, sent, order, p.sender, members, Stamped(f, p, author), user);
    }
  }

  lemma AddressedOnce(
    clients: Sessions, sent: seq<Outbound>, order: seq<Uuid>, from: Uuid, members: set<Uuid>, m: Message, user: Uuid)
    requires SessionsAgree(clients) && Enumerates(order, clients.Keys)
    requires from in clients && clients[from].userId.Some?
    requires sent == Copies(clients, order, from, members, m)
    ensures |AddressedTo(clients, sent, user)|
         == if user in members && Some(user) != clients[from].userId && Online(clients, user) then 1 else 0
  {
    CopiesAreCorrect(clients, order, from, members, m);
    forall i | i in AddressedTo(clients, sent, user)
      ensures user in members && Some(user) != clients[from].userId && Online(clients, user)
    {
      assert sent[i] in sent && IsCopy(clients, sent[i], from, members, m);
    }
    if user in members && Some(user) != clients[from].userId && Online(clients, user) {
      var k :| k in clients && clients[k].userId == Some(user);
      assert k in order && Receives(clients, k, from, members);
      assert SentTo(sent, k);
      var i :| 0 <= i < |sent| && sent[i].session == k;
      forall j | j in AddressedTo(clients, sent, user) ensures j == i {
        assert sent[j].session == k;
      }
      assert AddressedTo(clients, sent, user) == {i};
    } else {
      assert AddressedTo(clients, sent, user) == {};
    }
  }

  /** Anything else routes nothing: a chat message leaves the server only when one was accepted. */
  lemma NothingElseIsRouted(f: Formats, env: Env, s: State, socket: Socket, p: Packet)
    requires SessionsAgree(s.clients) && Orderly(env.order)
    requires !Accepted(f, env, s, p)
    ensures forall o | o in Handle(f, env, s, socket, p).sent :: !o.content.Routed?
  {
    if p.kind == CHAT_MESSAGE {
      RefusedIsNotRouted(f, env, s, p);
    }
  }

  lemma RefusedIsNotRouted(f: Formats, env: Env, s: State, p: Packet)
    requires SessionsAgree(s.clients) && p.kind == CHAT_MESSAGE && !Accepted(f, env, s, p)
    ensures forall o | o in AuthorizedPacket(f, env, s, p).sent :: o.content.Failure?
    ensures |AuthorizedPacket(f, env, s, p).sent| <= 1
  {
  }

  // ---------------------------------------------------------------- tables

  ghost predicate OrderlyRun(events: seq<Event>) {
    forall e | e in events :: Orderly(e.env.order)
  }

  ghost predicate TablesSound(t: Tables) {
    Counted(t) && Referential(t)
  }

  lemma RegisterKeepsTables(f: Formats, env: Env, s: State, socket: Socket, p: Packet)
    requires TablesSound(s.db)
    ensures TablesSound(RegisterUser(f, env, s, socket, p).state.db)
    ensures RegisterUser(f, env, s, socket, p).state.db.chats == s.db.chats
    ensures RegisterUser(f, env, s, socket, p).state.db.members == s.db.members
  {
    if p.sender in s.clients && p.data.Some? && f.register(p.data.value).Some? {
      var info := f.register(p.data.value).value;
      var user := Registered(f, info);
      StatementKeepsCounts(s.db, CreateUser(env.freshId, user), false);
    }
  }

  lemma UpdateKeepsTables(f: Formats, env: Env, s: State, socket: Socket, p: Packet)
    requires TablesSound(s.db)
    ensures TablesSound(UpdateUserProfile(f, env, s, socket, p).state.db)
    ensures UpdateUserProfile(f, env, s, socket, p).state.db.chats == s.db.chats
    ensures UpdateUserProfile(f, env, s, socket, p).state.db.members == s.db.members
  {
    if p.sender in s.clients && SignedIn(s.clients[p.sender]) && p.data.Some? && f.profileUpdate(p.data.value).Some? {
      var update := TrimmedUpdate(f, f.profileUpdate(p.data.value).value);
      StatementKeepsCounts(s.db, UpdateProfile(s.clients[p.sender].userId.value, update), env.writeFault);
    }
  }

  /** The request reaches the point where the chat is created. */
  ghost predicate ReachesCreation(f: Formats, s: State, socket: Socket, p: Packet) {
    && p.sender in s.clients && s.clients[p.sender].socket == socket && SignedIn(s.clients[p.sender])
    && p.data.Some? && f.createChat(p.data.value).Some?
  }

  lemma CreationStep(f: Formats, env: Env, s: State, socket: Socket, p: Packet)
    ensures CreateChatFor(f, env, s, socket, p).state.db
         == if ReachesCreation(f, s, socket, p)
            then Create(s.db, env.freshId, s.clients[p.sender].userId.value, f.createChat(p.data.value).value,
                        env.order, env.creation).tables
            else s.db
  {
  }

  /** Only registrations, profile updates and chat creations change the tables. */
  lemma OthersKeepTables(f: Formats, env: Env, s: State, socket: Socket, p: Packet)
    requires p.kind !in {REGISTER_USER, UPDATE_USER_PROFILE, CREATE_CHAT}
    ensures Handle(f, env, s, socket, p).state.db == s.db
  {
  }

  lemma StepKeepsTables(f: Formats, s: State, e: Event)
    requires TablesSound(s.db) && Orderly(e.env.order)
    ensures TablesSound(Step(f, s, e).state.db)
  {
    if e.Received? {
      var env, socket, p := e.env, e.socket, e.packet;
      if p.kind == REGISTER_USER {
        RegisterKeepsTables(f, env, s, socket, p);
      } else if p.kind == UPDATE_USER_PROFILE {
        UpdateKeepsTables(f, env, s, socket, p);
      } else if p.kind == CREATE_CHAT {
        CreationStep(f, env, s, socket, p);
        if ReachesCreation(f, s, socket, p) {
          AllOrNothing(s.db, env.freshId, s.clients[p.sender].userId.value, f.createChat(p.data.value).value,
                       env.order, env.creation);
        }
      } else {
        OthersKeepTables(f, env, s, socket, p);
      }
    }
  }

  /** Over all server runs the counters are exact and every membership has its chat and its user. */
  lemma {:induction false} ServerKeepsTables(f: Formats, db: Tables, events: seq<Event>)
    requires Counted(db) && Referential(db) && OrderlyRun(events)
    ensures Counted(RunServer(f, db, events).db) && Referential(RunServer(f, db, events).db)
  {
    if events == [] {
    } else {
      var before, e := events[..|events| - 1], events[|events| - 1];
      ServerKeepsTables(f, db, before);
      StepKeepsTables(f, RunServer(f, db, before), e);
    }
  }

  // ------------------------------------------------------------- chat sizes

  /** The event is a chat creation that strands its chat. */
  ghost predicate Strands(f: Formats, s: State, e: Event) {
    && e.Received? && e.packet.kind == CREATE_CHAT && ReachesCreation(f, s, e.socket, e.packet)
    && Stranded(s.db, e.env.freshId, s.clients[e.packet.sender].userId.value,
                f.createChat(e.packet.data.value).value, e.env.order, e.env.creation)
  }

  /** What one event does to the chats: those there were stay with their members; and sizes go wrong
      exactly by stranding. */
  lemma StepSizes(f: Formats, s: State, e: Event)
    requires TablesSound(s.db) && Orderly(e.env.order)
    ensures ChatsKept(s.db, Step(f, s, e).state.db)
    ensures WellSized(Step(f, s, e).state.db) <==> WellSized(s.db) && !Strands(f, s, e)
  {
    var t' := Step(f, s, e).state.db;
    if e.Received? && e.packet.kind == CREATE_CHAT && ReachesCreation(f, s, e.socket, e.packet) {
      var creator, requested := s.clients[e.packet.sender].userId.value, f.createChat(e.packet.data.value).value;
      CreationStep(f, e.env, s, e.socket, e.packet);
      assert t' == Create(s.db, e.env.freshId, creator, requested, e.env.order, e.env.creation).tables by {
        hide Create;
      }
      hide Step, Create, Stranded;
      NewChatSizedIff(s.db, e.env.freshId, creator, requested, e.env.order, e.env.creation);
      CreationKeepsChats(s.db, e.env.freshId, creator, requested, e.env.order, e.env.creation);
    } else {
      SameChats(f, s, e);
      hide Step;
    }
    KeptSizes(s.db, t');
  }

  lemma SameChats(f: Formats, s: State, e: Event)
    requires TablesSound(s.db)
    requires !(e.Received? && e.packet.kind == CREATE_CHAT && ReachesCreation(f, s, e.socket, e.packet))
    ensures Step(f, s, e).state.db.chats == s.db.chats && Step(f, s, e).state.db.members == s.db.members
  {
    if e.Received? {
      if e.packet.kind == REGISTER_USER {
        RegisterKeepsTables(f, e.env, s, e.socket, e.packet);
      } else if e.packet.kind == UPDATE_USER_PROFILE {
        UpdateKeepsTables(f, e.env, s, e.socket, e.packet);
      } else if e.packet.kind == CREATE_CHAT {
        CreationStep(f, e.env, s, e.socket, e.packet);
      } else {
        OthersKeepTables(f, e.env, s, e.socket, e.packet);
      }
    }
  }

  ghost predicate StrandsNone(f: Formats, db: Tables, events: seq<Event>) {
    forall i | 0 <= i < |events| :: !Strands(f, RunServer(f, db, events[..i]), events[i])
  }

  lemma StrandsNoneStep(f: Formats, db: Tables, events: seq<Event>)
    requires events != []
    ensures var n := |events| - 1;
      StrandsNone(f, db, events) <==>
        StrandsNone(f, db, events[..n]) && !Strands(f, RunServer(f, db, events[..n]), events[n])
  {
    hide RunServer, Strands;
    var n := |events| - 1;
    assert forall i | 0 <= i <= n :: events[..n][..i] == events[..i];
    assert StrandsNone(f, db, events[..n]) <==>
      forall i | 0 <= i < n :: !Strands(f, RunServer(f, db, events[..i]), events[i]);
  }

  /** Over all server runs every direct chat has exactly two members and every group at least three,
      if and only if no creation on the way stranded its chat. */
  lemma {:induction false} ServerSizesIff(f: Formats, db: Tables, events: seq<Event>)
    requires Counted(db) && Referential(db) && WellSized(db) && OrderlyRun(events)
    ensures WellSized(RunServer(f, db, events).db) <==>
            forall i | 0 <= i < |events| :: !Strands(f, RunServer(f, db, events[..i]), events[i])
  {
    if events == [] {
    } else {
      var n := |events| - 1;
      var before, e := events[..n], events[n];
      hide RunServer, Strands, Step, WellSized, Counted, Referential;
      assert RunServer(f, db, events) == Step(f, RunServer(f, db, before), e).state by {
        RunServerSnoc(f, db, events);
      }
      ServerSizesIff(f, db, before);
      ServerKeepsTables(f, db, before);
      StepSizes(f, RunServer(f, db, before), e);
      StrandsNoneStep(f, db, events);
    }
  }

  lemma RunServerSnoc(f: Formats, db: Tables, events: seq<Event>)
    requires events != []
    ensures RunServer(f, db, events)
         == Step(f, RunServer(f, db, events[..|events| - 1]), events[|events| - 1]).state
  {
  }

  /** It does go wrong: a session connects, logs in and creates a chat whose second member is refused,
      and the delete fails. */
  lemma StrandedRun(
    f: Formats, creator: Uuid, other: Uuid, first: User, second: User, k: Uuid, socket: Socket, env: Env,
    credentials: seq<byte>, request: seq<byte>)
    requires creator != other && other != NULL_UUID && first.username != second.username
    requires f.login(credentials) == Some(LoginInfo(first.username, first.passwordHash))
    requires f.createChat(request) == Some([other])
    requires Orderly(env.order) && !env.readFault && env.creation == Faults({}, false, {other}, true)
    ensures var db := Tables(map[creator := first, other := second], map[], {}, map[]);
      var events := [Received(socket, Packet(CONNECT_CLIENT, k, NULL_UUID, None), env),
                     Received(socket, Packet(LOGIN_USER, k, NULL_UUID, Some(credentials)), env),
                     Received(socket, Packet(CREATE_CHAT, k, NULL_UUID, Some(request)), env)];
      WellSized(db) && !WellSized(RunServer(f, db, events).db)
  {
    hide RunServer, Create, WellSized, Authenticate;
    var db := Tables(map[creator := first, other := second], map[], {}, map[]);
    OnlyMatch(db, creator, other, LoginInfo(first.username, first.passwordHash), env);
    RunOfCreation(f, db, creator, k, socket, env, credentials, request);
    StrandedChat(creator, other, env.freshId, first, second, env.order);
  }

  /** The tables after a session has connected, logged in and created a chat. */
  lemma RunOfCreation(
    f: Formats, db: Tables, user: Uuid, k: Uuid, socket: Socket, env: Env, credentials: seq<byte>, request: seq<byte>)
    requires f.login(credentials).Some? && Authenticate(db, f.login(credentials).value, env) == Some(user)
    requires f.createChat(request).Some?
    ensures RunServer(f, db, [Received(socket, Packet(CONNECT_CLIENT, k, NULL_UUID, None), env),
                              Received(socket, Packet(LOGIN_USER, k, NULL_UUID, Some(credentials)), env),
                              Received(socket, Packet(CREATE_CHAT, k, NULL_UUID, Some(request)), env)]).db
         == Create(db, env.freshId, user, f.createChat(request).value, env.order, env.creation).tables
  {
    var connect := Received(socket, Packet(CONNECT_CLIENT, k, NULL_UUID, None), env);
    var login := Received(socket, Packet(LOGIN_USER, k, NULL_UUID, Some(credentials)), env);
    var create := Packet(CREATE_CHAT, k, NULL_UUID, Some(request));
    var s := State(map[k := Session(k, socket, true, Some(user))], db);
    RunOfLogin(f, db, user, k, socket, env, credentials);
    hide RunServer, Create, CreateChatFor, Authenticate, RegisterUser, LoginUser, LogoutUser;
    CreationStep(f, env, s, socket, create);
    RunServerPlus(f, db, [connect, login], Received(socket, create, env));
    assert [connect, login] + [Received(socket, create, env)] == [connect, login, Received(socket, create, env)];
  }

  lemma RunServerPlus(f: Formats, db: Tables, before: seq<Event>, e: Event)
    ensures RunServer(f, db, before + [e]) == Step(f, RunServer(f, db, before), e).state
  {
    assert (before + [e])[..|before|] == before;
  }

  /** The state after a session has connected and logged in. */
  lemma RunOfLogin(
    f: Formats, db: Tables, user: Uuid, k: Uuid, socket: Socket, env: Env, credentials: seq<byte>)
    requires f.login(credentials).Some? && Authenticate(db, f.login(credentials).value, env) == Some(user)
    ensures RunServer(f, db, [Received(socket, Packet(CONNECT_CLIENT, k, NULL_UUID, None), env),
                              Received(socket, Packet(LOGIN_USER, k, NULL_UUID, Some(credentials)), env)])
         == State(map[k := Session(k, socket, true, Some(user))], db)
  {
    var connect := Received(socket, Packet(CONNECT_CLIENT, k, NULL_UUID, None), env);
    var login := Received(socket, Packet(LOGIN_USER, k, NULL_UUID, Some(credentials)), env);
    var connected := State(map[k := Session(k, socket, false, None)], db);
    RunServerPlus(f, db, [], connect);
    RunServerPlus(f, db, [connect], login);
    assert [] + [connect] == [connect] && [connect] + [login] == [connect, login];
    assert Step(f, State(map[], db), connect).state == connected;
    hide Authenticate;
    assert Step(f, connected, login).state == State(map[k := Session(k, socket, true, Some(user))], db);
  }

  lemma OnlyMatch(db: Tables, creator: Uuid, other: Uuid, info: LoginInfo, env: Env)
    requires db.users.Keys == {creator, other} && creator != other && Orderly(env.order) && !env.readFault
    requires db.users[creator].username == info.login && db.users[creator].passwordHash == info.passwordHash
    requires db.users[other].username != info.login
    ensures Authenticate(db, info, env) == Some(creator)
  {
    assert Matching(db, info) == {creator};
    var found := env.order({creator});
    assert Enumerates(found, {creator});
    assert creator in found;
    assert found[0] in found;
  }
}
