/** The client's account state and the server's session, joined by two FIFO channels, over any
    number of reconnections and with any number of other clients acting in between. Either end may
    be the first to notice that a connection is gone. Framing and transport are covered elsewhere:
    a channel here carries whole packets one way and their contents the other. What the receive buffer
    still holds from an older connection may garble the first content of a new one. */
module LoginAgreement {
  import opened Prelude
  import opened PacketCodec
  import opened ChatCreation
  import opened Streams
  import opened ServerModel
  import opened ServerProofs
  import A = Account
  import Tables

  datatype Config = Config(
    formats: Formats, texts: A.Texts, encode: A.Request -> seq<byte>, me: Uuid, serverId: Uuid)

  /** `connected` is what the client believes; `socket` is there while both ends hold the connection.
      `greeted`: the first content of this connection, the reply to the handshake, has been consumed.
      `stale`: connections the client has dropped and the server has not, with what the server has yet
      to read from them. */
  datatype System = System(
    client: A.AccountState, connected: bool, socket: Option<Socket>, greeted: bool,
    up: seq<Packet>, down: seq<Content>, stale: map<Socket, seq<Packet>>, server: State)

  datatype Move =
    | Open(socket: Socket)
    | Drop
    | ServerDrops(env: Env)
    | Ui(event: A.AccountEvent)
    | Ask(packet: Packet)
    | Serve(env: Env)
    | Deliver(heard: Content)
    | ServeStale(socket: Socket, env: Env)
    | StaleCloses(socket: Socket, env: Env)
    | Other(socket: Socket, packet: Packet, env: Env)
    | OtherCloses(socket: Socket, env: Env)

  function RequestPacket(c: Config, r: A.Request): Packet {
    match r
    case LoginRequest(_, _) => Packet(LOGIN_USER, c.me, c.serverId, Some(c.encode(r)))
    case RegisterRequest(_, _, _, _) => Packet(REGISTER_USER, c.me, c.serverId, Some(c.encode(r)))
    case LogoutRequest => Packet(LOGOUT_USER, c.me, c.serverId, None)
    case ProfileRequest => Packet(GET_USER_PROFILE, c.me, c.serverId, None)
  }

  function ConnectPacket(c: Config): Packet {
    Packet(CONNECT_CLIENT, c.me, c.serverId, None)
  }

  /** Sent by the chat list as soon as the account reports a login. */
  function ChatsPacket(c: Config): Packet {
    Packet(GET_CHATS, c.me, c.serverId, None)
  }

  /** The packets of the handshake, of the account and of the fetched chat list. Everything else a client
      sends - messages, lookups, searches, chat creations, profile updates - is asked at any time. */
  predicate IsTalk(p: Packet) {
    p.kind in {CONNECT_CLIENT, REGISTER_USER, LOGIN_USER, LOGOUT_USER, GET_USER_PROFILE, GET_CHATS}
  }

  /** What is written to this socket, of everything the server sends. */
  function Written(sent: seq<Outbound>, socket: Socket): seq<Content> {
    if sent == [] then []
    else
      var rest, last := Written(sent[..|sent| - 1], socket), sent[|sent| - 1];
      if last.socket == socket then rest + [last.content] else rest
  }

  /** The contents the account reacts to: operation results and profiles. */
  predicate IsAnswer(c: Content) {
    c.Success? || c.Failure? || c.Profile?
  }

  function EventFor(c: Content): A.AccountEvent
    requires IsAnswer(c)
  {
    match c
    case Success(text) => A.Result(true, text)
    case Failure(text) => A.Result(false, text)
    case Profile(userId, user) => A.ProfileArrived(A.ProfileInfo(userId, user.username, user.displayName, user.email))
  }

  /** What goes out when the account handles one event: its request and, on a login, the chat list's. */
  function Adds(c: Config, client: A.AccountState, connected: bool, e: A.AccountEvent): seq<Packet> {
    var request := A.Sends(c.texts, client, connected, e);
    (if request.Some? then [RequestPacket(c, request.value)] else [])
    + (if !client.loggedIn && A.After(c.texts, client, connected, e).loggedIn then [ChatsPacket(c)] else [])
  }

  function Handled(c: Config, s: System, e: A.AccountEvent): System {
    s.(client := A.After(c.texts, s.client, s.connected, e), up := s.up + Adds(c, s.client, s.connected, e))
  }

  function Served(s: System, r: Outcome): System {
    s.(server := r.state,
       down := s.down + if s.socket.Some? then Written(r.sent, s.socket.value) else [])
  }

  function Next(c: Config, s: System, m: Move): System {
    match m
    case Open(socket) =>
      if s.connected then s
      else s.(connected := true, socket := Some(socket), greeted := false, up := [ConnectPacket(c)], down := [])
    case Drop =>
      if !s.connected then s
      else System(A.After(c.texts, s.client, false, A.ConnectionStatus), false, None, false, [], [],
                  if s.socket.Some? then s.stale[s.socket.value := s.up] else s.stale, s.server)
    case ServerDrops(env) =>
      if s.socket.None? then s
      else s.(socket := None, up := [], server := Disconnect(env, s.server, s.socket.value))
    case Ui(e) => Handled(c, s, e)
    case Serve(env) =>
      if s.socket.None? || s.up == [] then s
      else Served(s.(up := s.up[1..]), Handle(c.formats, env, s.server, s.socket.value, s.up[0]))
    case Ask(packet) => if s.connected then s.(up := s.up + [packet]) else s
    case Deliver(heard) =>
      if s.down == [] then s
      else
        var s' := s.(down := s.down[1..], greeted := true);
        if IsAnswer(heard) then Handled(c, s', EventFor(heard)) else s'
    case ServeStale(socket, env) =>
      if socket !in s.stale || s.stale[socket] == [] then s
      else Served(s.(stale := s.stale[socket := s.stale[socket][1..]]),
                  Handle(c.formats, env, s.server, socket, s.stale[socket][0]))
    case StaleCloses(socket, env) =>
      if socket !in s.stale then s
      else s.(stale := s.stale - {socket}, server := Disconnect(env, s.server, socket))
    case Other(socket, packet, env) => Served(s, Handle(c.formats, env, s.server, socket, packet))
    case OtherCloses(socket, env) => s.(server := Disconnect(env, s.server, socket))
  }

  /** The server holds this socket for the client. */
  predicate Mine(live: Option<Socket>, stale: map<Socket, seq<Packet>>, socket: Socket) {
    live == Some(socket) || socket in stale
  }

  /** The reply to a packet that is not talk is nothing the account reacts to, as far as it is written
      to the live socket. */
  ghost predicate Discreet(c: Config, s: System, socket: Socket, p: Packet, env: Env) {
    !IsTalk(p) && s.socket.Some? ==> Silent(Handle(c.formats, env, s.server, socket, p).sent, s.socket.value)
  }

  /** The discipline assumed of the surroundings: login and registration are called on their own
      pages and after the handshake; what else the client asks for is not answered by an operation
      result or a profile; contents arrive as they were written, except the first on a connection; a
      new connection gets a socket that is not in use; other clients use their own sockets and session
      ids. */
  ghost predicate Permitted(c: Config, s: System, m: Move) {
    match m
    case Open(socket) =>
      !Mine(s.socket, s.stale, socket) && forall k | k in s.server.clients :: s.server.clients[k].socket != socket
    case Ui(e) =>
      && !e.Result? && !e.ProfileArrived? && !e.ConnectionStatus?
      && A.OnOwnPage(s.client, e)
      && (e.CallLogin? || e.CallRegister? ==> s.greeted)
    case Ask(packet) => packet.sender == c.me && !IsTalk(packet)
    case Deliver(heard) => s.greeted && s.down != [] ==> heard == s.down[0]
    case Other(socket, packet, env) => !Mine(s.socket, s.stale, socket) && packet.sender != c.me && Orderly(env.order)
    case OtherCloses(socket, env) => !Mine(s.socket, s.stale, socket) && Orderly(env.order)
    case Serve(env) =>
      Orderly(env.order) && (s.socket.Some? && s.up != [] ==> Discreet(c, s, s.socket.value, s.up[0], env))
    case ServerDrops(env) => Orderly(env.order)
    case ServeStale(socket, env) =>
      Orderly(env.order)
      && (socket in s.stale && s.stale[socket] != [] ==> Discreet(c, s, socket, s.stale[socket][0], env))
    case StaleCloses(_, env) => Orderly(env.order)
    case _ => true
  }

  function Run(c: Config, server: State, moves: seq<Move>): System {
    if moves == [] then System(A.INITIAL, false, None, false, [], [], map[], server)
    else Next(c, Run(c, server, moves[..|moves| - 1]), moves[|moves| - 1])
  }

  ghost predicate AllPermitted(c: Config, server: State, moves: seq<Move>) {
    forall i | 0 <= i < |moves| :: Permitted(c, Run(c, server, moves[..i]), moves[i])
  }

  // ------------------------------------------------- a step concerns one session

  /** Every packet goes to the socket of the session it is for. */
  ghost predicate Addressed(clients: Sessions, sent: seq<Outbound>) {
    forall i | 0 <= i < |sent| :: sent[i].session in clients && sent[i].socket == clients[sent[i].session].socket
  }

  /** Results and profiles go to this session only. */
  ghost predicate AnswersOnly(sent: seq<Outbound>, session: Uuid) {
    forall i | 0 <= i < |sent| :: sent[i].session == session || !IsAnswer(sent[i].content)
  }

  /** A step for one session neither touches nor answers any other, and moves no session to another
      socket. */
  ghost predicate Local(s: State, socket: Socket, sender: Uuid, r: Outcome) {
    && (forall k | k in s.clients :: k in r.state.clients && r.state.clients[k].socket == s.clients[k].socket)
    && (forall k | k in s.clients && k != sender :: r.state.clients[k] == s.clients[k])
    && (forall k | k in r.state.clients && k !in s.clients :: k == sender && r.state.clients[k].socket == socket)
    && Addressed(r.state.clients, r.sent)
    && AnswersOnly(r.sent, sender)
  }

  lemma {:induction false} ListsAreAddressed(s: State, order: seq<Uuid>, members: set<Uuid>, fault: bool)
    ensures Addressed(s.clients, UpdatedChatLists(s, order, members, fault))
  {
    if order == [] {
    } else {
      ListsAreAddressed(s, order[..|order| - 1], members, fault);
    }
  }

  lemma AnnouncementsAreLocal(env: Env, s: State, session: Uuid, creator: Uuid, members: set<Uuid>)
    ensures Addressed(s.clients, Announcements(env, s, session, creator, members))
    ensures AnswersOnly(Announcements(env, s, session, creator, members), session)
  {
    ListsAreAddressed(s, env.order(s.clients.Keys), members, env.readFault);
  }

  lemma CreationIsLocal(f: Formats, env: Env, s: State, socket: Socket, p: Packet)
    requires SessionsAgree(s.clients)
    ensures Local(s, socket, p.sender, CreateChatFor(f, env, s, socket, p))
  {
    if ReachesCreation(f, s, socket, p) {
      var creator, requested := s.clients[p.sender].userId.value, f.createChat(p.data.value).value;
      CreatedIsLocal(env, s, socket, p.sender, creator, requested);
      assert CreateChatFor(f, env, s, socket, p) == CreateChatAs(env, s, p.sender, creator, requested) by {
        hide CreateChatAs;
      }
      hide CreateChatAs, CreateChatFor, Local;
    } else {
      RefusedCreation(f, env, s, socket, p);
    }
  }

  lemma RefusedCreation(f: Formats, env: Env, s: State, socket: Socket, p: Packet)
    requires SessionsAgree(s.clients) && !ReachesCreation(f, s, socket, p)
    ensures Local(s, socket, p.sender, CreateChatFor(f, env, s, socket, p))
  {
    hide CreateChatAs;
  }

  lemma CreatedIsLocal(env: Env, s: State, socket: Socket, session: Uuid, creator: Uuid, requested: seq<Uuid>)
    requires session in s.clients
    ensures Local(s, socket, session, CreateChatAs(env, s, session, creator, requested))
  {
    var r := Create(s.db, env.freshId, creator, requested, env.order, env.creation);
    AnnouncementsAreLocal(env, s.(db := r.tables), session, creator,
                          Chosen(s.db, creator, requested, env.creation.lookups));
    hide Create, Announcements, Chosen;
  }

  lemma UpdateIsLocal(f: Formats, env: Env, s: State, socket: Socket, p: Packet)
    requires SessionsAgree(s.clients)
    ensures Local(s, socket, p.sender, UpdateUserProfile(f, env, s, socket, p))
  {
    hide UpdateComplaint, TrimmedUpdate, Tables.Attempt, Tables.Allowed;
  }

  lemma RegisterIsLocal(f: Formats, env: Env, s: State, socket: Socket, p: Packet)
    requires SessionsAgree(s.clients)
    ensures Local(s, socket, p.sender, RegisterUser(f, env, s, socket, p))
  {
  }

  lemma MessageIsLocal(f: Formats, env: Env, s: State, socket: Socket, p: Packet)
    requires SessionsAgree(s.clients) && Orderly(env.order)
    ensures Local(s, socket, p.sender, AuthorizedPacket(f, env, s, p))
  {
    if p.sender in s.clients && p.kind == CHAT_MESSAGE && Accepted(f, env, s, p) {
      var m := Stamped(f, p, s.clients[p.sender].userId.value);
      var members := MembersSeen(s.db, m.targetChatId, env.readFault);
      var order := env.order(s.clients.Keys);
      assert Enumerates(order, s.clients.Keys);
      CopiesAreCorrect(s.clients, order, p.sender, members, m);
      forall o | o in Copies(s.clients, order, p.sender, members, m)
        ensures !IsAnswer(o.content) && o.session in s.clients && o.socket == s.clients[o.session].socket
      {
        assert IsCopy(s.clients, o, p.sender, members, m);
      }
    }
  }

  lemma ConnectIsLocal(s: State, socket: Socket, p: Packet)
    requires SessionsAgree(s.clients)
    ensures Local(s, socket, p.sender, ConnectClient(s, socket, p))
  {
  }

  lemma LoginIsLocal(f: Formats, env: Env, s: State, socket: Socket, p: Packet)
    requires SessionsAgree(s.clients)
    ensures Local(s, socket, p.sender, LoginUser(f, env, s, socket, p))
  {
    var r := LoginUser(f, env, s, socket, p);
    if p.sender in s.clients {
      var c := s.clients[p.sender];
      LoginOutcome(f, env, s, socket, p);
      hide LoginUser;
      assert r.state.clients == s.clients || r.state.clients == s.clients[p.sender := r.state.clients[p.sender]];
    }
  }

  lemma LoginOutcome(f: Formats, env: Env, s: State, socket: Socket, p: Packet)
    requires SessionsAgree(s.clients) && p.sender in s.clients
    ensures var r, c := LoginUser(f, env, s, socket, p), s.clients[p.sender];
      && (|| r.state == s
          || exists user :: r.state.clients == s.clients[p.sender := c.(isAuthorized := true, userId := user)])
      && (r.sent == [] || r.sent == [Outbound(p.sender, c.socket, r.sent[0].content)])
  {
    hide Authenticate, SignedInElsewhere;
  }

  lemma LogoutIsLocal(s: State, socket: Socket, p: Packet)
    requires SessionsAgree(s.clients)
    ensures Local(s, socket, p.sender, LogoutUser(s, socket, p))
  {
  }

  lemma ReadingIsLocal(f: Formats, env: Env, s: State, socket: Socket, p: Packet)
    requires SessionsAgree(s.clients)
    ensures Local(s, socket, p.sender, GetUserProfile(env, s, socket, p))
    ensures Local(s, socket, p.sender, GetChats(env, s, socket, p))
    ensures Local(s, socket, p.sender, GetUserInfo(f, env, s, socket, p))
    ensures Local(s, socket, p.sender, SearchChats(f, env, s, socket, p))
  {
    hide ChatsOf, ChatsOfKinds, InfoAnswer;
  }

  lemma HandleIsLocal(f: Formats, env: Env, s: State, socket: Socket, p: Packet)
    requires SessionsAgree(s.clients) && Orderly(env.order)
    ensures Local(s, socket, p.sender, Handle(f, env, s, socket, p))
  {
    hide ConnectClient, LoginUser, LogoutUser, GetUserProfile, GetUserInfo, GetChats, SearchChats, RegisterUser,
      UpdateUserProfile, CreateChatFor, AuthorizedPacket, Local, SessionsAgree, Orderly;
    ConnectIsLocal(s, socket, p);
    LoginIsLocal(f, env, s, socket, p);
    LogoutIsLocal(s, socket, p);
    ReadingIsLocal(f, env, s, socket, p);
    RegisterIsLocal(f, env, s, socket, p);
    UpdateIsLocal(f, env, s, socket, p);
    CreationIsLocal(f, env, s, socket, p);
    MessageIsLocal(f, env, s, socket, p);
  }

  // ---------------------------------------------------------- what is on its way

  /** The results and profiles among what is on its way down. */
  function Answers(down: seq<Content>): seq<Content> {
    Filter(down, IsAnswer)
  }

  lemma {:induction false} NoAnswerWritten(sent: seq<Outbound>, socket: Socket)
    requires Silent(sent, socket)
    ensures Answers(Written(sent, socket)) == []
  {
    if sent == [] {
    } else {
      var n := |sent| - 1;
      NoAnswerWritten(sent[..n], socket);
      FilterSnoc(Written(sent[..n], socket), sent[n].content, IsAnswer);
    }
  }

  /** Nothing the account reacts to is written to this socket. */
  ghost predicate Silent(sent: seq<Outbound>, socket: Socket) {
    forall i | 0 <= i < |sent| :: sent[i].socket != socket || !IsAnswer(sent[i].content)
  }

  lemma SilentKeepsAnswers(s: System, r: Outcome)
    requires s.socket.Some? ==> Silent(r.sent, s.socket.value)
    ensures s.socket.Some? ==> Answers(Served(s, r).down) == Answers(s.down)
  {
    if s.socket.Some? {
      NoAnswerWritten(r.sent, s.socket.value);
      FilterConcat(s.down, Written(r.sent, s.socket.value), IsAnswer);
    }
  }

  lemma OneAnswer(c: Config, s: System, r: Outcome, content: Content)
    requires s.socket.Some? && r.sent == [Outbound(c.me, s.socket.value, content)]
    ensures Answers(Served(s, r).down) == Answers(s.down) + if IsAnswer(content) then [content] else []
    ensures Served(s, r).down == s.down + [content]
  {
    assert Written(r.sent, s.socket.value) == [content] by {
      assert r.sent[..0] == [];
    }
    FilterSnoc(s.down, content, IsAnswer);
  }

  /** The handshake, the account's requests and the fetched lists among what is on its way up. */
  function Talk(up: seq<Packet>): seq<Packet> {
    Filter(up, IsTalk)
  }

  lemma TalkAdded(up: seq<Packet>, more: seq<Packet>)
    requires forall p | p in more :: IsTalk(p)
    ensures Talk(up + more) == Talk(up) + more
  {
    FilterConcat(up, more, IsTalk);
    FilterAll(more, IsTalk);
  }

  // ----------------------------------------------------------------- invariant

  /** The client's session, if the server keeps it on this socket. */
  function SessionOn(clients: Sessions, me: Uuid, socket: Socket): Option<Session> {
    if me in clients && clients[me].socket == socket then Some(clients[me]) else None
  }

  ghost predicate SignedInAs(session: Option<Session>, userId: Uuid) {
    session.Some? && session.value.userId == Some(userId)
  }

  /** The session is signed in as the user of the profile on display. */
  ghost predicate ShownUser(client: A.AccountState, session: Option<Session>) {
    client.profile.Some? && SignedInAs(session, client.profile.value.userId)
  }

  ghost predicate OnlyLists(c: Config, up: seq<Packet>) {
    forall i | 0 <= i < |up| :: up[i] == ChatsPacket(c)
  }

  ghost predicate IsRequest(c: Config, p: Packet, kind: byte) {
    p.kind == kind && p.sender == c.me && (kind in {LOGIN_USER, REGISTER_USER} ==> p.data.Some?)
  }

  /** One request is under way: either still going up, or its answer is coming down. */
  ghost predicate Asked(c: Config, kind: byte, up: seq<Packet>, answers: seq<Content>) {
    |up| == 1 && IsRequest(c, up[0], kind) && answers == []
  }

  ghost predicate Answered(up: seq<Packet>, answers: seq<Content>) {
    up == [] && |answers| == 1
  }

  /** After the handshake, by the action the account is waiting for. */
  ghost predicate Conversation(
    c: Config, client: A.AccountState, up: seq<Packet>, answers: seq<Content>, session: Option<Session>)
  {
    match client.pending
    case NoAction =>
      && OnlyLists(c, up) && answers == []
      && (up != [] ==> client.loggedIn)
      && (client.loggedIn ==> ShownUser(client, session))
    case Registering =>
      Asked(c, REGISTER_USER, up, answers) || (Answered(up, answers) && !answers[0].Profile?)
    case LoggingIn =>
      || Asked(c, LOGIN_USER, up, answers)
      || (Answered(up, answers) && answers[0].Success? && session.Some? && session.value.userId.Some?)
      || (Answered(up, answers) && answers[0].Failure?)
    case FetchingProfile =>
      || (Asked(c, GET_USER_PROFILE, up, answers) && session.Some? && session.value.userId.Some?)
      || (Answered(up, answers) && answers[0].Profile? && SignedInAs(session, answers[0].userId))
      || (Answered(up, answers) && answers[0].Failure?)
    case LoggingOut =>
      && client.loggedIn
      && (|| (up != [] && OnlyLists(c, up[..|up| - 1]) && IsRequest(c, up[|up| - 1], LOGOUT_USER) && answers == []
              && ShownUser(client, session))
          || (Answered(up, answers) && answers[0].Success?))
  }

  /** Before the handshake is over: the request is going up, its answer is coming down, or it was
      ignored because the server still holds an older connection of this client. */
  ghost predicate Greeting(
    c: Config, client: A.AccountState, up: seq<Packet>, answers: seq<Content>, session: Option<Session>)
  {
    && client.pending.NoAction? && !client.loggedIn
    && (|| (up == [ConnectPacket(c)] && answers == [] && session.None?)
        || (Answered(up, answers) && answers[0].Success? && session.Some?)
        || (up == [] && answers == [] && session.None?))
  }

  ghost predicate Phase(
    c: Config, client: A.AccountState, greeted: bool, up: seq<Packet>, answers: seq<Content>, session: Option<Session>)
  {
    if greeted then session.Some? && Conversation(c, client, up, answers, session)
    else Greeting(c, client, up, answers, session)
  }

  /** The first content of a connection is the reply to the handshake, which creates its session. */
  ghost predicate ReplyFirst(greeted: bool, down: seq<Content>, session: Option<Session>) {
    !greeted ==> if session.None? then down == [] else down != [] && IsAnswer(down[0])
  }

  /** While both ends hold the connection they are in step. */
  ghost predicate InStep(c: Config, s: System) {
    s.socket.Some? ==>
      var session := SessionOn(s.server.clients, c.me, s.socket.value);
      && AllMine(c, s.up)
      && Phase(c, s.client, s.greeted, Talk(s.up), Answers(s.down), session)
      && ReplyFirst(s.greeted, s.down, session)
  }

  /** On the client's sockets there is no session but its own, and its own is on one of them. */
  ghost predicate OwnSockets(
    c: Config, clients: Sessions, live: Option<Socket>, stale: map<Socket, seq<Packet>>)
  {
    && (forall k | k in clients :: Mine(live, stale, clients[k].socket) <==> k == c.me)
    && (live.Some? ==> live.value !in stale)
  }

  ghost predicate AllMine(c: Config, packets: seq<Packet>) {
    forall p | p in packets :: p.sender == c.me
  }

  /** Only the connection that carries the session may have more talk than the handshake under way. */
  ghost predicate StaleOnly(c: Config, packets: seq<Packet>, session: Option<Session>) {
    AllMine(c, packets) && (session.None? ==> Talk(packets) == [] || Talk(packets) == [ConnectPacket(c)])
  }

  ghost predicate StaleInOrder(c: Config, clients: Sessions, stale: map<Socket, seq<Packet>>) {
    forall x | x in stale :: StaleOnly(c, stale[x], SessionOn(clients, c.me, x))
  }

  ghost predicate ClientInOrder(client: A.AccountState, connected: bool, live: Option<Socket>) {
    && A.BusyIffPending(client) && A.FieldsAgree(client)
    && (!connected ==> client.pending.NoAction? && !client.loggedIn && live.None?)
  }

  /** The server's sessions are in order, and so is what it has yet to read from stale connections. */
  ghost predicate ServerInOrder(c: Config, clients: Sessions, live: Option<Socket>, stale: map<Socket, seq<Packet>>) {
    SessionsAgree(clients) && OwnSockets(c, clients, live, stale) && StaleInOrder(c, clients, stale)
  }

  ghost predicate Good(c: Config, s: System) {
    && ClientInOrder(s.client, s.connected, s.socket)
    && ServerInOrder(c, s.server.clients, s.socket, s.stale)
    && InStep(c, s)
  }

  // --------------------------------------------------------- the client's steps

  /** The account's slots keep their part of the conversation. */
  lemma UiKeepsGood(c: Config, s: System, e: A.AccountEvent)
    requires Good(c, s) && Permitted(c, s, Ui(e))
    ensures Good(c, Handled(c, s, e))
  {
    HandledKeepsClient(c, s, e);
    if s.socket.Some? {
      AddsAreTalk(c, s, e);
      UiKeepsPhase(c, s, e, Talk(s.up), Answers(s.down), SessionOn(s.server.clients, c.me, s.socket.value));
    }
    hide Phase, ClientInOrder, ServerInOrder, Answers, Talk, SessionOn, Adds, AllMine;
  }

  lemma HandledKeepsClient(c: Config, s: System, e: A.AccountEvent)
    requires ClientInOrder(s.client, s.connected, s.socket) && A.OnOwnPage(s.client, e)
    ensures ClientInOrder(Handled(c, s, e).client, s.connected, s.socket)
  {
    A.AgreementKeptIff(c.texts, s.client, s.connected, e);
    hide A.Complete;
  }

  lemma AddsAreTalk(c: Config, s: System, e: A.AccountEvent)
    requires AllMine(c, s.up)
    ensures Talk(Handled(c, s, e).up) == Talk(s.up) + Adds(c, s.client, s.connected, e)
    ensures AllMine(c, Handled(c, s, e).up)
  {
    hide A.Sends, A.After, Talk;
    TalkAdded(s.up, Adds(c, s.client, s.connected, e));
  }

  lemma UiKeepsPhase(
    c: Config, s: System, e: A.AccountEvent, talk: seq<Packet>, answers: seq<Content>, session: Option<Session>)
    requires ClientInOrder(s.client, s.connected, s.socket) && Permitted(c, s, Ui(e))
    requires Phase(c, s.client, s.greeted, talk, answers, session)
    ensures Phase(c, A.After(c.texts, s.client, s.connected, e), s.greeted,
                  talk + Adds(c, s.client, s.connected, e), answers, session)
  {
    var more, n := Adds(c, s.client, s.connected, e), |talk|;
    UiOutcome(c, s, e);
    hide A.After, A.Sends, Adds;
    if more == [] {
      assert talk + more == talk;
    } else {
      assert (talk + more)[..n] == talk && (talk + more)[n] == more[0];
    }
  }

  /** What a call of the interface sends, and what it makes the account wait for. */
  lemma UiOutcome(c: Config, s: System, e: A.AccountEvent)
    requires ClientInOrder(s.client, s.connected, s.socket) && Permitted(c, s, Ui(e))
    ensures var client, more := A.After(c.texts, s.client, s.connected, e), Adds(c, s.client, s.connected, e);
      && client.loggedIn == s.client.loggedIn
      && if more == [] then client.pending == s.client.pending && client.profile == s.client.profile
         else
           && |more| == 1 && s.client.pending == A.NoAction
           && (|| (client.pending == A.LoggingIn && IsRequest(c, more[0], LOGIN_USER) && s.greeted && !client.loggedIn)
               || (client.pending == A.Registering && IsRequest(c, more[0], REGISTER_USER) && s.greeted
                   && !client.loggedIn)
               || (client.pending == A.LoggingOut && IsRequest(c, more[0], LOGOUT_USER) && client.loggedIn
                   && client.profile == s.client.profile))
  {
    var sends := A.Sends(c.texts, s.client, s.connected, e);
    assert Adds(c, s.client, s.connected, e) == if sends.Some? then [RequestPacket(c, sends.value)] else [];
  }

  lemma AskKeepsGood(c: Config, s: System, p: Packet)
    requires Good(c, s) && Permitted(c, s, Ask(p))
    ensures Good(c, Next(c, s, Ask(p)))
  {
    FilterSnoc(s.up, p, IsTalk);
    assert Talk(s.up + [p]) == Talk(s.up);
    hide Phase, Talk, Answers, ServerInOrder, ClientInOrder;
  }

  /** A content arrives: the account moves on. */
  lemma DeliverKeepsGood(c: Config, s: System, heard: Content)
    requires Good(c, s) && Permitted(c, s, Deliver(heard)) && s.down != []
    ensures Good(c, Next(c, s, Deliver(heard)))
  {
    if IsAnswer(heard) {
      HandledKeepsClient(c, s, EventFor(heard));
    }
    if s.socket.Some? {
      var session := SessionOn(s.server.clients, c.me, s.socket.value);
      FilterFirst(s.down, IsAnswer);
      if IsAnswer(heard) {
        AddsAreTalk(c, s, EventFor(heard));
      }
      if !s.greeted {
        FirstKeepsPhase(c, s, heard, Talk(s.up), Answers(s.down), session);
      } else if IsAnswer(heard) {
        AnswerKeepsPhase(c, s, heard, Talk(s.up), Answers(s.down), session);
      }
      hide Phase, Talk, Answers, SessionOn, Adds, AllMine, ClientInOrder, ServerInOrder;
    }
    hide ClientInOrder, ServerInOrder;
  }

  /** Whatever the first content of a connection is read as, the account ignores it. */
  lemma FirstKeepsPhase(
    c: Config, s: System, heard: Content, talk: seq<Packet>, answers: seq<Content>, session: Option<Session>)
    requires Greeting(c, s.client, talk, answers, session) && session.Some?
    ensures IsAnswer(heard) ==> Adds(c, s.client, s.connected, EventFor(heard)) == []
    ensures IsAnswer(heard) ==> A.After(c.texts, s.client, s.connected, EventFor(heard)) == s.client
    ensures |answers| == 1 && Phase(c, s.client, true, talk, answers[1..], session)
  {
  }

  lemma AnswerKeepsPhase(
    c: Config, s: System, content: Content, talk: seq<Packet>, answers: seq<Content>, session: Option<Session>)
    requires ClientInOrder(s.client, s.connected, s.socket) && IsAnswer(content)
    requires Phase(c, s.client, true, talk, answers, session) && answers != [] && answers[0] == content
    ensures var e := EventFor(content);
      Phase(c, A.After(c.texts, s.client, s.connected, e), true,
            talk + Adds(c, s.client, s.connected, e), answers[1..], session)
  {
  }

  lemma OpenKeepsGood(c: Config, s: System, socket: Socket)
    requires Good(c, s) && Permitted(c, s, Open(socket))
    ensures Good(c, Next(c, s, Open(socket)))
  {
    FilterAll([ConnectPacket(c)], IsTalk);
    assert Talk([ConnectPacket(c)]) == [ConnectPacket(c)];
  }

  lemma DropKeepsGood(c: Config, s: System)
    requires Good(c, s)
    ensures Good(c, Next(c, s, Drop))
  {
    A.AgreementKeptIff(c.texts, s.client, false, A.ConnectionStatus);
  }

  // -------------------------------------------- connections the server drops

  /** A connection's only session goes with it, and nothing else. */
  lemma DisconnectDropsOwn(c: Config, s: System, socket: Socket, env: Env)
    requires OwnSockets(c, s.server.clients, s.socket, s.stale) && Mine(s.socket, s.stale, socket) && Orderly(env.order)
    ensures Disconnect(env, s.server, socket).clients
         == s.server.clients - if SessionOn(s.server.clients, c.me, socket).Some? then {c.me} else {}
  {
    var order := env.order(s.server.clients.Keys);
    assert Enumerates(order, s.server.clients.Keys);
  }

  /** The client's session goes with its connection. */
  lemma OwnMayGo(c: Config, clients: Sessions, live: Option<Socket>, stale: map<Socket, seq<Packet>>, socket: Socket)
    requires ServerInOrder(c, clients, live, stale) && Mine(live, stale, socket)
    ensures var left := clients - if SessionOn(clients, c.me, socket).Some? then {c.me} else {};
      && ServerInOrder(c, left, if live == Some(socket) then None else live, stale - {socket})
      && forall x | x != socket :: SessionOn(left, c.me, x) == SessionOn(clients, c.me, x)
  {
  }

  lemma ServerDropsKeepsGood(c: Config, s: System, env: Env)
    requires Good(c, s) && Permitted(c, s, ServerDrops(env)) && s.socket.Some?
    ensures Good(c, Next(c, s, ServerDrops(env)))
  {
    DisconnectDropsOwn(c, s, s.socket.value, env);
    OwnMayGo(c, s.server.clients, s.socket, s.stale, s.socket.value);
    assert s.stale - {s.socket.value} == s.stale;
    hide Disconnect, Phase, ClientInOrder, ServerInOrder;
  }

  lemma StaleClosesKeepsGood(c: Config, s: System, socket: Socket, env: Env)
    requires Good(c, s) && Permitted(c, s, StaleCloses(socket, env)) && socket in s.stale
    ensures Good(c, Next(c, s, StaleCloses(socket, env)))
  {
    DisconnectDropsOwn(c, s, socket, env);
    OwnMayGo(c, s.server.clients, s.socket, s.stale, socket);
    hide Disconnect, Phase, ClientInOrder, ServerInOrder;
  }

  /** Dropping a session that is not the client's own changes nothing for the client. */
  lemma OthersMayGo(c: Config, s: System, clients: Sessions)
    requires ServerInOrder(c, s.server.clients, s.socket, s.stale)
    requires forall k | k in clients :: k in s.server.clients && clients[k] == s.server.clients[k]
    requires c.me in s.server.clients ==> c.me in clients
    ensures ServerInOrder(c, clients, s.socket, s.stale)
    ensures forall x :: SessionOn(clients, c.me, x) == SessionOn(s.server.clients, c.me, x)
  {
  }

  lemma OtherClosesKeepsGood(c: Config, s: System, socket: Socket, env: Env)
    requires Good(c, s) && Permitted(c, s, OtherCloses(socket, env))
    ensures Good(c, Next(c, s, OtherCloses(socket, env)))
  {
    var clients := Disconnect(env, s.server, socket).clients;
    assert c.me in s.server.clients ==> c.me in clients;
    hide Disconnect, Phase, ClientInOrder, ServerInOrder;
    OthersMayGo(c, s, clients);
  }

  // --------------------------------------------------------- the server's steps

  /** A packet from the client on one of its sockets, or from another client on one of theirs, leaves
      the sessions in order and concerns the sender only. */
  lemma HandleKeepsServer(
    c: Config, env: Env, s: State, live: Option<Socket>, stale: map<Socket, seq<Packet>>, socket: Socket, p: Packet)
    requires ServerInOrder(c, s.clients, live, stale) && Orderly(env.order)
    requires p.sender == c.me <==> Mine(live, stale, socket)
    ensures ServerInOrder(c, Handle(c.formats, env, s, socket, p).state.clients, live, stale)
    ensures Local(s, socket, p.sender, Handle(c.formats, env, s, socket, p))
  {
    HandleIsLocal(c.formats, env, s, socket, p);
    StepKeepsSessions(c.formats, s, Received(socket, p, env));
    hide Handle;
    SocketsKept(c, s, live, stale, socket, p.sender, Handle(c.formats, env, s, socket, p));
  }

  lemma SocketsKept(
    c: Config, s: State, live: Option<Socket>, stale: map<Socket, seq<Packet>>, socket: Socket, sender: Uuid,
    r: Outcome)
    requires OwnSockets(c, s.clients, live, stale) && StaleInOrder(c, s.clients, stale) && Local(s, socket, sender, r)
    requires sender == c.me <==> Mine(live, stale, socket)
    ensures OwnSockets(c, r.state.clients, live, stale) && StaleInOrder(c, r.state.clients, stale)
  {
  }

  /** A step that leaves the session alone and says nothing the account reacts to keeps the two ends
      in step. */
  lemma SilentKeepsStep(c: Config, s: System, r: Outcome)
    requires InStep(c, s) && ServerInOrder(c, r.state.clients, s.socket, s.stale) && Addressed(r.state.clients, r.sent)
    requires s.socket.Some? ==>
      && Silent(r.sent, s.socket.value)
      && SessionOn(r.state.clients, c.me, s.socket.value) == SessionOn(s.server.clients, c.me, s.socket.value)
    ensures InStep(c, Served(s, r))
  {
    if s.socket.Some? {
      hide Phase, Answers, Talk, AllMine;
      SilentKeepsAnswers(s, r);
      if SessionOn(r.state.clients, c.me, s.socket.value).None? {
        NobodyWritten(c, s, r);
      }
    }
  }

  /** Where the client has no session, nothing is written. */
  lemma NobodyWritten(c: Config, s: System, r: Outcome)
    requires OwnSockets(c, r.state.clients, s.socket, s.stale) && Addressed(r.state.clients, r.sent)
    requires s.socket.Some? && SessionOn(r.state.clients, c.me, s.socket.value).None?
    ensures Served(s, r).down == s.down
  {
    forall i | 0 <= i < |r.sent| ensures r.sent[i].socket != s.socket.value {
      assert Mine(s.socket, s.stale, r.sent[i].socket) ==> r.sent[i].session == c.me;
    }
    NothingWritten(r.sent, s.socket.value);
  }

  lemma {:induction false} NothingWritten(sent: seq<Outbound>, socket: Socket)
    requires forall i | 0 <= i < |sent| :: sent[i].socket != socket
    ensures Written(sent, socket) == []
  {
    if sent == [] {
    } else {
      NothingWritten(sent[..|sent| - 1], socket);
    }
  }

  /** A step about another session, or on another connection, leaves the live connection alone. */
  lemma LiveUntouched(c: Config, s: System, socket: Socket, sender: Uuid, r: Outcome)
    requires ServerInOrder(c, s.server.clients, s.socket, s.stale)
    requires ServerInOrder(c, r.state.clients, s.socket, s.stale)
    requires Local(s.server, socket, sender, r) && s.socket != Some(socket)
    requires sender == c.me && c.me in s.server.clients ==> s.server.clients[c.me].socket == socket
    ensures s.socket.Some? ==>
      && Silent(r.sent, s.socket.value)
      && SessionOn(r.state.clients, c.me, s.socket.value) == SessionOn(s.server.clients, c.me, s.socket.value)
  {
  }

  /** Nothing another client does reaches this client's session or answers its requests. */
  lemma OtherKeepsGood(c: Config, s: System, socket: Socket, p: Packet, env: Env)
    requires Good(c, s) && Permitted(c, s, Other(socket, p, env))
    ensures Good(c, Next(c, s, Other(socket, p, env)))
  {
    var r := Handle(c.formats, env, s.server, socket, p);
    HandleKeepsServer(c, env, s.server, s.socket, s.stale, socket, p);
    hide Handle, ServerInOrder, ClientInOrder, InStep;
    LiveUntouched(c, s, socket, p.sender, r);
    SilentKeepsStep(c, s, r);
  }

  /** What is still read from an older connection answers on that connection, or does nothing, or is
      no talk. */
  lemma ServeStaleKeepsGood(c: Config, s: System, socket: Socket, env: Env)
    requires Good(c, s) && Permitted(c, s, ServeStale(socket, env)) && socket in s.stale && s.stale[socket] != []
    ensures Good(c, Next(c, s, ServeStale(socket, env)))
  {
    var p := s.stale[socket][0];
    var r := Handle(c.formats, env, s.server, socket, p);
    var read := s.(stale := s.stale[socket := s.stale[socket][1..]]);
    StaleRead(c, s.server.clients, s.socket, s.stale, socket);
    HandleKeepsServer(c, env, s.server, s.socket, read.stale, socket, p);
    if !IsTalk(p) {
      OnlyThreeChangeSessions(c.formats, env, s.server, socket, p);
    } else if c.me in s.server.clients && s.server.clients[c.me].socket != socket {
      ServesConnect(c, s.server, socket, env);
    } else {
      hide Handle, ServerInOrder, ClientInOrder, InStep;
      LiveUntouched(c, read, socket, p.sender, r);
    }
    assert InStep(c, read) by {
      hide Phase, Talk, Answers;
    }
    hide Handle, ServerInOrder, ClientInOrder, InStep;
    SilentKeepsStep(c, read, r);
  }

  lemma StaleRead(
    c: Config, clients: Sessions, live: Option<Socket>, stale: map<Socket, seq<Packet>>, socket: Socket)
    requires ServerInOrder(c, clients, live, stale) && socket in stale && stale[socket] != []
    ensures ServerInOrder(c, clients, live, stale[socket := stale[socket][1..]])
    ensures stale[socket][0].sender == c.me && live != Some(socket)
    ensures SessionOn(clients, c.me, socket).None? && IsTalk(stale[socket][0]) ==> stale[socket][0] == ConnectPacket(c)
  {
    hide SessionsAgree;
    assert stale[socket][0] in stale[socket];
    FilterFirst(stale[socket], IsTalk);
    assert Talk(stale[socket]) ==
      (if IsTalk(stale[socket][0]) then [stale[socket][0]] else []) + Talk(stale[socket][1..]);
    hide Talk, SessionOn;
    assert StaleOnly(c, stale[socket], SessionOn(clients, c.me, socket));
    assert StaleOnly(c, stale[socket][1..], SessionOn(clients, c.me, socket));
  }

  /** The one packet the server sends back, and the session it leaves, for the request in front. */
  ghost predicate Reacts(c: Config, x: Socket, r: Outcome, content: Content, userId: Option<Uuid>) {
    && r.sent == [Outbound(c.me, x, content)]
    && SessionOn(r.state.clients, c.me, x).Some?
    && r.state.clients[c.me].userId == userId
  }

  ghost predicate Holds(c: Config, s: State, x: Socket) {
    SessionsAgree(s.clients) && SessionOn(s.clients, c.me, x).Some?
  }

  lemma ServesConnect(c: Config, s: State, x: Socket, env: Env)
    ensures c.me !in s.clients ==>
      Reacts(c, x, Handle(c.formats, env, s, x, ConnectPacket(c)), Success(CONNECTED), None)
    ensures c.me in s.clients ==> Handle(c.formats, env, s, x, ConnectPacket(c)) == Outcome(s, [])
  {
  }

  lemma ServesLogin(c: Config, s: State, x: Socket, p: Packet, env: Env)
    returns (content: Content, userId: Option<Uuid>)
    requires Holds(c, s, x) && IsRequest(c, p, LOGIN_USER)
    ensures Reacts(c, x, Handle(c.formats, env, s, x, p), content, userId)
    ensures content.Failure? || (content.Success? && userId.Some?)
  {
    var r := LoginUser(c.formats, env, s, x, p);
    hide Authenticate, SignedInElsewhere;
    content, userId := r.sent[0].content, r.state.clients[c.me].userId;
  }

  lemma ServesRegister(c: Config, s: State, x: Socket, p: Packet, env: Env)
    returns (content: Content, userId: Option<Uuid>)
    requires Holds(c, s, x) && IsRequest(c, p, REGISTER_USER)
    ensures Reacts(c, x, Handle(c.formats, env, s, x, p), content, userId)
    ensures content.Failure? || content.Success?
  {
    var r := RegisterUser(c.formats, env, s, x, p);
    content, userId := r.sent[0].content, r.state.clients[c.me].userId;
  }

  lemma ServesLogout(c: Config, s: State, x: Socket, p: Packet, env: Env)
    requires Holds(c, s, x) && s.clients[c.me].userId.Some? && IsRequest(c, p, LOGOUT_USER)
    ensures Reacts(c, x, Handle(c.formats, env, s, x, p), Success(LOGGED_OUT), None)
  {
  }

  lemma ServesProfile(c: Config, s: State, x: Socket, p: Packet, env: Env) returns (content: Content)
    requires Holds(c, s, x) && s.clients[c.me].userId.Some? && IsRequest(c, p, GET_USER_PROFILE)
    ensures Reacts(c, x, Handle(c.formats, env, s, x, p), content, s.clients[c.me].userId)
    ensures content.Failure? || (content.Profile? && s.clients[c.me].userId == Some(content.userId))
  {
    content := GetUserProfile(env, s, x, p).sent[0].content;
  }

  lemma ServesChats(c: Config, s: State, x: Socket, env: Env) returns (content: Content)
    requires Holds(c, s, x) && s.clients[c.me].userId.Some?
    ensures Reacts(c, x, Handle(c.formats, env, s, x, ChatsPacket(c)), content, s.clients[c.me].userId)
    ensures !IsAnswer(content)
  {
    content := GetChats(env, s, x, ChatsPacket(c)).sent[0].content;
  }

  /** The packet in front is talk: it is the first of the talk, and the rest remains. */
  lemma FirstTalk(c: Config, s: System)
    requires InStep(c, s) && s.socket.Some? && s.up != []
    ensures s.up[0].sender == c.me && AllMine(c, s.up[1..])
    ensures Talk(s.up) == (if IsTalk(s.up[0]) then [s.up[0]] else []) + Talk(s.up[1..])
  {
    assert s.up[0] in s.up;
    FilterFirst(s.up, IsTalk);
  }

  /** What the client asks besides is served without a word to the account. */
  lemma AskedAfterServing(c: Config, s: System, env: Env)
    requires Good(c, s) && Permitted(c, s, Serve(env)) && s.socket.Some? && s.up != [] && !IsTalk(s.up[0])
    ensures InStep(c, Next(c, s, Serve(env)))
  {
    var p, x := s.up[0], s.socket.value;
    var r, read := Handle(c.formats, env, s.server, x, p), s.(up := s.up[1..]);
    FirstTalk(c, s);
    HandleKeepsServer(c, env, s.server, s.socket, s.stale, x, p);
    OnlyThreeChangeSessions(c.formats, env, s.server, x, p);
    assert [] + Talk(s.up[1..]) == Talk(s.up[1..]);
    hide Handle, Phase, Talk, Answers, ServerInOrder, ClientInOrder, AllMine;
    SilentKeepsStep(c, read, r);
  }

  /** Talk before the handshake is over is the handshake itself, with nothing on its way down. */
  lemma HandshakeInFront(c: Config, s: System)
    requires InStep(c, s) && s.socket.Some? && s.up != [] && !s.greeted && IsTalk(s.up[0])
    ensures s.up[0] == ConnectPacket(c) && Talk(s.up[1..]) == [] && AllMine(c, s.up[1..])
    ensures s.down == [] && Answers(s.down) == [] && s.client.pending.NoAction? && !s.client.loggedIn
    ensures SessionOn(s.server.clients, c.me, s.socket.value).None?
  {
    FirstTalk(c, s);
    assert Talk(s.up)[0] == s.up[0];
  }

  /** The handshake is taken up: by a reply, or by silence when an older connection is still there. */
  lemma GreetingAfterServing(c: Config, s: System, env: Env)
    requires Good(c, s) && s.socket.Some? && s.up != [] && !s.greeted && IsTalk(s.up[0])
    ensures InStep(c, Next(c, s, Serve(env)))
  {
    hide Handle, Talk, Answers, AllMine, ServerInOrder, ClientInOrder, Conversation, Next, Served;
    var x, read := s.socket.value, s.(up := s.up[1..]);
    HandshakeInFront(c, s);
    ServingStep(c, s, env);
    ServesConnect(c, s.server, x, env);
    var r := Handle(c.formats, env, s.server, x, ConnectPacket(c));
    ServedChanges(read, r);
    if c.me !in s.server.clients {
      OneAnswer(c, read, r, Success(CONNECTED));
    }
  }

  lemma ServedChanges(s: System, r: Outcome)
    ensures Served(s, r) == s.(server := r.state, down := Served(s, r).down)
    ensures r.sent == [] ==> Served(s, r).down == s.down
  {
  }

  /** With a chat list request out of the way the rest of the conversation is still in order. */
  lemma ListTaken(
    c: Config, client: A.AccountState, talk: seq<Packet>, answers: seq<Content>, was: Session, session: Session)
    requires Conversation(c, client, talk, answers, Some(was)) && talk != [] && talk[0] == ChatsPacket(c)
    requires session.userId == was.userId
    ensures Conversation(c, client, talk[1..], answers, Some(session))
    ensures client.loggedIn && was.userId.Some?
  {
    var n := |talk| - 1;
    assert talk[1..] != [] ==> talk[1..][..n - 1] == talk[..n][1..] && talk[1..][n - 1] == talk[n];
  }

  /** A chat list is served: nothing the account reacts to, and no change of session. */
  lemma ListServed(c: Config, s: System, env: Env) returns (content: Content, session: Session)
    requires Good(c, s) && s.socket.Some? && s.up != [] && s.greeted && s.up[0] == ChatsPacket(c)
    ensures var r := Handle(c.formats, env, s.server, s.socket.value, s.up[0]);
      && r.sent == [Outbound(c.me, s.socket.value, content)] && !IsAnswer(content)
      && SessionOn(r.state.clients, c.me, s.socket.value) == Some(session)
    ensures Phase(c, s.client, true, Talk(s.up[1..]), Answers(s.down), Some(session)) && AllMine(c, s.up[1..])
  {
    var was := s.server.clients[c.me];
    FirstTalk(c, s);
    assert Talk(s.up)[0] == ChatsPacket(c) && Talk(s.up)[1..] == Talk(s.up[1..]);
    hide Handle, Answers, Conversation, Talk, AllMine;
    ListTaken(c, s.client, Talk(s.up), Answers(s.down), was, was);
    content := ServesChats(c, s.server, s.socket.value, env);
    session := Handle(c.formats, env, s.server, s.socket.value, s.up[0]).state.clients[c.me];
    ListTaken(c, s.client, Talk(s.up), Answers(s.down), was, session);
  }

  lemma ChatsAfterServing(c: Config, s: System, env: Env)
    requires Good(c, s) && s.socket.Some? && s.up != [] && s.greeted && s.up[0] == ChatsPacket(c)
    ensures InStep(c, Next(c, s, Serve(env)))
  {
    hide *;
    var r, read := Handle(c.formats, env, s.server, s.socket.value, s.up[0]), s.(up := s.up[1..]);
    ServingStep(c, s, env);
    var content, session := ListServed(c, s, env);
    OneAnswer(c, read, r, content);
    NotHeard(Answers(s.down), content);
    PhaseAfterServing(c, read, r, Answers(s.down), session);
  }

  lemma ServingStep(c: Config, s: System, env: Env)
    requires s.socket.Some? && s.up != []
    ensures Next(c, s, Serve(env))
         == Served(s.(up := s.up[1..]), Handle(c.formats, env, s.server, s.socket.value, s.up[0]))
  {
  }

  lemma NotHeard(answers: seq<Content>, content: Content)
    requires !IsAnswer(content)
    ensures answers + (if IsAnswer(content) then [content] else []) == answers
  {
  }

  lemma PhaseAfterServing(c: Config, read: System, r: Outcome, answers: seq<Content>, session: Session)
    requires read.socket.Some? && read.greeted && AllMine(c, read.up)
    requires SessionOn(r.state.clients, c.me, read.socket.value) == Some(session)
    requires Phase(c, read.client, true, Talk(read.up), answers, Some(session))
    requires Answers(Served(read, r).down) == answers
    ensures InStep(c, Served(read, r))
  {
  }

  /** A request is served: its answer, and the session the answer speaks of. */
  lemma RequestServed(c: Config, s: System, env: Env) returns (content: Content, userId: Option<Uuid>)
    requires Good(c, s) && s.socket.Some? && s.up != [] && s.greeted && IsTalk(s.up[0]) && s.up[0] != ChatsPacket(c)
    ensures Reacts(c, s.socket.value, Handle(c.formats, env, s.server, s.socket.value, s.up[0]), content, userId)
    ensures IsAnswer(content) && Talk(s.up) == [s.up[0]] && Answers(s.down) == []
    ensures forall session: Session | session.userId == userId ::
      Conversation(c, s.client, [], [content], Some(session))
  {
    var p, x := s.up[0], s.socket.value;
    FirstTalk(c, s);
    assert p == Talk(s.up)[0];
    hide Answers, Handle, Talk;
    if s.client.pending.LoggingOut? {
      content, userId := Success(LOGGED_OUT), None;
      ServesLogout(c, s.server, x, p, env);
    } else if s.client.pending.FetchingProfile? {
      userId := s.server.clients[c.me].userId;
      content := ServesProfile(c, s.server, x, p, env);
    } else if s.client.pending.LoggingIn? {
      content, userId := ServesLogin(c, s.server, x, p, env);
    } else {
      content, userId := ServesRegister(c, s.server, x, p, env);
    }
  }

  lemma RequestAfterServing(c: Config, s: System, env: Env)
    requires Good(c, s) && s.socket.Some? && s.up != [] && s.greeted && IsTalk(s.up[0]) && s.up[0] != ChatsPacket(c)
    ensures InStep(c, Next(c, s, Serve(env)))
  {
    hide Handle, Phase, Conversation, Answers, Talk, AllMine, SessionOn, Served, Next, ServerInOrder, ClientInOrder;
    var r, read := Handle(c.formats, env, s.server, s.socket.value, s.up[0]), s.(up := s.up[1..]);
    ServingStep(c, s, env);
    var content, userId := RequestServed(c, s, env);
    OneAnswer(c, read, r, content);
    RequestPhase(c, s, r, content, userId);
    PhaseAfterServing(c, read, r, [content], r.state.clients[c.me]);
  }

  lemma RequestPhase(c: Config, s: System, r: Outcome, content: Content, userId: Option<Uuid>)
    requires InStep(c, s) && s.socket.Some? && s.greeted && s.up != [] && IsTalk(s.up[0]) && Talk(s.up) == [s.up[0]]
    requires Reacts(c, s.socket.value, r, content, userId) && IsAnswer(content)
    requires forall session: Session | session.userId == userId ::
      Conversation(c, s.client, [], [content], Some(session))
    ensures c.me in r.state.clients
    ensures SessionOn(r.state.clients, c.me, s.socket.value) == Some(r.state.clients[c.me])
    ensures AllMine(c, s.up[1..])
    ensures Phase(c, s.client, true, Talk(s.up[1..]), [content], Some(r.state.clients[c.me]))
    ensures [] + (if IsAnswer(content) then [content] else []) == [content]
  {
    hide Conversation, Talk;
    FirstTalk(c, s);
    assert Talk(s.up[1..]) == [];
  }

  lemma ServeKeepsGood(c: Config, s: System, env: Env)
    requires Good(c, s) && Permitted(c, s, Serve(env)) && s.socket.Some? && s.up != []
    ensures Good(c, Next(c, s, Serve(env)))
  {
    FirstTalk(c, s);
    if !IsTalk(s.up[0]) {
      AskedAfterServing(c, s, env);
    } else if !s.greeted {
      GreetingAfterServing(c, s, env);
    } else if s.up[0] == ChatsPacket(c) {
      ChatsAfterServing(c, s, env);
    } else {
      RequestAfterServing(c, s, env);
    }
    HandleKeepsServer(c, env, s.server, s.socket, s.stale, s.socket.value, s.up[0]);
    hide Handle, InStep, ServerInOrder, ClientInOrder;
  }

  // ------------------------------------------------------------------ agreement

  lemma StepKeepsGood(c: Config, s: System, m: Move)
    requires Good(c, s) && Permitted(c, s, m)
    ensures Good(c, Next(c, s, m))
  {
    match m
    case Open(socket) => OpenKeepsGood(c, s, socket);
    case Drop => DropKeepsGood(c, s);
    case ServerDrops(env) =>
      if s.socket.Some? {
        ServerDropsKeepsGood(c, s, env);
      }
    case Ui(e) => UiKeepsGood(c, s, e);
    case Serve(env) =>
      if s.socket.Some? && s.up != [] {
        ServeKeepsGood(c, s, env);
      }
    case Ask(packet) => AskKeepsGood(c, s, packet);
    case Deliver(heard) =>
      if s.down != [] {
        DeliverKeepsGood(c, s, heard);
      }
    case ServeStale(socket, env) =>
      if socket in s.stale && s.stale[socket] != [] {
        ServeStaleKeepsGood(c, s, socket, env);
      }
    case StaleCloses(socket, env) =>
      if socket in s.stale {
        StaleClosesKeepsGood(c, s, socket, env);
      }
    case Other(socket, packet, env) => OtherKeepsGood(c, s, socket, packet, env);
    case OtherCloses(socket, env) => OtherClosesKeepsGood(c, s, socket, env);
  }

  /** Why the other requests must be answered discreetly: a lookup that fails is heard as the answer to
      a logout asked for meanwhile. The client then shows itself logged in, with nothing pending, while
      the server has logged its session out. */
  lemma FailedLookupBreaksAgreement(c: Config, s: System, lookup: Packet, env: Env)
    requires Good(c, s) && s.socket.Some? && s.greeted && s.client.loggedIn && s.client.pending.NoAction?
    requires s.up == [] && s.down == []
    requires lookup.kind == GET_USER_INFO && lookup.sender == c.me && lookup.data.None?
    ensures var asked := Next(c, Next(c, s, Ask(lookup)), Serve(env));
      var heard := Next(c, Next(c, asked, Ui(A.CallLogout)), Deliver(Failure(NO_INFO_PAYLOAD)));
      var s' := Next(c, heard, Serve(env));
      && asked.down == [Failure(NO_INFO_PAYLOAD)]
      && s'.socket.Some? && s'.client.loggedIn && s'.client.pending.NoAction?
      && c.me in s'.server.clients && s'.server.clients[c.me].userId == None
  {
    var x, failed := s.socket.value, Failure(NO_INFO_PAYLOAD);
    FailedLookupServed(c, s, lookup, env);
    var asked := s.(down := [failed]);
    var leaving := Next(c, asked, Ui(A.CallLogout));
    assert leaving.up == [RequestPacket(c, A.LogoutRequest)];
    var heard := Next(c, leaving, Deliver(failed));
    assert heard.up == leaving.up;
    hide InStep, ServerInOrder;
    ServesLogout(c, heard.server, x, heard.up[0], env);
  }

  lemma FailedLookupServed(c: Config, s: System, lookup: Packet, env: Env)
    requires Good(c, s) && s.socket.Some? && s.greeted && s.client.loggedIn && s.client.pending.NoAction?
    requires s.up == [] && s.down == []
    requires lookup.kind == GET_USER_INFO && lookup.sender == c.me && lookup.data.None?
    ensures Next(c, Next(c, s, Ask(lookup)), Serve(env)) == s.(down := [Failure(NO_INFO_PAYLOAD)])
    ensures Holds(c, s.server, s.socket.value) && s.server.clients[c.me].userId.Some?
  {
    var r := Handle(c.formats, env, s.server, s.socket.value, lookup);
    assert r == Outcome(s.server, [Outbound(c.me, s.socket.value, Failure(NO_INFO_PAYLOAD))]);
    OneAnswer(c, s, r, Failure(NO_INFO_PAYLOAD));
  }

  /** The profile that ends a login is shown field by field, and the chats are asked for. */
  lemma ProfileShown(c: Config, s: System, userId: Uuid, user: Tables.User)
    requires s.connected && s.client.pending == A.FetchingProfile && !s.client.loggedIn
    requires s.down != [] && s.down[0] == Profile(userId, user)
    ensures var s' := Next(c, s, Deliver(s.down[0]));
      && s'.client.loggedIn && s'.client.pending == A.NoAction
      && s'.client.profile == Some(A.ProfileInfo(userId, user.username, user.displayName, user.email))
      && s'.up == s.up + [Packet(GET_CHATS, c.me, c.serverId, None)]
      && s'.down == s.down[1..]
  {
  }

  /** What the server refuses with is what the account shows. */
  lemma RefusalReachesAccount(c: Config, s: System, text: string)
    requires s.client.pending != A.NoAction && s.down != [] && s.down[0] == Failure(text)
    ensures Next(c, s, Deliver(s.down[0])).client.statusText == text
    ensures Next(c, s, Deliver(s.down[0])).client.pending == A.NoAction
  {
    A.RefusalShown(c.texts, s.client, s.connected, text);
  }

  /** A server that knows no session of this client's. */
  ghost predicate Fresh(c: Config, server: State) {
    SessionsAgree(server.clients) && c.me !in server.clients
  }

  lemma {:induction false} AlwaysGood(c: Config, server: State, moves: seq<Move>)
    requires Fresh(c, server) && AllPermitted(c, server, moves)
    ensures Good(c, Run(c, server, moves))
  {
    if moves == [] {
    } else {
      var n := |moves| - 1;
      assert AllPermitted(c, server, moves[..n]) by {
        forall i | 0 <= i < n ensures Permitted(c, Run(c, server, moves[..n][..i]), moves[..n][i]) {
          assert moves[..n][..i] == moves[..i];
        }
      }
      AlwaysGood(c, server, moves[..n]);
      StepKeepsGood(c, Run(c, server, moves[..n]), moves[n]);
    }
  }

  /** While both ends hold the connection: whenever the client shows itself logged in and no logout is
      under way, the server's session for it on this very connection is authorized as exactly the user
      of the profile on display, and no other session is. */
  lemma {:induction false} Agreement(c: Config, server: State, moves: seq<Move>)
    requires Fresh(c, server) && AllPermitted(c, server, moves)
    ensures var s := Run(c, server, moves);
      s.socket.Some? && s.client.loggedIn && !s.client.pending.LoggingOut? ==>
        && s.client.profile.Some?
        && c.me in s.server.clients
        && s.server.clients[c.me].socket == s.socket.value
        && s.server.clients[c.me].isAuthorized
        && s.server.clients[c.me].userId == Some(s.client.profile.value.userId)
        && forall k | k in s.server.clients && k != c.me ::
             s.server.clients[k].userId != Some(s.client.profile.value.userId)
  {
    AlwaysGood(c, server, moves);
  }
}
