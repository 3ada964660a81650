/** `server/src/Server.cpp` as a state machine: what each packet does to the sessions and the
    tables, and what the server sends in answer. */
module ServerModel {
  import opened Prelude
  import opened PacketCodec
  import opened Tables
  import opened ChatCreation
  import opened Streams

  /** A ClientConnection. */
  datatype Session = Session(sessionId: Uuid, socket: Socket, isAuthorized: bool, userId: Option<Uuid>)

  /** The server's `m_clients`. */
  type Sessions = map<Uuid, Session>

  datatype State = State(clients: Sessions, db: Tables)

  datatype Message = Message(senderUserId: Uuid, targetChatId: Uuid, isMedia: bool, content: string)
  datatype LoginInfo = LoginInfo(login: string, passwordHash: string)
  datatype RegisterInfo = RegisterInfo(username: string, displayName: string, email: string, passwordHash: string)
  datatype InfoRequest = ById(userId: Uuid) | ByName(username: string)

  /** The payload formats and the text rules, which are not part of this model; `chatKinds` is the
      kinds whose name contains the text of a chat search, none for a blank one. */
  datatype Formats = Formats(
    login: seq<byte> -> Option<LoginInfo>,
    register: seq<byte> -> Option<RegisterInfo>,
    profileUpdate: seq<byte> -> Option<ProfileUpdate>,
    message: seq<byte> -> Message,
    createChat: seq<byte> -> Option<seq<Uuid>>,
    userInfo: seq<byte> -> Option<InfoRequest>,
    chatKinds: seq<byte> -> set<ChatKind>,
    trimmed: string -> string,
    normalized: string -> string,
    validUsername: string -> bool)

  /** What the outside contributes to one step: hash orders, a new UUID, and failures. */
  datatype Env = Env(
    order: HashOrder, freshId: Uuid, readFault: bool, emailFault: bool, writeFault: bool, rereadFault: bool,
    profileFault: bool, creation: Faults)

  /** A chat as it is listed to clients. */
  datatype ListedChat = ListedChat(chat: Chat, members: set<Uuid>)

  datatype Content =
    | Success(text: string)
    | Failure(text: string)
    | Routed(message: Message)
    | Profile(userId: Uuid, user: User)
    | PublicInfo(userId: Uuid, username: string, displayName: string)
    | ChatList(chats: map<Uuid, ListedChat>)
    | ChatInfo(chatId: Uuid, info: ListedChat)

  /** One packet written to the socket of one session. */
  datatype Outbound = Outbound(session: Uuid, socket: Socket, content: Content)

  datatype Outcome = Outcome(state: State, sent: seq<Outbound>)

  /** `sendPacket`: nothing is sent to a session that is not there. */
  function Send(clients: Sessions, session: Uuid, content: Content): seq<Outbound> {
    if session in clients then [Outbound(session, clients[session].socket, content)] else []
  }

  function Reply(s: State, session: Uuid, content: Content): Outcome {
    Outcome(s, Send(s.clients, session, content))
  }

  predicate SignedIn(c: Session) {
    c.isAuthorized && c.userId.Some?
  }

  // ------------------------------------------------------ texts of the replies

  const CONNECTED := "Connected"
  const INVALID_REGISTER_PAYLOAD := "Invalid register payload"
  const EMPTY_DISPLAY_NAME := "Display name must not be empty"
  const USERNAME_TAKEN := "Username already exists"
  const REGISTRATION_FAILED := "Registration failed"
  const REGISTERED := "Registration successful"
  const INVALID_LOGIN_PAYLOAD := "Invalid login payload"
  const INVALID_CREDENTIALS := "Invalid login or password"
  const LOGGED_IN_ELSEWHERE := "User is already logged in from another device"
  const LOGGED_IN := "Login successful"
  const NOT_AUTHORIZED := "Not authorized"
  const LOGGED_OUT := "Logout successful"
  const USER_NOT_FOUND := "User not found"
  const EMPTY_EMAIL := "Email must not be empty"
  const EMPTY_PASSWORD_HASH := "Password hash must not be empty"
  const EMAIL_TAKEN := "Email already exists"
  const NO_UPDATE_PAYLOAD := "Profile update payload is missing"
  const INVALID_UPDATE_PAYLOAD := "Invalid profile update payload"
  const UPDATE_FAILED := "Failed to update profile"
  const PROFILE_UNREAD := "Failed to read updated profile"
  const NO_INFO_PAYLOAD := "User info request payload is missing"
  const INVALID_INFO_PAYLOAD := "Invalid user info request payload"
  const INVALID_USER_ID := "Invalid user id"
  const INVALID_USERNAME := "Invalid username"
  const NO_SEARCH_PAYLOAD := "Chat search payload is missing"
  const UPDATED := "Profile updated successfully"
  const NO_CHAT_PAYLOAD := "Chat create payload is missing"
  const INVALID_CHAT_PAYLOAD := "Invalid chat create payload"
  const TOO_FEW_MEMBERS := "Chat must have at least one valid member"
  const CHAT_FAILED := "Failed to create chat"
  const MEMBER_FAILED := "Failed to add chat member"
  const CHAT_CREATED := "Chat created successfully"
  const NO_MESSAGE_PAYLOAD := "Message payload is missing"
  const INVALID_CHAT_ID := "Invalid chat id"
  const CHAT_NOT_FOUND := "Chat not found"
  const INVALID_SENDER := "Invalid sender user id"
  const NOT_A_MEMBER := "You are not a member of this chat"

  // --------------------------------------------------------------- handlers

  function ConnectClient(s: State, socket: Socket, p: Packet): (r: Outcome)
    ensures r.state.db == s.db
    ensures forall i | 0 <= i < |r.sent| :: !r.sent[i].content.Routed?
  {
    if p.sender in s.clients then Outcome(s, [])
    else Reply(s.(clients := s.clients[p.sender := Session(p.sender, socket, false, None)]),
               p.sender, Success(CONNECTED))
  }

  function FindUsername(t: Tables, username: string): set<Uuid> {
    set id | id in t.users && t.users[id].username == username
  }

  function Registered(f: Formats, info: RegisterInfo): User {
    User(f.trimmed(info.username), f.trimmed(info.displayName), info.passwordHash, f.trimmed(info.email))
  }

  function RegisterUser(f: Formats, env: Env, s: State, socket: Socket, p: Packet): (r: Outcome)
    ensures r.state.clients == s.clients
    ensures forall i | 0 <= i < |r.sent| :: !r.sent[i].content.Routed?
  {
    if p.sender !in s.clients then Outcome(s, [])
    else
      var c := s.clients[p.sender];
      if c.socket != socket || p.data.None? then Outcome(s, [])
      else if f.register(p.data.value).None? then Reply(s, c.sessionId, Failure(INVALID_REGISTER_PAYLOAD))
      else
        var info := f.register(p.data.value).value;
        var user := Registered(f, info);
        if !f.validUsername(user.username) then Reply(s, c.sessionId, Failure(BAD_USERNAME))
        else if user.displayName == "" then Reply(s, c.sessionId, Failure(EMPTY_DISPLAY_NAME))
        else if !env.readFault && FindUsername(s.db, user.username) != {} then
          Reply(s, c.sessionId, Failure(USERNAME_TAKEN))
        else if env.writeFault || !Allowed(s.db, CreateUser(env.freshId, user)) then
          Reply(s, c.sessionId, Failure(REGISTRATION_FAILED))
        else
          Reply(s.(db := Apply(s.db, CreateUser(env.freshId, user))), c.sessionId, Success(REGISTERED))
  }

  function Matching(t: Tables, info: LoginInfo): set<Uuid> {
    set id | id in t.users && t.users[id].username == info.login && t.users[id].passwordHash == info.passwordHash
  }

  /** `authenticateUser`: some matching row, if the query works and there is one. */
  function Authenticate(t: Tables, info: LoginInfo, env: Env): Option<Uuid> {
    var found := env.order(Matching(t, info));
    if env.readFault || found == [] then None else Some(found[0])
  }

  /** The user is already signed in on a session other than this one. */
  predicate SignedInElsewhere(clients: Sessions, session: Uuid, userId: Uuid) {
    exists k | k in clients ::
      SignedIn(clients[k]) && clients[k].sessionId != session && clients[k].userId == Some(userId)
  }

  function LoginUser(f: Formats, env: Env, s: State, socket: Socket, p: Packet): (r: Outcome)
    ensures r.state.db == s.db
    ensures forall i | 0 <= i < |r.sent| :: !r.sent[i].content.Routed?
  {
    if p.sender !in s.clients then Outcome(s, [])
    else
      var c := s.clients[p.sender];
      if c.socket != socket || p.data.None? then Outcome(s, [])
      else if f.login(p.data.value).None? then Reply(s, c.sessionId, Failure(INVALID_LOGIN_PAYLOAD))
      else LoginAs(env, s, p.sender, f.login(p.data.value).value)
  }

  /** The login itself, once the request is in order. */
  function LoginAs(env: Env, s: State, key: Uuid, info: LoginInfo): (r: Outcome)
    requires key in s.clients
    ensures r.state.db == s.db
    ensures forall i | 0 <= i < |r.sent| :: !r.sent[i].content.Routed?
  {
    var c, user := s.clients[key], Authenticate(s.db, info, env);
    if user.None? then Reply(s, c.sessionId, Failure(INVALID_CREDENTIALS))
    else if SignedInElsewhere(s.clients, c.sessionId, user.value) then
      Reply(s, c.sessionId, Failure(LOGGED_IN_ELSEWHERE))
    else
      Reply(s.(clients := s.clients[key := c.(isAuthorized := true, userId := user)]), c.sessionId, Success(LOGGED_IN))
  }

  function LogoutUser(s: State, socket: Socket, p: Packet): (r: Outcome)
    ensures r.state.db == s.db
    ensures forall i | 0 <= i < |r.sent| :: !r.sent[i].content.Routed?
  {
    if p.sender !in s.clients then Outcome(s, [])
    else
      var c := s.clients[p.sender];
      if c.socket != socket then Outcome(s, [])
      else if !c.isAuthorized then Reply(s, c.sessionId, Failure(NOT_AUTHORIZED))
      else
        Reply(s.(clients := s.clients[p.sender := c.(isAuthorized := false, userId := None)]),
              c.sessionId, Success(LOGGED_OUT))
  }

  function GetUserProfile(env: Env, s: State, socket: Socket, p: Packet): (r: Outcome)
    ensures r.state.clients == s.clients
    ensures r.state.db == s.db
    ensures forall i | 0 <= i < |r.sent| :: !r.sent[i].content.Routed?
  {
    if p.sender !in s.clients then Outcome(s, [])
    else
      var c := s.clients[p.sender];
      if c.socket != socket || !SignedIn(c) then Reply(s, c.sessionId, Failure(NOT_AUTHORIZED))
      else if env.readFault || c.userId.value !in s.db.users then Reply(s, c.sessionId, Failure(USER_NOT_FOUND))
      else Reply(s, c.sessionId, Profile(c.userId.value, s.db.users[c.userId.value]))
  }

  function TrimmedUpdate(f: Formats, u: ProfileUpdate): ProfileUpdate {
    u.(username := if u.username.Some? then Some(f.trimmed(u.username.value)) else None,
       displayName := if u.displayName.Some? then Some(f.trimmed(u.displayName.value)) else None,
       email := if u.email.Some? then Some(f.trimmed(u.email.value)) else None)
  }

  /** The first complaint about the requested fields, in the order they are checked. */
  function UpdateComplaint(f: Formats, env: Env, t: Tables, userId: Uuid, u: ProfileUpdate): Option<string> {
    if u.username.Some? && !f.validUsername(u.username.value) then Some(BAD_USERNAME)
    else if u.displayName == Some("") then Some(EMPTY_DISPLAY_NAME)
    else if u.email == Some("") then Some(EMPTY_EMAIL)
    else if u.passwordHash == Some("") then Some(EMPTY_PASSWORD_HASH)
    else if !env.readFault && u.username.Some? &&
            exists id | id in t.users :: id != userId && t.users[id].username == u.username.value
      then Some(USERNAME_TAKEN)
    else if !env.emailFault && u.email.Some? &&
            exists id | id in t.users :: id != userId && t.users[id].email == u.email.value
      then Some(EMAIL_TAKEN)
    else None
  }

  function UpdateUserProfile(f: Formats, env: Env, s: State, socket: Socket, p: Packet): (r: Outcome)
    ensures r.state.clients == s.clients
    ensures forall i | 0 <= i < |r.sent| :: !r.sent[i].content.Routed?
  {
    if p.sender !in s.clients then Outcome(s, [])
    else
      var c := s.clients[p.sender];
      if c.socket != socket || !SignedIn(c) then Reply(s, c.sessionId, Failure(NOT_AUTHORIZED))
      else if p.data.None? then Reply(s, c.sessionId, Failure(NO_UPDATE_PAYLOAD))
      else if f.profileUpdate(p.data.value).None? then
        Reply(s, c.sessionId, Failure(INVALID_UPDATE_PAYLOAD))
      else
        UpdateProfileAs(f, env, s, c.sessionId, c.userId.value, TrimmedUpdate(f, f.profileUpdate(p.data.value).value))
  }

  /** The update itself, once the request is in order. */
  function UpdateProfileAs(
    f: Formats, env: Env, s: State, session: Uuid, userId: Uuid, update: ProfileUpdate): (r: Outcome)
    ensures r.state.clients == s.clients
    ensures forall i | 0 <= i < |r.sent| :: !r.sent[i].content.Routed?
  {
    var complaint := UpdateComplaint(f, env, s.db, userId, update);
    if complaint.Some? then Reply(s, session, Failure(complaint.value))
    else
      var s' := s.(db := Attempt(s.db, UpdateProfile(userId, update), env.writeFault));
      if env.writeFault || !Allowed(s.db, UpdateProfile(userId, update)) || env.rereadFault then
        Reply(s', session, Failure(UPDATE_FAILED))
      else if env.profileFault then Reply(s', session, Failure(PROFILE_UNREAD))
      else
        Outcome(s', Send(s'.clients, session, Success(UPDATED))
                  + Send(s'.clients, session, Profile(userId, s'.db.users[userId])))
  }

  function PublicOf(t: Tables, id: Uuid): Content
    requires id in t.users
  {
    PublicInfo(id, t.users[id].username, t.users[id].displayName)
  }

  /** The answer to a lookup by id or by username, or the complaint about it. */
  function InfoAnswer(f: Formats, env: Env, t: Tables, request: InfoRequest): (r: Content)
    ensures !r.Routed?
  {
    match request
    case ById(id) =>
      if id == NULL_UUID then Failure(INVALID_USER_ID)
      else if env.readFault || id !in t.users then Failure(USER_NOT_FOUND)
      else PublicOf(t, id)
    case ByName(name) =>
      var username := f.normalized(name);
      var found := env.order(FindUsername(t, username));
      if !f.validUsername(username) then Failure(INVALID_USERNAME)
      else if env.readFault || found == [] || found[0] !in t.users then Failure(USER_NOT_FOUND)
      else PublicOf(t, found[0])
  }

  function GetUserInfo(f: Formats, env: Env, s: State, socket: Socket, p: Packet): (r: Outcome)
    ensures r.state == s
    ensures forall i | 0 <= i < |r.sent| :: !r.sent[i].content.Routed?
  {
    if p.sender !in s.clients then Outcome(s, [])
    else
      var c := s.clients[p.sender];
      if c.socket != socket || !c.isAuthorized then Reply(s, c.sessionId, Failure(NOT_AUTHORIZED))
      else if p.data.None? then Reply(s, c.sessionId, Failure(NO_INFO_PAYLOAD))
      else if f.userInfo(p.data.value).None? then Reply(s, c.sessionId, Failure(INVALID_INFO_PAYLOAD))
      else Reply(s, c.sessionId, InfoAnswer(f, env, s.db, f.userInfo(p.data.value).value))
  }

  function Listed(t: Tables, c: Uuid): ListedChat
    requires c in t.chats
  {
    ListedChat(t.chats[c], UsersIn(t.members, c))
  }

  /** The chats of a user with their members; nothing when the query fails. */
  function ChatsOf(t: Tables, userId: Uuid, fault: bool): map<Uuid, ListedChat> {
    if fault then map[]
    else map c | c in t.chats && c in ChatsIn(t.members, userId) :: Listed(t, c)
  }

  /** The chats of these kinds; nothing when the query fails. */
  function ChatsOfKinds(t: Tables, kinds: set<ChatKind>, fault: bool): map<Uuid, ListedChat> {
    if fault then map[] else map c | c in t.chats && t.chats[c].kind in kinds :: Listed(t, c)
  }

  function SearchChats(f: Formats, env: Env, s: State, socket: Socket, p: Packet): (r: Outcome)
    ensures r.state == s
    ensures forall i | 0 <= i < |r.sent| :: !r.sent[i].content.Routed?
  {
    if p.sender !in s.clients then Outcome(s, [])
    else
      var c := s.clients[p.sender];
      if c.socket != socket || !c.isAuthorized then Reply(s, c.sessionId, Failure(NOT_AUTHORIZED))
      else if p.data.None? then Reply(s, c.sessionId, Failure(NO_SEARCH_PAYLOAD))
      else Reply(s, c.sessionId, ChatList(ChatsOfKinds(s.db, f.chatKinds(p.data.value), env.readFault)))
  }

  function GetChats(env: Env, s: State, socket: Socket, p: Packet): (r: Outcome)
    ensures r.state.clients == s.clients
    ensures r.state.db == s.db
    ensures forall i | 0 <= i < |r.sent| :: !r.sent[i].content.Routed?
  {
    if p.sender !in s.clients then Outcome(s, [])
    else
      var c := s.clients[p.sender];
      if c.socket != socket || !SignedIn(c) then Reply(s, c.sessionId, Failure(NOT_AUTHORIZED))
      else Reply(s, c.sessionId, ChatList(ChatsOf(s.db, c.userId.value, env.readFault)))
  }

  /** `sendUpdatedChatLists`, walking the sessions in this order. */
  function UpdatedChatLists(s: State, order: seq<Uuid>, members: set<Uuid>, fault: bool): (r: seq<Outbound>)
    ensures forall i | 0 <= i < |r| :: r[i].content.ChatList?
  {
    if order == [] then []
    else
      var rest, k := UpdatedChatLists(s, order[..|order| - 1], members, fault), order[|order| - 1];
      if k in s.clients && SignedIn(s.clients[k]) && s.clients[k].userId.value in members then
        rest + Send(s.clients, s.clients[k].sessionId, ChatList(ChatsOf(s.db, s.clients[k].userId.value, fault)))
      else rest
  }

  function CreateChatFor(f: Formats, env: Env, s: State, socket: Socket, p: Packet): (r: Outcome)
    ensures r.state.clients == s.clients
    ensures forall i | 0 <= i < |r.sent| :: !r.sent[i].content.Routed?
  {
    if p.sender !in s.clients then Outcome(s, [])
    else
      var c := s.clients[p.sender];
      if c.socket != socket || !SignedIn(c) then Reply(s, c.sessionId, Failure(NOT_AUTHORIZED))
      else if p.data.None? then Reply(s, c.sessionId, Failure(NO_CHAT_PAYLOAD))
      else if f.createChat(p.data.value).None? then Reply(s, c.sessionId, Failure(INVALID_CHAT_PAYLOAD))
      else
        var creator, requested := c.userId.value, f.createChat(p.data.value).value;
        CreateChatAs(env, s, c.sessionId, creator, requested)
  }

  /** The creation itself, once the request is in order. */
  function CreateChatAs(env: Env, s: State, session: Uuid, creator: Uuid, requested: seq<Uuid>): (r: Outcome)
    ensures r.state.clients == s.clients
    ensures forall i | 0 <= i < |r.sent| :: !r.sent[i].content.Routed?
  {
    var r := Create(s.db, env.freshId, creator, requested, env.order, env.creation);
    var s' := s.(db := r.tables);
    match r.verdict
    case TooFew => Reply(s', session, Failure(TOO_FEW_MEMBERS))
    case ChatRefused => Reply(s', session, Failure(CHAT_FAILED))
    case MemberRefused => Reply(s', session, Failure(MEMBER_FAILED))
    case Created =>
      var members := Chosen(s.db, creator, requested, env.creation.lookups);
      Outcome(s', Announcements(env, s', session, creator, members))
  }

  function Announcements(env: Env, s: State, session: Uuid, creator: Uuid, members: set<Uuid>): (r: seq<Outbound>)
    ensures forall i | 0 <= i < |r| :: !r[i].content.Routed?
  {
    Send(s.clients, session, Success(CHAT_CREATED))
    + Send(s.clients, session,
           ChatInfo(env.freshId, ListedChat(Chat(KindFor(|members|), Some(creator)),
                                            MembersSeen(s.db, env.freshId, env.readFault))))
    + UpdatedChatLists(s, env.order(s.clients.Keys), members, env.readFault)
  }

  /** `getUserIdsByChatId`: no rows when the query fails. */
  function MembersSeen(t: Tables, chatId: Uuid, fault: bool): set<Uuid> {
    if fault then {} else UsersIn(t.members, chatId)
  }

  /** The session gets a copy of a message to these members sent from session `from`. */
  predicate Receives(clients: Sessions, k: Uuid, from: Uuid, members: set<Uuid>) {
    k in clients && SignedIn(clients[k]) && clients[k].userId.value in members && k != from
  }

  /** The copies of a message, walking the sessions in this order. */
  function Copies(clients: Sessions, order: seq<Uuid>, from: Uuid, members: set<Uuid>, m: Message): seq<Outbound> {
    if order == [] then []
    else
      var rest, k := Copies(clients, order[..|order| - 1], from, members, m), order[|order| - 1];
      if Receives(clients, k, from, members) then rest + Send(clients, k, Routed(m)) else rest
  }

  function ChatMessageFrom(f: Formats, env: Env, s: State, c: Session, p: Packet): (r: Outcome)
    ensures r.state.clients == s.clients
    ensures r.state.db == s.db
  {
    if p.data.None? then Reply(s, c.sessionId, Failure(NO_MESSAGE_PAYLOAD))
    else
      var incoming := f.message(p.data.value);
      var members := MembersSeen(s.db, incoming.targetChatId, env.readFault);
      if incoming.targetChatId == NULL_UUID then Reply(s, c.sessionId, Failure(INVALID_CHAT_ID))
      else if c.userId.None? then Reply(s, c.sessionId, Failure(NOT_AUTHORIZED))
      else if members == {} then Reply(s, c.sessionId, Failure(CHAT_NOT_FOUND))
      else
        var user := c.userId.value;
        var sender := if incoming.senderUserId == NULL_UUID then user else incoming.senderUserId;
        if sender != user then Reply(s, c.sessionId, Failure(INVALID_SENDER))
        else if user !in members then Reply(s, c.sessionId, Failure(NOT_A_MEMBER))
        else Outcome(s, Copies(s.clients, env.order(s.clients.Keys), c.sessionId, members,
                               incoming.(senderUserId := sender)))
  }

  /** `handleAuthorizedPacket`: only chat messages have an effect. */
  function AuthorizedPacket(f: Formats, env: Env, s: State, p: Packet): (r: Outcome)
    ensures r.state.clients == s.clients
    ensures r.state.db == s.db
  {
    if p.sender == NULL_UUID || p.sender !in s.clients then Outcome(s, [])
    else
      var c := s.clients[p.sender];
      if !c.isAuthorized then Reply(s, p.sender, Failure(NOT_AUTHORIZED))
      else if p.kind == CHAT_MESSAGE then ChatMessageFrom(f, env, s, c, p)
      else Outcome(s, [])
  }

  /** The switch of `onServerRead`. */
  function Handle(f: Formats, env: Env, s: State, socket: Socket, p: Packet): Outcome {
    if p.kind == CONNECT_CLIENT then ConnectClient(s, socket, p)
    else if p.kind == REGISTER_USER then RegisterUser(f, env, s, socket, p)
    else if p.kind == LOGIN_USER then LoginUser(f, env, s, socket, p)
    else if p.kind == LOGOUT_USER then LogoutUser(s, socket, p)
    else if p.kind == GET_USER_PROFILE then GetUserProfile(env, s, socket, p)
    else if p.kind == UPDATE_USER_PROFILE then UpdateUserProfile(f, env, s, socket, p)
    else if p.kind == GET_CHATS then GetChats(env, s, socket, p)
    else if p.kind == CREATE_CHAT then CreateChatFor(f, env, s, socket, p)
    else if p.kind == GET_USER_INFO then GetUserInfo(f, env, s, socket, p)
    else if p.kind == SEARCH_CHATS then SearchChats(f, env, s, socket, p)
    else AuthorizedPacket(f, env, s, p)
  }

  /** `onClientDisconnected`: the first session found on this socket is dropped. */
  function FirstOnSocket(clients: Sessions, order: seq<Uuid>, socket: Socket): (r: Option<Uuid>)
    ensures r.Some? ==> r.value in clients && clients[r.value].socket == socket
    ensures r.None? ==> forall k | k in order && k in clients :: clients[k].socket != socket
  {
    if order == [] then None
    else if order[0] in clients && clients[order[0]].socket == socket then Some(order[0])
    else FirstOnSocket(clients, order[1..], socket)
  }

  function Disconnect(env: Env, s: State, socket: Socket): State {
    var first := FirstOnSocket(s.clients, env.order(s.clients.Keys), socket);
    if first.None? then s else s.(clients := s.clients - {first.value})
  }

  // -------------------------------------------------------------------- runs

  datatype Event =
    | Received(socket: Socket, packet: Packet, env: Env)
    | Disconnected(socket: Socket, env: Env)

  function Step(f: Formats, s: State, e: Event): Outcome {
    match e
    case Received(socket, packet, env) => Handle(f, env, s, socket, packet)
    case Disconnected(socket, env) => Outcome(Disconnect(env, s, socket), [])
  }

  function RunFrom(f: Formats, s: State, events: seq<Event>): State {
    if events == [] then s
    else Step(f, RunFrom(f, s, events[..|events| - 1]), events[|events| - 1]).state
  }

  /** Everything sent in the course of a run. */
  function SentFrom(f: Formats, s: State, events: seq<Event>): seq<Outbound> {
    if events == [] then []
    else
      var before := events[..|events| - 1];
      SentFrom(f, s, before) + Step(f, RunFrom(f, s, before), events[|events| - 1]).sent
  }

  /** The server after a run that started with no sessions on these tables. */
  function RunServer(f: Formats, db: Tables, events: seq<Event>): State {
    RunFrom(f, State(map[], db), events)
  }

  /** One event per packet of one socket. */
  function Receipts(socket: Socket, ps: seq<Packet>, envs: nat -> Env): seq<Event> {
    if ps == [] then []
    else
      var n := |ps| - 1;
      Receipts(socket, ps[..n], envs) + [Received(socket, ps[n], envs(n))]
  }
}
