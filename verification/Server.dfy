/** `server/src/Server.cpp` and `server/src/ClientConnection.cpp` as they run: connections and
    buffers updated in place, each handler proved to do what the state machine says. */
module ServerProcess {
  import opened Prelude
  import opened PacketCodec
  import opened Framing
  import opened Streams
  import opened Tables
  import opened ChatCreation
  import opened ServerModel
  import opened Service
  import opened Store

  class ClientConnection {
    const sessionId: Uuid
    const socket: Socket
    var userId: Option<Uuid>
    var isAuthorized: bool

    constructor (sessionId: Uuid, socket: Socket)
      ensures View() == Session(sessionId, socket, false, None)
    {
      this.sessionId, this.socket := sessionId, socket;
      userId, isAuthorized := None, false;
    }

    function View(): Session
      reads this
    {
      Session(sessionId, socket, isAuthorized, userId)
    }

    method Authorize(userId: Uuid)
      modifies this
      ensures View() == old(View()).(isAuthorized := true, userId := Some(userId))
    {
      isAuthorized := true;
      this.userId := Some(userId);
    }

    method Logout()
      modifies this
      ensures View() == old(View()).(isAuthorized := false, userId := None)
    {
      isAuthorized := false;
      userId := None;
    }

    predicate MatchesSocket(socket: Socket) {
      socket == this.socket
    }
  }

  class Server {
    const formats: Formats
    const db: Database
    var clients: map<Uuid, ClientConnection>
    var socketBuffers: Buffers

    /** Each session has a connection object of its own. */
    ghost predicate Valid()
      reads this`clients
    {
      forall j, k | j in clients && k in clients && j != k :: clients[j] != clients[k]
    }

    ghost function Sessions(): Sessions
      reads this`clients, clients.Values
    {
      map k | k in clients :: clients[k].View()
    }

    ghost function View(): State
      reads this`clients, clients.Values, db
    {
      State(Sessions(), db.View())
    }

    constructor (formats: Formats, db: Database)
      ensures Valid() && this.db == db && this.formats == formats
      ensures View() == State(map[], db.View()) && socketBuffers == map[]
    {
      this.formats, this.db := formats, db;
      clients, socketBuffers := map[], map[];
    }

    method SendPacket(session: Uuid, content: Content) returns (sent: seq<Outbound>)
      ensures sent == Send(Sessions(), session, content)
    {
      if session !in clients {
        return [];
      }
      return [Outbound(session, clients[session].socket, content)];
    }

    // ------------------------------------------------------ connections

    method OnNewConnection(socket: Socket)
      modifies this`socketBuffers
      ensures socketBuffers == BuffersAfter(old(socketBuffers), Opened(socket))
    {
      socketBuffers := socketBuffers[socket := []];
    }

    /** The first connection on this socket, in hash order. */
    method FindConnection(env: Env, socket: Socket) returns (key: Option<Uuid>)
      requires Orderly(env.order)
      ensures key == FirstOnSocket(Sessions(), env.order(clients.Keys), socket)
    {
      var order := env.order(clients.Keys);
      assert Enumerates(order, clients.Keys);
      var i := 0;
      assert order[0..] == order;
      while i < |order|
        invariant i <= |order|
        invariant FirstOnSocket(Sessions(), order[i..], socket) == FirstOnSocket(Sessions(), order, socket)
      {
        assert order[i] in clients.Keys;
        assert order[i..][1..] == order[i + 1..];
        if clients[order[i]].MatchesSocket(socket) {
          return Some(order[i]);
        }
        i := i + 1;
      }
      return None;
    }

    method EraseConnection(key: Uuid)
      requires Valid() && key in clients
      modifies this`clients, clients[key]
      ensures Valid() && clients.Values <= old(clients.Values)
      ensures Sessions() == old(Sessions()) - {key}
    {
      var connection := clients[key];
      if connection.isAuthorized {
        connection.Logout();
      }
      clients := clients - {key};
    }

    method OnClientDisconnected(socket: Socket, env: Env)
      requires Valid() && Orderly(env.order)
      modifies this, clients.Values
      ensures Valid() && clients.Values <= old(clients.Values)
      ensures View() == Disconnect(env, old(View()), socket)
      ensures socketBuffers == BuffersAfter(old(socketBuffers), Closed(socket))
    {
      hide FirstOnSocket, Orderly;
      socketBuffers := socketBuffers - {socket};
      assert Sessions().Keys == clients.Keys;
      var key := FindConnection(env, socket);
      if key.Some? {
        EraseConnection(key.value);
        assert Sessions() == old(Sessions()) - {key.value};
      }
    }

    method HandleConnectClient(socket: Socket, p: Packet) returns (sent: seq<Outbound>)
      requires Valid()
      modifies this`clients
      ensures Valid() && fresh(clients.Values - old(clients.Values))
      ensures Outcome(View(), sent) == ConnectClient(old(View()), socket, p)
    {
      var sessionId := p.sender;
      if sessionId in clients {
        return [];
      }
      var connection := new ClientConnection(sessionId, socket);
      clients := clients[sessionId := connection];
      assert Sessions() == old(Sessions())[sessionId := connection.View()];
      sent := SendPacket(sessionId, Success(CONNECTED));
    }

    method HandleRegisterUser(env: Env, socket: Socket, p: Packet) returns (sent: seq<Outbound>)
      requires Valid()
      modifies db
      ensures Outcome(View(), sent) == RegisterUser(formats, env, old(View()), socket, p)
    {
      if p.sender !in clients {
        return [];
      }
      var connection := clients[p.sender];
      if !connection.MatchesSocket(socket) || p.data.None? {
        return [];
      }
      var decoded := formats.register(p.data.value);
      if decoded.None? {
        sent := SendPacket(connection.sessionId, Failure(INVALID_REGISTER_PAYLOAD));
        return;
      }
      var info := decoded.value;
      var username := formats.trimmed(info.username);
      var displayName := formats.trimmed(info.displayName);
      var email := formats.trimmed(info.email);
      if !formats.validUsername(username) {
        sent := SendPacket(connection.sessionId, Failure(BAD_USERNAME));
        return;
      }
      if displayName == "" {
        sent := SendPacket(connection.sessionId, Failure(EMPTY_DISPLAY_NAME));
        return;
      }
      if !env.readFault && FindUsername(db.View(), username) != {} {
        sent := SendPacket(connection.sessionId, Failure(USERNAME_TAKEN));
        return;
      }
      var created := db.CreateUser(env.freshId, User(username, displayName, info.passwordHash, email), env.writeFault);
      if !created {
        sent := SendPacket(connection.sessionId, Failure(REGISTRATION_FAILED));
        return;
      }
      sent := SendPacket(connection.sessionId, Success(REGISTERED));
    }

    /** The walk over the other connections, in hash order, for one with the same user. */
    method IsSignedInElsewhere(env: Env, session: Uuid, userId: Uuid) returns (found: bool)
      requires Orderly(env.order)
      ensures found == SignedInElsewhere(Sessions(), session, userId)
    {
      var order := env.order(clients.Keys);
      assert Enumerates(order, clients.Keys);
      for i := 0 to |order|
        invariant forall j | 0 <= j < i ::
          !(SignedIn(clients[order[j]].View()) && clients[order[j]].userId == Some(userId)
            && clients[order[j]].sessionId != session)
      {
        assert order[i] in clients.Keys;
        var existing := clients[order[i]];
        if !existing.isAuthorized || existing.userId.None? {
          continue;
        }
        if existing.sessionId == session {
          continue;
        }
        if existing.userId != Some(userId) {
          continue;
        }
        assert SignedIn(Sessions()[order[i]]);
        return true;
      }
      forall k | k in clients
        ensures !(SignedIn(Sessions()[k]) && Sessions()[k].sessionId != session && Sessions()[k].userId == Some(userId))
      {
        assert k in order;
      }
      return false;
    }

    method HandleLoginUser(env: Env, socket: Socket, p: Packet) returns (sent: seq<Outbound>)
      requires Valid() && Orderly(env.order)
      modifies clients.Values
      ensures Outcome(View(), sent) == LoginUser(formats, env, old(View()), socket, p)
    {
      if p.sender !in clients {
        return [];
      }
      var connection := clients[p.sender];
      if !connection.MatchesSocket(socket) || p.data.None? {
        return [];
      }
      var loginInfo := formats.login(p.data.value);
      if loginInfo.None? {
        sent := SendPacket(connection.sessionId, Failure(INVALID_LOGIN_PAYLOAD));
        return;
      }
      sent := LogInSession(env, p.sender, loginInfo.value);
    }

    method LogInSession(env: Env, key: Uuid, info: LoginInfo) returns (sent: seq<Outbound>)
      requires Valid() && key in clients && Orderly(env.order)
      modifies clients.Values
      ensures Outcome(View(), sent) == LoginAs(env, old(View()), key, info)
    {
      hide SignedInElsewhere, Authenticate, Orderly;
      var connection := clients[key];
      var user := Authenticate(db.View(), info, env);
      if user.None? {
        sent := SendPacket(connection.sessionId, Failure(INVALID_CREDENTIALS));
        return;
      }
      var duplicate := IsSignedInElsewhere(env, connection.sessionId, user.value);
      if duplicate {
        sent := SendPacket(connection.sessionId, Failure(LOGGED_IN_ELSEWHERE));
        return;
      }
      connection.Authorize(user.value);
      assert Sessions() == old(Sessions())[key := connection.View()];
      sent := SendPacket(connection.sessionId, Success(LOGGED_IN));
    }

    method HandleLogoutUser(socket: Socket, p: Packet) returns (sent: seq<Outbound>)
      requires Valid()
      modifies clients.Values
      ensures Outcome(View(), sent) == LogoutUser(old(View()), socket, p)
    {
      if p.sender !in clients {
        return [];
      }
      var connection := clients[p.sender];
      if !connection.MatchesSocket(socket) {
        return [];
      }
      if !connection.isAuthorized {
        sent := SendPacket(connection.sessionId, Failure(NOT_AUTHORIZED));
        return;
      }
      connection.Logout();
      assert Sessions() == old(Sessions())[p.sender := connection.View()];
      sent := SendPacket(connection.sessionId, Success(LOGGED_OUT));
    }

    // ---------------------------------------------------------- profiles

    method HandleGetUserProfile(env: Env, socket: Socket, p: Packet) returns (sent: seq<Outbound>)
      ensures sent == GetUserProfile(env, View(), socket, p).sent
    {
      if p.sender !in clients {
        return [];
      }
      var connection := clients[p.sender];
      if !connection.MatchesSocket(socket) || !connection.isAuthorized || connection.userId.None? {
        sent := SendPacket(connection.sessionId, Failure(NOT_AUTHORIZED));
        return;
      }
      var user := db.GetUserById(connection.userId.value, env.readFault);
      if user.None? {
        sent := SendPacket(connection.sessionId, Failure(USER_NOT_FOUND));
        return;
      }
      sent := SendPacket(connection.sessionId, Profile(connection.userId.value, user.value));
    }

    method HandleUpdateUserProfile(env: Env, socket: Socket, p: Packet) returns (sent: seq<Outbound>)
      requires Valid()
      modifies db
      ensures Outcome(View(), sent) == UpdateUserProfile(formats, env, old(View()), socket, p)
    {
      if p.sender !in clients {
        return [];
      }
      var connection := clients[p.sender];
      if !connection.MatchesSocket(socket) || !connection.isAuthorized || connection.userId.None? {
        sent := SendPacket(connection.sessionId, Failure(NOT_AUTHORIZED));
        return;
      }
      if p.data.None? {
        sent := SendPacket(connection.sessionId, Failure(NO_UPDATE_PAYLOAD));
        return;
      }
      var decoded := formats.profileUpdate(p.data.value);
      if decoded.None? {
        sent := SendPacket(connection.sessionId, Failure(INVALID_UPDATE_PAYLOAD));
        return;
      }
      var update := TrimmedUpdate(formats, decoded.value);
      sent := UpdateProfileFromSession(env, connection.sessionId, connection.userId.value, update);
    }

    method UpdateProfileFromSession(env: Env, session: Uuid, userId: Uuid, update: ProfileUpdate)
      returns (sent: seq<Outbound>)
      modifies db
      ensures Outcome(View(), sent) == UpdateProfileAs(formats, env, old(View()), session, userId, update)
    {
      hide UpdateComplaint, Allowed, Apply;
      var complaint := UpdateComplaint(formats, env, db.View(), userId, update);
      if complaint.Some? {
        sent := SendPacket(session, Failure(complaint.value));
        return;
      }
      var fault := if env.writeFault then AtUpdate else if env.rereadFault then AtReread else Nowhere;
      var updated := db.UpdateUserProfile(userId, update, fault);
      assert Sessions() == old(Sessions());
      if updated.None? {
        sent := SendPacket(session, Failure(UPDATE_FAILED));
        return;
      }
      var profileInfo := db.GetUserById(userId, env.profileFault);
      if profileInfo.None? {
        sent := SendPacket(session, Failure(PROFILE_UNREAD));
        return;
      }
      var success := SendPacket(session, Success(UPDATED));
      var profile := SendPacket(session, Profile(userId, profileInfo.value));
      sent := success + profile;
    }

    method HandleGetUserInfo(env: Env, socket: Socket, p: Packet) returns (sent: seq<Outbound>)
      requires Orderly(env.order)
      ensures sent == GetUserInfo(formats, env, View(), socket, p).sent
    {
      if p.sender !in clients {
        return [];
      }
      var connection := clients[p.sender];
      if !connection.MatchesSocket(socket) || !connection.isAuthorized {
        sent := SendPacket(connection.sessionId, Failure(NOT_AUTHORIZED));
        return;
      }
      if p.data.None? {
        sent := SendPacket(connection.sessionId, Failure(NO_INFO_PAYLOAD));
        return;
      }
      var request := formats.userInfo(p.data.value);
      if request.None? {
        sent := SendPacket(connection.sessionId, Failure(INVALID_INFO_PAYLOAD));
        return;
      }
      var answer := LookUpInfo(env, request.value);
      sent := SendPacket(connection.sessionId, answer);
    }

    method LookUpInfo(env: Env, request: InfoRequest) returns (answer: Content)
      requires Orderly(env.order)
      ensures answer == InfoAnswer(formats, env, db.View(), request)
    {
      match request {
        case ById(id) =>
          if id == NULL_UUID {
            return Failure(INVALID_USER_ID);
          }
          var user := db.GetUserById(id, env.readFault);
          if user.None? {
            return Failure(USER_NOT_FOUND);
          }
          return PublicInfo(id, user.value.username, user.value.displayName);
        case ByName(name) =>
          var username := formats.normalized(name);
          if !formats.validUsername(username) {
            return Failure(INVALID_USERNAME);
          }
          var found := env.order(FindUsername(db.View(), username));
          assert Enumerates(found, FindUsername(db.View(), username));
          if env.readFault || found == [] {
            return Failure(USER_NOT_FOUND);
          }
          assert found[0] in found;
          return PublicInfo(found[0], db.users[found[0]].username, db.users[found[0]].displayName);
      }
    }

    // ------------------------------------------------------------- chats

    method HandleSearchChats(env: Env, socket: Socket, p: Packet) returns (sent: seq<Outbound>)
      ensures sent == SearchChats(formats, env, View(), socket, p).sent
    {
      if p.sender !in clients {
        return [];
      }
      var connection := clients[p.sender];
      if !connection.MatchesSocket(socket) || !connection.isAuthorized {
        sent := SendPacket(connection.sessionId, Failure(NOT_AUTHORIZED));
        return;
      }
      if p.data.None? {
        sent := SendPacket(connection.sessionId, Failure(NO_SEARCH_PAYLOAD));
        return;
      }
      var kinds := formats.chatKinds(p.data.value);
      sent := SendPacket(connection.sessionId, ChatList(ChatsOfKinds(db.View(), kinds, env.readFault)));
    }

    method HandleGetChats(env: Env, socket: Socket, p: Packet) returns (sent: seq<Outbound>)
      ensures sent == GetChats(env, View(), socket, p).sent
    {
      if p.sender !in clients {
        return [];
      }
      var connection := clients[p.sender];
      if !connection.MatchesSocket(socket) || !connection.isAuthorized || connection.userId.None? {
        sent := SendPacket(connection.sessionId, Failure(NOT_AUTHORIZED));
        return;
      }
      sent := SendPacket(connection.sessionId,
                         ChatList(ChatsOf(db.View(), connection.userId.value, env.readFault)));
    }

    method SendUpdatedChatLists(env: Env, memberUserIds: set<Uuid>) returns (sent: seq<Outbound>)
      requires Orderly(env.order)
      ensures sent == UpdatedChatLists(View(), env.order(clients.Keys), memberUserIds, env.readFault)
    {
      sent := [];
      var order := env.order(clients.Keys);
      assert Enumerates(order, clients.Keys);
      ghost var s := View();
      assert UpdatedChatLists(s, order[..0], memberUserIds, env.readFault) == [];
      hide ChatsOf, NoDuplicates, UpdatedChatLists;
      for i := 0 to |order|
        invariant sent == UpdatedChatLists(s, order[..i], memberUserIds, env.readFault)
      {
        assert order[..i + 1][..i] == order[..i];
        assert order[i] in clients.Keys;
        UpdatedOneMore(s, order[..i + 1], memberUserIds, env.readFault);
        var connection := clients[order[i]];
        if connection.isAuthorized && connection.userId.Some? && connection.userId.value in memberUserIds {
          var list := SendPacket(connection.sessionId,
                                 ChatList(ChatsOf(db.View(), connection.userId.value, env.readFault)));
          sent := sent + list;
        }
      }
      assert order[..|order|] == order;
    }

    method CollectMembers(creator: Uuid, requested: seq<Uuid>, faults: set<Uuid>) returns (memberIds: set<Uuid>)
      ensures memberIds == Chosen(db.View(), creator, requested, faults)
    {
      memberIds := {creator};
      for i := 0 to |requested|
        invariant memberIds == Chosen(db.View(), creator, requested[..i], faults)
      {
        var requestedId := requested[i];
        assert requested[..i + 1] == requested[..i] + [requestedId];
        if requestedId == NULL_UUID || requestedId == creator {
          continue;
        }
        var user := db.GetUserById(requestedId, requestedId in faults);
        if user.None? {
          continue;
        }
        memberIds := memberIds + {requestedId};
      }
      assert requested[..|requested|] == requested;
    }

    /** Inserts the members one by one and stops at the first that is refused. */
    method InsertMembers(id: Uuid, users: seq<Uuid>, faults: set<Uuid>) returns (ok: bool)
      modifies db
      ensures var n := Inserted(old(db.View()), id, users, faults);
        ok == (n == |users|) && db.View() == AddMembers(old(db.View()), id, users[..n])
    {
      ghost var t := db.View();
      for i := 0 to |users|
        invariant db.View() == AddMembers(t, id, users[..i])
        invariant Inserted(t, id, users[..i], faults) == i
      {
        assert users[..i + 1][..i] == users[..i];
        var added := db.CreateChatMember(Member(id, users[i]), users[i] in faults);
        if !added {
          InsertedStops(t, id, users, faults, i);
          return false;
        }
      }
      assert users[..|users|] == users;
      return true;
    }

    /** Writes the chat and then its members, deleting the chat again when a member is refused. */
    method CreateChatRows(env: Env, creator: Uuid, requested: seq<Uuid>)
      returns (verdict: Verdict, memberIds: set<Uuid>)
      modifies db
      ensures memberIds == Chosen(old(db.View()), creator, requested, env.creation.lookups)
      ensures Creation(db.View(), verdict)
           == Create(old(db.View()), env.freshId, creator, requested, env.order, env.creation)
    {
      memberIds := CollectMembers(creator, requested, env.creation.lookups);
      if |memberIds| < 2 {
        return TooFew, memberIds;
      }
      var chatType := if |memberIds| > 2 then Group else Direct;
      var created := db.CreateChat(env.freshId, Chat(chatType, Some(creator)), env.creation.chat);
      if !created {
        return ChatRefused, memberIds;
      }
      var added := InsertMembers(env.freshId, env.order(memberIds), env.creation.members);
      if !added {
        var deleted := db.DeleteChat(env.freshId, env.creation.delete);
        return MemberRefused, memberIds;
      }
      return Created, memberIds;
    }

    method AnnounceChat(env: Env, session: Uuid, creator: Uuid, memberIds: set<Uuid>) returns (sent: seq<Outbound>)
      requires Orderly(env.order)
      ensures sent == Announcements(env, View(), session, creator, memberIds)
    {
      assert Sessions().Keys == clients.Keys;
      var success := SendPacket(session, Success(CHAT_CREATED));
      var chat := Chat(KindFor(|memberIds|), Some(creator));
      var members := MembersSeen(db.View(), env.freshId, env.readFault);
      var info := SendPacket(session, ChatInfo(env.freshId, ListedChat(chat, members)));
      var lists := SendUpdatedChatLists(env, memberIds);
      sent := success + info + lists;
    }

    method CreateChatFromSession(env: Env, session: Uuid, creator: Uuid, requested: seq<Uuid>)
      returns (sent: seq<Outbound>)
      requires Orderly(env.order)
      modifies db
      ensures Outcome(View(), sent) == CreateChatAs(env, old(View()), session, creator, requested)
    {
      hide Create, Chosen, Announcements;
      var verdict, memberIds := CreateChatRows(env, creator, requested);
      assert Sessions() == old(Sessions());
      match verdict {
        case TooFew => sent := SendPacket(session, Failure(TOO_FEW_MEMBERS));
        case ChatRefused => sent := SendPacket(session, Failure(CHAT_FAILED));
        case MemberRefused => sent := SendPacket(session, Failure(MEMBER_FAILED));
        case Created => sent := AnnounceChat(env, session, creator, memberIds);
      }
    }

    method HandleCreateChat(env: Env, socket: Socket, p: Packet) returns (sent: seq<Outbound>)
      requires Valid() && Orderly(env.order)
      modifies db
      ensures Outcome(View(), sent) == CreateChatFor(formats, env, old(View()), socket, p)
    {
      if p.sender !in clients {
        return [];
      }
      var connection := clients[p.sender];
      if !connection.MatchesSocket(socket) || !connection.isAuthorized || connection.userId.None? {
        sent := SendPacket(connection.sessionId, Failure(NOT_AUTHORIZED));
        return;
      }
      if p.data.None? {
        sent := SendPacket(connection.sessionId, Failure(NO_CHAT_PAYLOAD));
        return;
      }
      var requested := formats.createChat(p.data.value);
      if requested.None? {
        sent := SendPacket(connection.sessionId, Failure(INVALID_CHAT_PAYLOAD));
        return;
      }
      sent := CreateChatFromSession(env, connection.sessionId, connection.userId.value, requested.value);
    }

    // ---------------------------------------------------------- messages

    method HandleChatMessage(env: Env, connection: ClientConnection, p: Packet) returns (sent: seq<Outbound>)
      requires Orderly(env.order)
      ensures sent == ChatMessageFrom(formats, env, View(), connection.View(), p).sent
    {
      assert Sessions().Keys == clients.Keys;
      if p.data.None? {
        sent := SendPacket(connection.sessionId, Failure(NO_MESSAGE_PAYLOAD));
        return;
      }
      var incoming := formats.message(p.data.value);
      var chatId := incoming.targetChatId;
      if chatId == NULL_UUID {
        sent := SendPacket(connection.sessionId, Failure(INVALID_CHAT_ID));
        return;
      }
      if connection.userId.None? {
        sent := SendPacket(connection.sessionId, Failure(NOT_AUTHORIZED));
        return;
      }
      var memberUserIds := MembersSeen(db.View(), chatId, env.readFault);
      if memberUserIds == {} {
        sent := SendPacket(connection.sessionId, Failure(CHAT_NOT_FOUND));
        return;
      }
      var authenticated := connection.userId.value;
      var sender := if incoming.senderUserId == NULL_UUID then authenticated else incoming.senderUserId;
      if sender != authenticated {
        sent := SendPacket(connection.sessionId, Failure(INVALID_SENDER));
        return;
      }
      if authenticated !in memberUserIds {
        sent := SendPacket(connection.sessionId, Failure(NOT_A_MEMBER));
        return;
      }
      var normalized := Message(sender, chatId, incoming.isMedia, incoming.content);
      sent := RouteMessage(env, connection.sessionId, memberUserIds, normalized);
    }

    method RouteMessage(env: Env, from: Uuid, memberUserIds: set<Uuid>, message: Message)
      returns (sent: seq<Outbound>)
      requires Orderly(env.order)
      ensures sent == Copies(Sessions(), env.order(clients.Keys), from, memberUserIds, message)
    {
      sent := [];
      var order := env.order(clients.Keys);
      assert Enumerates(order, clients.Keys);
      for i := 0 to |order|
        invariant sent == Copies(Sessions(), order[..i], from, memberUserIds, message)
      {
        assert order[..i + 1][..i] == order[..i];
        assert order[i] in clients.Keys;
        var target := clients[order[i]];
        if !target.isAuthorized || target.userId.None? {
          continue;
        }
        if target.userId.value !in memberUserIds {
          continue;
        }
        if order[i] == from {
          continue;
        }
        var copy := SendPacket(order[i], Routed(message));
        sent := sent + copy;
      }
      assert order[..|order|] == order;
    }

    method HandleAuthorizedPacket(env: Env, p: Packet) returns (sent: seq<Outbound>)
      requires Orderly(env.order)
      ensures sent == AuthorizedPacket(formats, env, View(), p).sent
    {
      if p.sender == NULL_UUID || p.sender !in clients {
        return [];
      }
      var connection := clients[p.sender];
      if !connection.isAuthorized {
        sent := SendPacket(p.sender, Failure(NOT_AUTHORIZED));
        return;
      }
      if p.kind == CHAT_MESSAGE {
        sent := HandleChatMessage(env, connection, p);
        return;
      }
      return [];
    }

    // ---------------------------------------------------------- dispatch

    method Dispatch(env: Env, socket: Socket, p: Packet) returns (sent: seq<Outbound>)
      requires Valid() && Orderly(env.order)
      modifies this`clients, clients.Values, db
      ensures Valid() && fresh(clients.Values - old(clients.Values))
      ensures Outcome(View(), sent) == Handle(formats, env, old(View()), socket, p)
    {
      if p.kind == CONNECT_CLIENT {
        sent := HandleConnectClient(socket, p);
      } else if p.kind == REGISTER_USER {
        sent := HandleRegisterUser(env, socket, p);
      } else if p.kind == LOGIN_USER {
        sent := HandleLoginUser(env, socket, p);
      } else if p.kind == LOGOUT_USER {
        sent := HandleLogoutUser(socket, p);
      } else if p.kind == GET_USER_PROFILE {
        sent := HandleGetUserProfile(env, socket, p);
      } else if p.kind == UPDATE_USER_PROFILE {
        sent := HandleUpdateUserProfile(env, socket, p);
      } else if p.kind == GET_CHATS {
        sent := HandleGetChats(env, socket, p);
      } else if p.kind == CREATE_CHAT {
        sent := HandleCreateChat(env, socket, p);
      } else if p.kind == GET_USER_INFO {
        sent := HandleGetUserInfo(env, socket, p);
      } else if p.kind == SEARCH_CHATS {
        sent := HandleSearchChats(env, socket, p);
      } else {
        sent := HandleAuthorizedPacket(env, p);
      }
    }

    /** Dispatches a batch of packets, the first `count` of the same read being done already. */
    method DispatchAll(
      socket: Socket, batch: seq<Packet>, count: nat, envs: nat -> Env, ghost done: seq<Packet>, ghost start: State)
      returns (sent: seq<Outbound>)
      requires Valid() && count == |done| && forall n :: Orderly(envs(n).order)
      requires View() == RunFrom(formats, start, Receipts(socket, done, envs))
      modifies this`clients, clients.Values, db
      ensures Valid() && fresh(clients.Values - old(clients.Values))
      ensures View() == RunFrom(formats, start, Receipts(socket, done + batch, envs))
      ensures SentFrom(formats, start, Receipts(socket, done + batch, envs))
           == SentFrom(formats, start, Receipts(socket, done, envs)) + sent
    {
      hide Handle, RunFrom, SentFrom, Receipts;
      sent := [];
      ghost var ps := done;
      for j := 0 to |batch|
        invariant Valid() && fresh(clients.Values - old(clients.Values))
        invariant ps == done + batch[..j]
        invariant View() == RunFrom(formats, start, Receipts(socket, ps, envs))
        invariant SentFrom(formats, start, Receipts(socket, ps, envs))
               == SentFrom(formats, start, Receipts(socket, done, envs)) + sent
      {
        ReceiptsStep(formats, start, socket, ps, batch[j], envs);
        ConcatAssociative(SentFrom(formats, start, Receipts(socket, done, envs)), sent,
                          Handle(formats, envs(count + j), View(), socket, batch[j]).sent);
        var more := Dispatch(envs(count + j), socket, batch[j]);
        ps := ps + [batch[j]];
        sent := sent + more;
      }
      assert batch[..|batch|] == batch;
    }

    /** One pass of the read loop: append what was read to this socket's buffer, parse, and
        dispatch the packets in order. */
    method OnServerRead(socket: Socket, bytes: seq<byte>, envs: nat -> Env)
      returns (packets: seq<Packet>, sent: seq<Outbound>)
      requires Valid() && forall n :: Orderly(envs(n).order)
      modifies this, clients.Values, db
      ensures Valid() && fresh(clients.Values - old(clients.Values))
      ensures socketBuffers == BuffersAfter(old(socketBuffers), Arrived(socket, bytes))
      ensures packets == DispatchedBy(old(socketBuffers), Arrived(socket, bytes))
      ensures View() == RunFrom(formats, old(View()), Receipts(socket, packets, envs))
      ensures sent == SentFrom(formats, old(View()), Receipts(socket, packets, envs))
    {
      ghost var start := View();
      NoReceipts(formats, start, socket, envs);
      hide Handle, RunFrom, SentFrom, Receipts, BuffersAfter, DispatchedBy;
      packets := ParseRead(socket, bytes);
      assert [] + packets == packets;
      sent := DispatchAll(socket, packets, 0, envs, [], start);
    }

    /** The three signals the server is connected to. */
    method OnSignal(e: SocketEvent, envs: nat -> Env) returns (sent: seq<Outbound>)
      requires Valid() && forall n :: Orderly(envs(n).order)
      modifies this, clients.Values, db
      ensures Valid() && fresh(clients.Values - old(clients.Values))
      ensures Process(socketBuffers, View()) == AfterSignal(formats, old(Process(socketBuffers, View())), e, envs)
      ensures sent == SentFrom(formats, old(View()), StepsOf(old(socketBuffers), e, envs))
    {
      ghost var start := View();
      match e {
        case Opened(socket) =>
          OnNewConnection(socket);
          sent := [];
        case Arrived(socket, chunk) =>
          hide RunFrom, SentFrom, Receipts;
          var packets;
          packets, sent := OnServerRead(socket, chunk, envs);
        case Closed(socket) =>
          RunOfOne(formats, start, Disconnected(socket, envs(0)));
          hide RunFrom, SentFrom, Disconnect;
          OnClientDisconnected(socket, envs(0));
          sent := [];
      }
    }

    method ParseRead(socket: Socket, bytes: seq<byte>) returns (packets: seq<Packet>)
      modifies this`socketBuffers
      ensures socketBuffers == BuffersAfter(old(socketBuffers), Arrived(socket, bytes))
      ensures packets == DispatchedBy(old(socketBuffers), Arrived(socket, bytes))
    {
      var buffer := new ByteArray(if socket in socketBuffers then socketBuffers[socket] else []);
      buffer.Append(bytes);
      packets := ParseStream(buffer);
      socketBuffers := socketBuffers[socket := buffer.bytes];
    }
  }

  lemma UpdatedOneMore(s: State, order: seq<Uuid>, members: set<Uuid>, fault: bool)
    requires order != [] && order[|order| - 1] in s.clients
    ensures var c := s.clients[order[|order| - 1]];
      UpdatedChatLists(s, order, members, fault)
      == UpdatedChatLists(s, order[..|order| - 1], members, fault)
       + if SignedIn(c) && c.userId.value in members
         then Send(s.clients, c.sessionId, ChatList(ChatsOf(s.db, c.userId.value, fault)))
         else []
  {
  }

  lemma RunOfOne(f: Formats, start: State, e: Event)
    ensures RunFrom(f, start, [e]) == ServerModel.Step(f, start, e).state
    ensures SentFrom(f, start, [e]) == ServerModel.Step(f, start, e).sent
  {
    assert [e][..0] == [];
  }

  lemma NoReceipts(f: Formats, start: State, socket: Socket, envs: nat -> Env)
    ensures RunFrom(f, start, Receipts(socket, [], envs)) == start
    ensures SentFrom(f, start, Receipts(socket, [], envs)) == []
  {
  }

  lemma ReceiptsStep(f: Formats, start: State, socket: Socket, ps: seq<Packet>, p: Packet, envs: nat -> Env)
    ensures var before, after := Receipts(socket, ps, envs), Receipts(socket, ps + [p], envs);
      var r := Handle(f, envs(|ps|), RunFrom(f, start, before), socket, p);
      && RunFrom(f, start, after) == r.state
      && SentFrom(f, start, after) == SentFrom(f, start, before) + r.sent
  {
    assert (ps + [p])[..|ps|] == ps;
    var before, e := Receipts(socket, ps, envs), Received(socket, p, envs(|ps|));
    assert (before + [e])[..|before|] == before;
  }
}
