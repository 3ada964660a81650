/** What a client can expect of each request: what it changes, what it is answered, and to whom, told
    from the request and from the rows of the tables. */
module ServerAnswers {
  import opened Prelude
  import opened PacketCodec
  import opened Tables
  import opened ChatCreation
  import opened Streams
  import opened ServerModel
  import opened ServerProofs

  /** The session the packet names, on the socket it came over. */
  ghost predicate FromOwnSocket(s: State, socket: Socket, p: Packet) {
    SessionsAgree(s.clients) && p.sender in s.clients && s.clients[p.sender].socket == socket
  }

  /** That session, signed in as this user. */
  ghost predicate FromUser(s: State, socket: Socket, p: Packet, user: Uuid) {
    FromOwnSocket(s, socket, p) && s.clients[p.sender].userId == Some(user)
  }

  /** Nothing changes, and the session is told that the request failed. */
  ghost predicate Refused(s: State, session: Uuid, r: Outcome) {
    && session in s.clients
    && r.state == s && |r.sent| == 1
    && r.sent[0].session == session && r.sent[0].socket == s.clients[session].socket
    && r.sent[0].content.Failure?
  }

  ghost predicate RefusedWith(s: State, session: Uuid, r: Outcome, text: string) {
    session in s.clients && r == Outcome(s, [Outbound(session, s.clients[session].socket, Failure(text))])
  }

  // ------------------------------------------------------- whom it may concern

  const SILENT_KINDS: set<byte> := {REGISTER_USER, LOGIN_USER, LOGOUT_USER}
  const QUERY_KINDS: set<byte> :=
    {GET_USER_PROFILE, UPDATE_USER_PROFILE, GET_CHATS, CREATE_CHAT, GET_USER_INFO, SEARCH_CHATS}

  /** A session that was never announced gets nothing done and no answer, until it announces itself. */
  lemma UnknownIsIgnored(f: Formats, env: Env, s: State, socket: Socket, p: Packet)
    requires p.sender !in s.clients && p.kind != CONNECT_CLIENT
    ensures Handle(f, env, s, socket, p) == Outcome(s, [])
  {
  }

  /** Announcing a session creates it, unauthorized, on the socket it came over; once only. */
  lemma AnnouncedOnce(f: Formats, env: Env, s: State, socket: Socket, p: Packet)
    requires p.kind == CONNECT_CLIENT
    ensures Handle(f, env, s, socket, p)
         == if p.sender in s.clients then Outcome(s, [])
            else Outcome(s.(clients := s.clients[p.sender := Session(p.sender, socket, false, None)]),
                         [Outbound(p.sender, socket, Success("Connected"))])
  {
  }

  /** A session is not heard over a socket other than its own: ignored, or told so. */
  lemma ForeignSocket(f: Formats, env: Env, s: State, socket: Socket, p: Packet)
    requires SessionsAgree(s.clients) && p.sender in s.clients && s.clients[p.sender].socket != socket
    ensures p.kind in SILENT_KINDS ==> Handle(f, env, s, socket, p) == Outcome(s, [])
    ensures p.kind in QUERY_KINDS ==> RefusedWith(s, p.sender, Handle(f, env, s, socket, p), "Not authorized")
  {
  }

  /** Without being signed in there is only signing in, registering and announcing. */
  lemma NotSignedIn(f: Formats, env: Env, s: State, socket: Socket, p: Packet)
    requires FromOwnSocket(s, socket, p) && s.clients[p.sender].userId == None && p.sender != NULL_UUID
    requires p.kind !in {CONNECT_CLIENT, REGISTER_USER, LOGIN_USER}
    ensures RefusedWith(s, p.sender, Handle(f, env, s, socket, p), "Not authorized")
  {
  }

  // --------------------------------------------------- registration and login

  /** The row a registration asks for may be stored: a valid username, a display name, and nothing that
      is taken. */
  ghost predicate Storable(f: Formats, env: Env, t: Tables, info: RegisterInfo) {
    && f.validUsername(f.trimmed(info.username)) && f.trimmed(info.displayName) != ""
    && !env.writeFault && env.freshId !in t.users
    && forall u | u in t.users ::
         t.users[u].username != f.trimmed(info.username) && t.users[u].email != f.trimmed(info.email)
  }

  /** A registration stores exactly the row asked for, under the new id, if it may be stored; else it
      changes nothing and is refused. */
  lemma RegistrationStores(f: Formats, env: Env, s: State, socket: Socket, p: Packet, info: RegisterInfo)
    requires FromOwnSocket(s, socket, p) && p.kind == REGISTER_USER
    requires p.data.Some? && f.register(p.data.value) == Some(info)
    ensures var r, t := Handle(f, env, s, socket, p), s.db;
      if Storable(f, env, t, info) then
        && r.sent == [Outbound(p.sender, socket, Success("Registration successful"))]
        && r.state.clients == s.clients
        && r.state.db.users.Keys == t.users.Keys + {env.freshId}
        && r.state.db.users[env.freshId].username == f.trimmed(info.username)
        && r.state.db.users[env.freshId].displayName == f.trimmed(info.displayName)
        && r.state.db.users[env.freshId].email == f.trimmed(info.email)
        && r.state.db.users[env.freshId].passwordHash == info.passwordHash
        && (forall u | u in t.users :: r.state.db.users[u] == t.users[u])
        && r.state.db.(users := t.users) == t
      else Refused(s, p.sender, r)
  {
  }

  /** The credentials are those of this user, whom no other session has, and the query works. */
  ghost predicate Admits(env: Env, s: State, session: Uuid, info: LoginInfo, user: Uuid) {
    && !env.readFault && user in s.db.users
    && s.db.users[user].username == info.login && s.db.users[user].passwordHash == info.passwordHash
    && forall k | k in s.clients && k != session :: s.clients[k].userId != Some(user)
  }

  /** A login signs the session in as the user the credentials are those of, if no other session has
      that user; else it changes nothing and is refused. */
  lemma LoginIff(f: Formats, env: Env, s: State, socket: Socket, p: Packet, info: LoginInfo)
    requires FromOwnSocket(s, socket, p) && p.kind == LOGIN_USER
    requires p.data.Some? && f.login(p.data.value) == Some(info)
    requires Orderly(env.order) && UsersDistinct(s.db)
    ensures forall user | Admits(env, s, p.sender, info, user) ::
      Handle(f, env, s, socket, p)
      == Outcome(s.(clients := s.clients[p.sender := Session(p.sender, socket, true, Some(user))]),
                 [Outbound(p.sender, socket, Success("Login successful"))])
    ensures (forall user: Uuid :: !Admits(env, s, p.sender, info, user)) ==>
      Refused(s, p.sender, Handle(f, env, s, socket, p))
  {
    var found := Authenticate(s.db, info, env);
    forall user | Admits(env, s, p.sender, info, user) ensures found == Some(user) {
      MatchIsFound(s.db, info, env, user);
    }
    if found.Some? {
      FoundMatches(s.db, info, env);
      SignedInElsewhereIff(s, p.sender, found.value);
      assert !SignedInElsewhere(s.clients, p.sender, found.value) ==> Admits(env, s, p.sender, info, found.value);
    }
    hide Authenticate, SignedInElsewhere;
  }

  lemma SignedInElsewhereIff(s: State, session: Uuid, user: Uuid)
    requires SessionsAgree(s.clients)
    ensures SignedInElsewhere(s.clients, session, user) <==>
            exists k :: k in s.clients && k != session && s.clients[k].userId == Some(user)
  {
  }

  lemma FoundMatches(t: Tables, info: LoginInfo, env: Env)
    requires Orderly(env.order) && Authenticate(t, info, env).Some?
    ensures var user := Authenticate(t, info, env).value;
      && !env.readFault && user in t.users
      && t.users[user].username == info.login && t.users[user].passwordHash == info.passwordHash
  {
    var found := env.order(Matching(t, info));
    assert Enumerates(found, Matching(t, info));
    assert found[0] in found;
  }

  lemma MatchIsFound(t: Tables, info: LoginInfo, env: Env, user: Uuid)
    requires Orderly(env.order) && UsersDistinct(t) && !env.readFault && user in t.users
    requires t.users[user].username == info.login && t.users[user].passwordHash == info.passwordHash
    ensures Authenticate(t, info, env) == Some(user)
  {
    var found := env.order(Matching(t, info));
    assert Enumerates(found, Matching(t, info));
    assert user in found;
    assert found[0] in found;
  }

  /** A logout signs the session out and says so. */
  lemma LogoutSignsOut(f: Formats, env: Env, s: State, socket: Socket, p: Packet, user: Uuid)
    requires FromUser(s, socket, p, user) && p.kind == LOGOUT_USER
    ensures Handle(f, env, s, socket, p)
         == Outcome(s.(clients := s.clients[p.sender := Session(p.sender, socket, false, None)]),
                    [Outbound(p.sender, socket, Success("Logout successful"))])
  {
  }

  // ------------------------------------------------------------------ profiles

  /** A user asking for the own profile gets the own row, or is told that there is none. */
  lemma ProfileAnswered(f: Formats, env: Env, s: State, socket: Socket, p: Packet, user: Uuid)
    requires FromUser(s, socket, p, user) && p.kind == GET_USER_PROFILE
    ensures !env.readFault && user in s.db.users ==>
      Handle(f, env, s, socket, p) == Outcome(s, [Outbound(p.sender, socket, Profile(user, s.db.users[user]))])
    ensures env.readFault || user !in s.db.users ==>
      RefusedWith(s, p.sender, Handle(f, env, s, socket, p), "User not found")
  {
  }

  /** Every field the update names is in order. */
  ghost predicate UpdateInOrder(f: Formats, u: ProfileUpdate) {
    && (u.username.Some? ==> f.validUsername(f.trimmed(u.username.value)))
    && (u.displayName.Some? ==> f.trimmed(u.displayName.value) != "")
    && (u.email.Some? ==> f.trimmed(u.email.value) != "")
    && u.passwordHash != Some("")
  }

  function Trim(f: Formats, field: Option<string>): Option<string> {
    if field.Some? then Some(f.trimmed(field.value)) else None
  }

  /** No other user has the username or the email this user will have. */
  ghost predicate UpdateFree(f: Formats, t: Tables, user: Uuid, u: ProfileUpdate) {
    && user in t.users
    && forall other | other in t.users && other != user ::
         && t.users[other].username != Named(Trim(f, u.username), t.users[user].username)
         && t.users[other].email != Named(Trim(f, u.email), t.users[user].email)
  }

  /** The value an update names, or else the old one. */
  function Named(field: Option<string>, was: string): string {
    if field.Some? then field.value else was
  }

  /** A profile update takes effect exactly when its fields are in order and free and the write works; then
      each named field has its new value, trimmed but for the hash, and nothing else has changed. */
  lemma UpdateTakesEffect(
    f: Formats, env: Env, s: State, socket: Socket, p: Packet, user: Uuid, u: ProfileUpdate)
    requires FromUser(s, socket, p, user) && p.kind == UPDATE_USER_PROFILE
    requires p.data.Some? && f.profileUpdate(p.data.value) == Some(u)
    ensures var r, t := Handle(f, env, s, socket, p), s.db;
      if UpdateInOrder(f, u) && UpdateFree(f, t, user, u) && !env.writeFault then
        && r.state.clients == s.clients && r.state.db.users.Keys == t.users.Keys
        && r.state.db.users[user].username == Named(Trim(f, u.username), t.users[user].username)
        && r.state.db.users[user].displayName == Named(Trim(f, u.displayName), t.users[user].displayName)
        && r.state.db.users[user].email == Named(Trim(f, u.email), t.users[user].email)
        && r.state.db.users[user].passwordHash == Named(u.passwordHash, t.users[user].passwordHash)
        && (forall other | other in t.users && other != user :: r.state.db.users[other] == t.users[other])
        && r.state.db.chats == t.chats && r.state.db.members == t.members
        && (!env.rereadFault && !env.profileFault ==>
              r.sent == [Outbound(p.sender, socket, Success("Profile updated successfully")),
                         Outbound(p.sender, socket, Profile(user, r.state.db.users[user]))])
        && (env.rereadFault || env.profileFault ==> Refused(r.state, p.sender, r))
      else Refused(s, p.sender, r)
  {
    hide Handle, Allowed, Apply, UpdateComplaint, UpdateInOrder, UpdateFree;
    var update := TrimmedUpdate(f, u);
    UpdateReduces(f, env, s, socket, p, user, u);
    UpdateChecked(f, env, s.db, user, u);
    if Allowed(s.db, UpdateProfile(user, update)) {
      UpdateSetsFields(s.db, user, update);
    }
  }

  lemma UpdateReduces(
    f: Formats, env: Env, s: State, socket: Socket, p: Packet, user: Uuid, u: ProfileUpdate)
    requires FromUser(s, socket, p, user) && p.kind == UPDATE_USER_PROFILE
    requires p.data.Some? && f.profileUpdate(p.data.value) == Some(u)
    ensures Handle(f, env, s, socket, p) == UpdateProfileAs(f, env, s, p.sender, user, TrimmedUpdate(f, u))
  {
    hide UpdateProfileAs;
  }

  /** Nothing is complained about unless it is out of order or taken, and what is in order and free is
      allowed. */
  lemma UpdateChecked(f: Formats, env: Env, t: Tables, user: Uuid, u: ProfileUpdate)
    ensures UpdateFree(f, t, user, u) <==> Allowed(t, UpdateProfile(user, TrimmedUpdate(f, u)))
    ensures UpdateInOrder(f, u) && UpdateFree(f, t, user, u) ==>
      UpdateComplaint(f, env, t, user, TrimmedUpdate(f, u)) == None
    ensures !UpdateInOrder(f, u) ==> UpdateComplaint(f, env, t, user, TrimmedUpdate(f, u)).Some?
  {
    KeysLetIn(t, user, User("", "", "", ""), TrimmedUpdate(f, u), Chat(Direct, None));
    hide Allowed;
  }

  // ----------------------------------------------------------- what is refused

  /** What a refused registration is told: the first thing wrong with it. */
  lemma RegistrationRefusals(f: Formats, env: Env, s: State, socket: Socket, p: Packet, info: RegisterInfo)
    requires FromOwnSocket(s, socket, p) && p.kind == REGISTER_USER
    requires p.data.Some? && f.register(p.data.value) == Some(info) && !Storable(f, env, s.db, info)
    ensures var name := f.trimmed(info.username);
      var taken := exists u :: u in s.db.users && s.db.users[u].username == name;
      RefusedWith(s, p.sender, Handle(f, env, s, socket, p),
        if !f.validUsername(name) then BAD_USERNAME
        else if f.trimmed(info.displayName) == "" then "Display name must not be empty"
        else if taken && !env.readFault then "Username already exists"
        else "Registration failed")
  {
    var named := FindUsername(s.db, f.trimmed(info.username));
    assert forall u :: u in named <==> u in s.db.users && s.db.users[u].username == f.trimmed(info.username);
    assert named != {} ==> exists u :: u in named;
  }

  /** What a refused login is told: that the credentials are nobody's, or that the user is elsewhere. */
  lemma LoginRefusals(f: Formats, env: Env, s: State, socket: Socket, p: Packet, info: LoginInfo, user: Uuid)
    requires FromOwnSocket(s, socket, p) && p.kind == LOGIN_USER
    requires p.data.Some? && f.login(p.data.value) == Some(info)
    requires Orderly(env.order) && UsersDistinct(s.db)
    ensures (env.readFault || forall u | u in s.db.users ::
               s.db.users[u].username != info.login || s.db.users[u].passwordHash != info.passwordHash) ==>
      RefusedWith(s, p.sender, Handle(f, env, s, socket, p), "Invalid login or password")
    ensures (!env.readFault && user in s.db.users && s.db.users[user].username == info.login
             && s.db.users[user].passwordHash == info.passwordHash
             && exists k :: k in s.clients && k != p.sender && s.clients[k].userId == Some(user)) ==>
      RefusedWith(s, p.sender, Handle(f, env, s, socket, p), "User is already logged in from another device")
  {
    var found := Authenticate(s.db, info, env);
    if found.Some? {
      FoundMatches(s.db, info, env);
    }
    if !env.readFault && user in s.db.users && s.db.users[user].username == info.login
      && s.db.users[user].passwordHash == info.passwordHash {
      MatchIsFound(s.db, info, env, user);
      SignedInElsewhereIff(s, p.sender, user);
    }
    hide Authenticate, SignedInElsewhere;
  }

  /** What a refused profile update is told: the first field out of order, then the first name taken. */
  lemma UpdateRefusals(
    f: Formats, env: Env, s: State, socket: Socket, p: Packet, user: Uuid, u: ProfileUpdate)
    requires FromUser(s, socket, p, user) && p.kind == UPDATE_USER_PROFILE
    requires p.data.Some? && f.profileUpdate(p.data.value) == Some(u)
    requires !(UpdateInOrder(f, u) && UpdateFree(f, s.db, user, u) && !env.writeFault)
    ensures var name, email := Trim(f, u.username), Trim(f, u.email);
      var takenName := exists o :: o in s.db.users && o != user && Some(s.db.users[o].username) == name;
      var takenEmail := exists o :: o in s.db.users && o != user && Some(s.db.users[o].email) == email;
      RefusedWith(s, p.sender, Handle(f, env, s, socket, p),
        if name.Some? && !f.validUsername(name.value) then BAD_USERNAME
        else if Trim(f, u.displayName) == Some("") then "Display name must not be empty"
        else if email == Some("") then "Email must not be empty"
        else if u.passwordHash == Some("") then "Password hash must not be empty"
        else if takenName && !env.readFault then "Username already exists"
        else if takenEmail && !env.emailFault then "Email already exists"
        else "Failed to update profile")
  {
    hide Handle, Allowed, Apply, UpdateFree;
    UpdateReduces(f, env, s, socket, p, user, u);
    UpdateChecked(f, env, s.db, user, u);
  }

  // ---------------------------------------------------------------- chat lists

  /** The list names exactly these chats, each with its stored row and exactly its members. */
  ghost predicate Lists(t: Tables, chats: map<Uuid, ListedChat>, wanted: Uuid -> bool) {
    && (forall c :: c in chats <==> c in t.chats && wanted(c))
    && forall c | c in chats && c in t.chats ::
         && chats[c].chat.kind == t.chats[c].kind && chats[c].chat.createdBy == t.chats[c].createdBy
         && forall v :: v in chats[c].members <==> Member(c, v) in t.members
  }

  ghost function ChatsJoined(t: Tables, user: Uuid): Uuid -> bool {
    (c: Uuid) => Member(c, user) in t.members
  }

  lemma ChatsOfMeaning(t: Tables, user: Uuid)
    ensures Lists(t, ChatsOf(t, user, false), ChatsJoined(t, user))
    ensures ChatsOf(t, user, true) == map[]
  {
    var chats := ChatsOf(t, user, false);
    forall c ensures c in chats <==> c in t.chats && Member(c, user) in t.members {
      assert c in ChatsIn(t.members, user) <==> Member(c, user) in t.members;
    }
    forall c, v | c in chats ensures v in chats[c].members <==> Member(c, v) in t.members {
      assert v in UsersIn(t.members, c) <==> Member(c, v) in t.members;
    }
  }

  /** A user asking for chats gets one list: the chats the user is a member of, with their members, or
      nothing when the query fails. */
  lemma ChatListAnswered(f: Formats, env: Env, s: State, socket: Socket, p: Packet, user: Uuid)
    requires FromUser(s, socket, p, user) && p.kind == GET_CHATS && Referential(s.db)
    ensures var r := Handle(f, env, s, socket, p);
      && r.state == s && |r.sent| == 1 && r.sent[0].content.ChatList?
      && r.sent[0].session == p.sender && r.sent[0].socket == socket
      && (!env.readFault ==>
            && (forall c :: c in r.sent[0].content.chats <==> Member(c, user) in s.db.members)
            && Lists(s.db, r.sent[0].content.chats, ChatsJoined(s.db, user)))
      && (env.readFault ==> r.sent[0].content.chats == map[])
  {
    ChatsOfMeaning(s.db, user);
    hide ChatsOf;
  }

  /** In every reachable state a user is shown exactly the chats the user belongs to. */
  lemma {:induction false} ChatListsOverRuns(
    f: Formats, db: Tables, events: seq<Event>, env: Env, socket: Socket, p: Packet, user: Uuid)
    requires Counted(db) && Referential(db) && OrderlyRun(events) && !env.readFault
    requires var s := RunServer(f, db, events);
      p.sender in s.clients && s.clients[p.sender].socket == socket && s.clients[p.sender].userId == Some(user)
    requires p.kind == GET_CHATS
    ensures var s := RunServer(f, db, events);
      var sent := Handle(f, env, s, socket, p).sent;
      && |sent| == 1 && sent[0].socket == socket && sent[0].content.ChatList?
      && (forall c :: c in sent[0].content.chats <==> Member(c, user) in s.db.members)
      && forall c, v | c in sent[0].content.chats ::
           v in sent[0].content.chats[c].members <==> Member(c, v) in s.db.members
  {
    OneSessionPerUser(f, db, events);
    ServerKeepsTables(f, db, events);
    ChatListAnswered(f, env, RunServer(f, db, events), socket, p, user);
    hide RunServer, Handle;
  }

  ghost function KindIn(t: Tables, kinds: set<ChatKind>): Uuid -> bool {
    (c: Uuid) => c in t.chats && t.chats[c].kind in kinds
  }

  /** A search gets one list: the chats whose kind matches, or nothing when the query fails. */
  lemma SearchAnswered(f: Formats, env: Env, s: State, socket: Socket, p: Packet, user: Uuid)
    requires FromUser(s, socket, p, user) && p.kind == SEARCH_CHATS
    ensures var r := Handle(f, env, s, socket, p);
      && (p.data == None ==> RefusedWith(s, p.sender, r, "Chat search payload is missing"))
      && (p.data.Some? ==>
            && r.state == s && |r.sent| == 1 && r.sent[0].content.ChatList?
            && r.sent[0].session == p.sender && r.sent[0].socket == socket
            && (!env.readFault ==> Lists(s.db, r.sent[0].content.chats, KindIn(s.db, f.chatKinds(p.data.value))))
            && (env.readFault ==> r.sent[0].content.chats == map[]))
  {
    var kinds := if p.data.Some? then f.chatKinds(p.data.value) else {};
    var chats := ChatsOfKinds(s.db, kinds, false);
    forall c, v | c in chats ensures v in chats[c].members <==> Member(c, v) in s.db.members {
      assert v in UsersIn(s.db.members, c) <==> Member(c, v) in s.db.members;
    }
  }

  // -------------------------------------------------------------- public lookups

  /** A lookup is answered with the public part of the row it names - by id, or by the normalized username
      when that is valid - or told what is wrong with it. */
  lemma LookupAnswered(
    f: Formats, env: Env, s: State, socket: Socket, p: Packet, user: Uuid, request: InfoRequest, found: Uuid)
    requires FromUser(s, socket, p, user) && p.kind == GET_USER_INFO && Orderly(env.order) && UsersDistinct(s.db)
    requires p.data.Some? && f.userInfo(p.data.value) == Some(request)
    ensures var r, t := Handle(f, env, s, socket, p), s.db;
      && (request == ById(NULL_UUID) ==> RefusedWith(s, p.sender, r, "Invalid user id"))
      && (request.ByName? && !f.validUsername(f.normalized(request.username)) ==>
            RefusedWith(s, p.sender, r, "Invalid username"))
      && (found in t.users && !env.readFault
          && (|| (request == ById(found) && found != NULL_UUID)
              || (request.ByName? && f.validUsername(f.normalized(request.username))
                  && t.users[found].username == f.normalized(request.username))) ==>
            r == Outcome(s, [Outbound(p.sender, socket,
                                      PublicInfo(found, t.users[found].username, t.users[found].displayName))]))
      && (request == ById(found) && found != NULL_UUID && (env.readFault || found !in t.users) ==>
            RefusedWith(s, p.sender, r, "User not found"))
      && (request.ByName? && f.validUsername(f.normalized(request.username))
          && (env.readFault || forall u | u in t.users :: t.users[u].username != f.normalized(request.username)) ==>
            RefusedWith(s, p.sender, r, "User not found"))
  {
    if request.ByName? {
      var name := f.normalized(request.username);
      var listed := env.order(FindUsername(s.db, name));
      assert Enumerates(listed, FindUsername(s.db, name));
      if listed != [] {
        assert listed[0] in listed;
      }
      if found in s.db.users && s.db.users[found].username == name {
        assert found in listed;
      }
    }
  }

  // ----------------------------------------------------------- chat creation

  /** The sessions a list goes to, each once, with the chats of its own user. */
  ghost predicate ListFor(s: State, o: Outbound, members: set<Uuid>, fault: bool) {
    && o.session in s.clients && s.clients[o.session].userId.Some? && s.clients[o.session].userId.value in members
    && o.socket == s.clients[o.session].socket && o.content.ChatList?
    && (!fault ==> Lists(s.db, o.content.chats, ChatsJoined(s.db, s.clients[o.session].userId.value)))
  }

  ghost predicate GetsList(s: State, k: Uuid, members: set<Uuid>) {
    k in s.clients && s.clients[k].userId.Some? && s.clients[k].userId.value in members
  }

  lemma {:induction false} UpdatedListsAreRight(s: State, order: seq<Uuid>, members: set<Uuid>, fault: bool)
    requires SessionsAgree(s.clients) && NoDuplicates(order)
    ensures forall o | o in UpdatedChatLists(s, order, members, fault) ::
      o.session in order && ListFor(s, o, members, fault)
    ensures DistinctSessions(UpdatedChatLists(s, order, members, fault))
    ensures forall k | k in order && GetsList(s, k, members) :: SentTo(UpdatedChatLists(s, order, members, fault), k)
  {
    if order == [] {
    } else {
      var before, k := order[..|order| - 1], order[|order| - 1];
      SplitLast(order);
      UpdatedStep(s, order, members, fault);
      hide UpdatedChatLists, ListFor, GetsList;
      UpdatedListsAreRight(s, before, members, fault);
      var sent := UpdatedChatLists(s, before, members, fault);
      if GetsList(s, k, members) {
        var o := Outbound(k, s.clients[k].socket, ChatList(ChatsOf(s.db, s.clients[k].userId.value, fault)));
        OneListFor(s, k, members, fault);
        OneMoreSent(sent, o, before);
      }
    }
  }

  lemma OneListFor(s: State, k: Uuid, members: set<Uuid>, fault: bool)
    requires GetsList(s, k, members)
    ensures ListFor(s, Outbound(k, s.clients[k].socket, ChatList(ChatsOf(s.db, s.clients[k].userId.value, fault))),
                    members, fault)
  {
    ChatsOfMeaning(s.db, s.clients[k].userId.value);
    hide ChatsOf, Lists;
  }

  /** One more packet, to a session that had none, keeps them apart and reaches one session more. */
  lemma OneMoreSent(sent: seq<Outbound>, o: Outbound, order: seq<Uuid>)
    requires DistinctSessions(sent) && o.session !in order && forall x | x in sent :: x.session in order
    ensures DistinctSessions(sent + [o])
    ensures forall k :: SentTo(sent + [o], k) <==> SentTo(sent, k) || k == o.session
  {
    var more := sent + [o];
    assert more[|sent|] == o;
    forall i, j | 0 <= i < j < |more| ensures more[i].session != more[j].session {
      assert more[i] == sent[i] && sent[i] in sent;
    }
    forall k | SentTo(sent, k) ensures SentTo(more, k) {
      var i :| 0 <= i < |sent| && sent[i].session == k;
      assert more[i].session == k;
    }
  }

  lemma UpdatedStep(s: State, order: seq<Uuid>, members: set<Uuid>, fault: bool)
    requires SessionsAgree(s.clients) && order != []
    ensures var n := |order| - 1;
      var k, before := order[n], UpdatedChatLists(s, order[..n], members, fault);
      UpdatedChatLists(s, order, members, fault)
      == before + if GetsList(s, k, members)
                  then [Outbound(k, s.clients[k].socket, ChatList(ChatsOf(s.db, s.clients[k].userId.value, fault)))]
                  else []
  {
    hide ChatsOf;
  }

  /** The members of a chat about to be created: the creator, and whoever is requested, exists and is
      found. */
  ghost predicate Chooses(t: Tables, creator: Uuid, requested: seq<Uuid>, faults: Faults, u: Uuid) {
    u == creator || (u in requested && u != NULL_UUID && u in t.users && u !in faults.lookups)
  }

  lemma ChosenIff(t: Tables, creator: Uuid, requested: seq<Uuid>, faults: Faults)
    ensures forall u ::
      u in Chosen(t, creator, requested, faults.lookups) <==> Chooses(t, creator, requested, faults, u)
  {
  }

  /** A request that does not create a chat is refused with its reason; the tables are as the creation
      left them. */
  lemma CreationRefused(
    f: Formats, env: Env, s: State, socket: Socket, p: Packet, user: Uuid, requested: seq<Uuid>)
    requires FromUser(s, socket, p, user) && p.kind == CREATE_CHAT
    requires p.data.Some? && f.createChat(p.data.value) == Some(requested)
    ensures var made := Create(s.db, env.freshId, user, requested, env.order, env.creation);
      var r := Handle(f, env, s, socket, p);
      && r.state == s.(db := made.tables)
      && (made.verdict == TooFew ==> RefusedWith(r.state, p.sender, r, "Chat must have at least one valid member"))
      && (made.verdict == ChatRefused ==> RefusedWith(r.state, p.sender, r, "Failed to create chat"))
      && (made.verdict == MemberRefused ==> RefusedWith(r.state, p.sender, r, "Failed to add chat member"))
  {
    hide Create, Chosen, Announcements;
  }

  /** A created chat is confirmed to its creator with its kind and members, and every signed-in session of
      a member gets one list of its user's chats, the new one among them; nobody else gets anything. */
  lemma CreationAnnounced(
    f: Formats, env: Env, s: State, socket: Socket, p: Packet, user: Uuid, requested: seq<Uuid>)
    requires FromUser(s, socket, p, user) && p.kind == CREATE_CHAT
    requires p.data.Some? && f.createChat(p.data.value) == Some(requested)
    requires Counted(s.db) && Referential(s.db) && Orderly(env.order) && !env.readFault
    requires ChatGoesIn(s.db, env.freshId, user, requested, env.creation)
    requires Chosen(s.db, user, requested, env.creation.lookups) * env.creation.members == {}
    ensures var members, r := Chosen(s.db, user, requested, env.creation.lookups), Handle(f, env, s, socket, p);
      && r.state.clients == s.clients
      && UsersIn(r.state.db.members, env.freshId) == members
      && 2 <= |r.sent|
      && r.sent[0] == Outbound(p.sender, socket, Success("Chat created successfully"))
      && r.sent[1] == Outbound(p.sender, socket, ChatInfo(env.freshId,
           ListedChat(Chat(if |members| > 2 then Group else Direct, Some(user)), members)))
      && DistinctSessions(r.sent[2..])
      && (forall o | o in r.sent[2..] :: ListFor(r.state, o, members, false) && env.freshId in o.content.chats)
      && (forall k | GetsList(s, k, members) :: SentTo(r.sent[2..], k))
  {
    var members, made := Chosen(s.db, user, requested, env.creation.lookups),
                         Create(s.db, env.freshId, user, requested, env.order, env.creation);
    VerdictIff(s.db, env.freshId, user, requested, env.order, env.creation);
    CreatedMembers(s.db, env.freshId, user, requested, env.order, env.creation);
    AllOrNothing(s.db, env.freshId, user, requested, env.order, env.creation);
    var after := s.(db := made.tables);
    var order := env.order(s.clients.Keys);
    assert Enumerates(order, s.clients.Keys);
    UpdatedListsAreRight(after, order, members, false);
    CreationSends(f, env, s, socket, p, user, requested);
    hide Create, Chosen, UpdatedChatLists, Lists, Counted, Handle, Announcements;
    var lists := UpdatedChatLists(after, order, members, false);
    assert Handle(f, env, s, socket, p).sent[2..] == lists;
    forall o | o in lists ensures env.freshId in o.content.chats {
      assert ListFor(after, o, members, false);
      NewChatListed(after, o, members, env.freshId);
    }
  }

  lemma NewChatListed(s: State, o: Outbound, members: set<Uuid>, id: Uuid)
    requires ListFor(s, o, members, false) && id in s.db.chats && UsersIn(s.db.members, id) == members
    ensures id in o.content.chats
  {
    var user := s.clients[o.session].userId.value;
    assert user in UsersIn(s.db.members, id);
    assert Member(id, user) in s.db.members;
  }

  lemma CreationSends(
    f: Formats, env: Env, s: State, socket: Socket, p: Packet, user: Uuid, requested: seq<Uuid>)
    requires FromUser(s, socket, p, user) && p.kind == CREATE_CHAT && !env.readFault
    requires p.data.Some? && f.createChat(p.data.value) == Some(requested)
    requires Create(s.db, env.freshId, user, requested, env.order, env.creation).verdict == Created
    ensures var members := Chosen(s.db, user, requested, env.creation.lookups);
      var after := s.(db := Create(s.db, env.freshId, user, requested, env.order, env.creation).tables);
      Handle(f, env, s, socket, p)
      == Outcome(after, [Outbound(p.sender, socket, Success("Chat created successfully")),
                         Outbound(p.sender, socket, ChatInfo(env.freshId,
                           ListedChat(Chat(if |members| > 2 then Group else Direct, Some(user)),
                                      UsersIn(after.db.members, env.freshId))))]
                        + UpdatedChatLists(after, env.order(s.clients.Keys), members, false))
  {
    hide Create, Chosen, UpdatedChatLists;
  }

  // ----------------------------------------------------------------- messages

  /** A message that is not accepted is refused to its sender alone, with the first thing wrong with it. */
  lemma MessageRefused(f: Formats, env: Env, s: State, socket: Socket, p: Packet, user: Uuid)
    requires SessionsAgree(s.clients) && p.kind == CHAT_MESSAGE && p.sender in s.clients && p.sender != NULL_UUID
    requires s.clients[p.sender].userId == Some(user) && !Accepted(f, env, s, p)
    ensures RefusedWith(s, p.sender, Handle(f, env, s, socket, p),
      if p.data.None? then "Message payload is missing"
      else
        var m := f.message(p.data.value);
        if m.targetChatId == NULL_UUID then "Invalid chat id"
        else if env.readFault || forall u :: Member(m.targetChatId, u) !in s.db.members then "Chat not found"
        else if m.senderUserId !in {NULL_UUID, user} then "Invalid sender user id"
        else "You are not a member of this chat")
  {
    if p.data.Some? {
      var chat := f.message(p.data.value).targetChatId;
      var members := UsersIn(s.db.members, chat);
      assert forall u :: u in members <==> Member(chat, u) in s.db.members;
      assert members != {} ==> exists u :: u in members;
    }
  }

  // -------------------------------------------------------------- disconnects

  /** A connection that closes takes exactly one of its sessions with it, if it has any. */
  lemma DisconnectDropsOne(env: Env, s: State, socket: Socket)
    requires Orderly(env.order)
    ensures var after := Disconnect(env, s, socket);
      && after.db == s.db
      && if forall k | k in s.clients :: s.clients[k].socket != socket then after == s
         else exists k :: k in s.clients && s.clients[k].socket == socket && after.clients == s.clients - {k}
  {
    var order := env.order(s.clients.Keys);
    assert Enumerates(order, s.clients.Keys);
    assert forall k :: k in s.clients ==> k in order;
    var first := FirstOnSocket(s.clients, order, socket);
  }
}
