/** Usernames and password hashes, from the words typed into a client to the rows of the server and back:
    what is stored, which login is accepted, and for how long. */
module Credentials {
  import opened Prelude
  import opened PacketCodec
  import opened History
  import opened Tables
  import opened ChatCreation
  import opened Streams
  import opened ServerModel
  import opened ServerProofs
  import opened ServerAnswers
  import A = Account
  import L = LoginAgreement

  // ------------------------------------------------------------ distinct users

  lemma StepKeepsUsersDistinct(f: Formats, s: State, e: Event)
    requires UsersDistinct(s.db)
    ensures UsersDistinct(Step(f, s, e).state.db)
  {
    if e.Received? {
      var env, socket, p := e.env, e.socket, e.packet;
      if p.kind == REGISTER_USER {
        RegisterKeepsUsersDistinct(f, env, s, socket, p);
      } else if p.kind == UPDATE_USER_PROFILE {
        UpdateKeepsUsersDistinct(f, env, s, socket, p);
      } else if p.kind == CREATE_CHAT {
        CreationStep(f, env, s, socket, p);
        CreationKeepsUsers(s.db, env, f, s, socket, p);
      } else {
        OthersKeepTables(f, env, s, socket, p);
      }
    }
  }

  lemma RegisterKeepsUsersDistinct(f: Formats, env: Env, s: State, socket: Socket, p: Packet)
    requires UsersDistinct(s.db)
    ensures UsersDistinct(RegisterUser(f, env, s, socket, p).state.db)
  {
    if p.sender in s.clients && p.data.Some? && f.register(p.data.value).Some? {
      StatementKeepsUsersDistinct(s.db, CreateUser(env.freshId, Registered(f, f.register(p.data.value).value)), false);
    }
    hide UsersDistinct;
  }

  lemma UpdateKeepsUsersDistinct(f: Formats, env: Env, s: State, socket: Socket, p: Packet)
    requires UsersDistinct(s.db)
    ensures UsersDistinct(UpdateUserProfile(f, env, s, socket, p).state.db)
  {
    if p.sender in s.clients && SignedIn(s.clients[p.sender]) && p.data.Some? && f.profileUpdate(p.data.value).Some? {
      var update := TrimmedUpdate(f, f.profileUpdate(p.data.value).value);
      StatementKeepsUsersDistinct(s.db, UpdateProfile(s.clients[p.sender].userId.value, update), env.writeFault);
    }
    hide UsersDistinct;
  }

  /** A chat creation, however it ends, leaves the users alone. */
  lemma CreationKeepsUsers(t: Tables, env: Env, f: Formats, s: State, socket: Socket, p: Packet)
    requires t == s.db
    ensures CreateChatFor(f, env, s, socket, p).state.db.users == t.users
  {
    CreationStep(f, env, s, socket, p);
    if ReachesCreation(f, s, socket, p) {
      CreateKeepsUsers(t, env.freshId, s.clients[p.sender].userId.value, f.createChat(p.data.value).value,
                       env.order, env.creation);
    }
  }

  lemma CreateKeepsUsers(
    t: Tables, id: Uuid, creator: Uuid, requested: seq<Uuid>, order: HashOrder, faults: Faults)
    ensures Create(t, id, creator, requested, order, faults).tables.users == t.users
  {
    var chosen := Chosen(t, creator, requested, faults.lookups);
    var addChat := CreateChat(id, Chat(KindFor(|chosen|), Some(creator)));
    if 2 <= |chosen| && !faults.chat && Allowed(t, addChat) {
      var t1, users := Apply(t, addChat), order(chosen);
      AddMembersKeepsUsers(t1, id, users[..Inserted(t1, id, users, faults.members)]);
    }
  }

  lemma {:induction false} AddMembersKeepsUsers(t: Tables, id: Uuid, users: seq<Uuid>)
    ensures AddMembers(t, id, users).users == t.users
  {
    if users == [] {
    } else {
      AddMembersKeepsUsers(t, id, users[..|users| - 1]);
    }
  }

  /** In every run no two users share a username or an email. */
  lemma {:induction false} UsersStayDistinct(f: Formats, db: Tables, events: seq<Event>)
    requires UsersDistinct(db)
    ensures UsersDistinct(RunServer(f, db, events).db)
  {
    if events == [] {
    } else {
      UsersStayDistinct(f, db, events[..|events| - 1]);
      StepKeepsUsersDistinct(f, RunServer(f, db, events[..|events| - 1]), events[|events| - 1]);
    }
  }

  // --------------------------------------------------------- the hash on record

  predicate HashIs(t: Tables, user: Uuid, hash: string) {
    user in t.users && t.users[user].passwordHash == hash
  }

  /** The event registers this user with this hash. */
  ghost predicate RegistersWith(f: Formats, s: State, e: Event, user: Uuid, hash: string) {
    && e.Received? && e.packet.kind == REGISTER_USER && FromOwnSocket(s, e.socket, e.packet)
    && e.packet.data.Some? && f.register(e.packet.data.value).Some?
    && var info := f.register(e.packet.data.value).value;
       Storable(f, e.env, s.db, info) && e.env.freshId == user && info.passwordHash == hash
  }

  /** The event is this user's own profile update, in order and carried out, naming this hash. */
  ghost predicate ChangesTo(f: Formats, s: State, e: Event, user: Uuid, hash: string) {
    && e.Received? && e.packet.kind == UPDATE_USER_PROFILE && FromUser(s, e.socket, e.packet, user)
    && e.packet.data.Some? && f.profileUpdate(e.packet.data.value).Some?
    && var u := f.profileUpdate(e.packet.data.value).value;
       UpdateInOrder(f, u) && UpdateFree(f, s.db, user, u) && !e.env.writeFault && u.passwordHash == Some(hash)
  }

  ghost predicate SetsHash(f: Formats, s: State, e: Event, user: Uuid, hash: string) {
    RegistersWith(f, s, e, user, hash) || ChangesTo(f, s, e, user, hash)
  }

  ghost predicate SetsAnyHash(f: Formats, s: State, e: Event, user: Uuid) {
    exists hash :: SetsHash(f, s, e, user, hash)
  }

  lemma HashStep(f: Formats, s: State, e: Event, user: Uuid, hash: string)
    requires SessionsAgree(s.clients)
    ensures HashIs(Step(f, s, e).state.db, user, hash) <==>
            SetsHash(f, s, e, user, hash) || (HashIs(s.db, user, hash) && !SetsAnyHash(f, s, e, user))
  {
    if e.Received? && e.packet.kind == REGISTER_USER {
      RegistrationHash(f, s, e, user, hash);
    } else if e.Received? && e.packet.kind == UPDATE_USER_PROFILE {
      UpdateHash(f, s, e, user, hash);
    } else {
      if e.Received? && e.packet.kind == CREATE_CHAT {
        CreationKeepsUsers(s.db, e.env, f, s, e.socket, e.packet);
      } else if e.Received? {
        OthersKeepTables(f, e.env, s, e.socket, e.packet);
      }
      assert Step(f, s, e).state.db.users == s.db.users;
      hide Step;
    }
  }

  lemma RegistrationHash(f: Formats, s: State, e: Event, user: Uuid, hash: string)
    requires SessionsAgree(s.clients) && e.Received? && e.packet.kind == REGISTER_USER
    ensures HashIs(Step(f, s, e).state.db, user, hash) <==>
            SetsHash(f, s, e, user, hash) || (HashIs(s.db, user, hash) && !SetsAnyHash(f, s, e, user))
  {
    var p := e.packet;
    if FromOwnSocket(s, e.socket, p) && p.data.Some? && f.register(p.data.value).Some? {
      var info := f.register(p.data.value).value;
      RegistrationStores(f, e.env, s, e.socket, p, info);
      hide Step, Handle, Storable;
      assert Step(f, s, e) == Handle(f, e.env, s, e.socket, p) by {
        StepHandles(f, s, e);
      }
      assert SetsAnyHash(f, s, e, user) <==> SetsHash(f, s, e, user, info.passwordHash);
    } else {
      assert Step(f, s, e).state.db == s.db;
    }
  }

  lemma StepHandles(f: Formats, s: State, e: Event)
    requires e.Received?
    ensures Step(f, s, e) == Handle(f, e.env, s, e.socket, e.packet)
  {
  }

  lemma UpdateHash(f: Formats, s: State, e: Event, user: Uuid, hash: string)
    requires SessionsAgree(s.clients) && e.Received? && e.packet.kind == UPDATE_USER_PROFILE
    ensures HashIs(Step(f, s, e).state.db, user, hash) <==>
            SetsHash(f, s, e, user, hash) || (HashIs(s.db, user, hash) && !SetsAnyHash(f, s, e, user))
  {
    var p := e.packet;
    if FromOwnSocket(s, e.socket, p) && s.clients[p.sender].userId.Some? && p.data.Some?
      && f.profileUpdate(p.data.value).Some? {
      var u, asker := f.profileUpdate(p.data.value).value, s.clients[p.sender].userId.value;
      UpdateTakesEffect(f, e.env, s, e.socket, p, asker, u);
      StepHandles(f, s, e);
      hide Step, Handle, UpdateInOrder, UpdateFree;
      assert u.passwordHash.Some? ==>
        (SetsAnyHash(f, s, e, user) <==> SetsHash(f, s, e, user, u.passwordHash.value));
    } else {
      assert Step(f, s, e).state.db == s.db;
    }
  }

  /** Event `i` set this hash for this user, and no later event set any. */
  ghost predicate HashSince(f: Formats, db: Tables, events: seq<Event>, i: nat, user: Uuid, hash: string) {
    && i < |events| && SetsHash(f, RunServer(f, db, events[..i]), events[i], user, hash)
    && forall j | i < j < |events| :: !SetsAnyHash(f, RunServer(f, db, events[..j]), events[j], user)
  }

  ghost predicate HashUntouched(f: Formats, db: Tables, events: seq<Event>, user: Uuid) {
    forall j | 0 <= j < |events| :: !SetsAnyHash(f, RunServer(f, db, events[..j]), events[j], user)
  }

  /** In every run a user's hash on record is the one last set, by the registration or by a change of the
      user's own that was carried out; or the one from the start, if none was. */
  lemma {:induction false} HashIsLastSet(f: Formats, db: Tables, events: seq<Event>, user: Uuid, hash: string)
    ensures HashIs(RunServer(f, db, events).db, user, hash) <==>
      || (exists i: nat :: HashSince(f, db, events, i, user, hash))
      || (HashIs(db, user, hash) && HashUntouched(f, db, events, user))
  {
    var holds := (p: seq<Event>) => HashIs(RunServer(f, db, p).db, user, hash);
    var begins := (p: seq<Event>, e: Event) => SetsHash(f, RunServer(f, db, p), e, user, hash);
    var ends := (p: seq<Event>, e: Event) => SetsAnyHash(f, RunServer(f, db, p), e, user);
    forall p: seq<Event>, e: Event
      ensures holds(p + [e]) <==> begins(p, e) || (holds(p) && !ends(p, e))
    {
      OneSessionPerUser(f, db, p);
      RunServerPlus(f, db, p, e);
      HashStep(f, RunServer(f, db, p), e, user, hash);
    }
    HoldsIffStanding(events, holds, begins, ends);
    assert RunServer(f, db, []).db == db;
    hide RunServer, HashIs, SetsHash, SetsAnyHash;
    assert forall i: nat :: Standing(events, i, begins, ends) <==> HashSince(f, db, events, i, user, hash);
    assert NeverEnded(events, ends) <==> HashUntouched(f, db, events, user);
  }

  /** After a change of hash that was carried out, with none since, a login as that user needs the new
      hash. */
  lemma {:induction false} LoginNeedsNewHash(
    f: Formats, db: Tables, events: seq<Event>, i: nat, user: Uuid, hash: string, e: Event, k: Uuid)
    requires HashSince(f, db, events, i, user, hash) && Orderly(e.env.order)
    requires LogsIn(f, RunServer(f, db, events), e, k, user)
    ensures f.login(e.packet.data.value).value.passwordHash == hash
  {
    HashIsLastSet(f, db, events, user, hash);
    LoginMatches(f, RunServer(f, db, events), e, k, user);
    hide HashSince, LogsIn;
  }

  /** And the new hash is enough: with the user's name it signs in a session that asks, when the query works
      and no other session has the user. */
  lemma {:induction false} NewHashAdmits(
    f: Formats, db: Tables, events: seq<Event>, i: nat, user: Uuid, hash: string, e: Event)
    requires UsersDistinct(db) && HashSince(f, db, events, i, user, hash)
    requires e.Received? && e.packet.kind == LOGIN_USER && Orderly(e.env.order) && !e.env.readFault
    requires e.packet.data.Some? && f.login(e.packet.data.value).Some?
    requires f.login(e.packet.data.value).value.passwordHash == hash
    requires var s := RunServer(f, db, events);
      && e.packet.sender in s.clients && s.clients[e.packet.sender].socket == e.socket
      && (forall k | k in s.clients && k != e.packet.sender :: s.clients[k].userId != Some(user))
      && (user in s.db.users ==> s.db.users[user].username == f.login(e.packet.data.value).value.login)
    ensures AuthorizedAs(Step(f, RunServer(f, db, events), e).state.clients, e.packet.sender, user)
  {
    var s := RunServer(f, db, events);
    HashIsLastSet(f, db, events, user, hash);
    OneSessionPerUser(f, db, events);
    UsersStayDistinct(f, db, events);
    hide HashSince, RunServer;
    var info := f.login(e.packet.data.value).value;
    assert Admits(e.env, s, e.packet.sender, info, user);
    LoginIff(f, e.env, s, e.socket, e.packet, info);
    StepHandles(f, s, e);
    hide Step, Handle;
  }

  // --------------------------------------------------- from the words typed in

  /** The server reads the credentials the client writes. */
  ghost predicate ReadsCredentials(c: L.Config) {
    && (forall login, hash ::
          c.formats.login(c.encode(A.LoginRequest(login, hash))) == Some(LoginInfo(login, hash)))
    && (forall username, displayName, email, hash ::
          c.formats.register(c.encode(A.RegisterRequest(username, displayName, email, hash)))
          == Some(RegisterInfo(username, displayName, email, hash)))
  }

  /** Both ends trim and check alike; trimming twice is trimming once; and there is nothing to trim from a
      valid username. */
  ghost predicate SameRules(c: L.Config) {
    && (forall x :: c.formats.trimmed(x) == c.texts.trimmed(x))
    && (forall x :: c.texts.trimmed(c.texts.trimmed(x)) == c.texts.trimmed(x))
    && (forall x :: c.formats.validUsername(x) == c.texts.isValidUsername(x))
    && (forall x :: c.texts.isValidUsername(x) ==> c.texts.trimmed(x) == x)
  }

  /** What goes out on a call is the packet of its request. */
  lemma CallSends(c: L.Config, client: A.AccountState, e: A.AccountEvent, p: Packet)
    requires (e.CallLogin? || e.CallRegister?) && L.Adds(c, client, true, e) == [p]
    ensures A.Sends(c.texts, client, true, e).Some?
    ensures p == L.RequestPacket(c, A.Sends(c.texts, client, true, e).value)
  {
    assert A.After(c.texts, client, true, e).loggedIn == client.loggedIn;
    var sends := A.Sends(c.texts, client, true, e);
    assert L.Adds(c, client, true, e) == if sends.Some? then [L.RequestPacket(c, sends.value)] else [];
    assert [p][0] == p;
  }

  /** A login that is sent, and the server accepts, is one with the name and the hash of the password that
      were typed in. */
  lemma LoginCarriesWords(
    c: L.Config, client: A.AccountState, login: string, password: string, p: Packet,
    s: State, socket: Socket, env: Env, user: Uuid)
    requires ReadsCredentials(c) && Orderly(env.order)
    requires L.Adds(c, client, true, A.CallLogin(login, password)) == [p]
    requires LogsIn(c.formats, s, Received(socket, p, env), c.me, user)
    ensures user in s.db.users
    ensures s.db.users[user].username == c.texts.normalizeUsername(login)
    ensures s.db.users[user].passwordHash == c.texts.hash(password)
  {
    CallSends(c, client, A.CallLogin(login, password), p);
    LoginMatches(c.formats, s, Received(socket, p, env), c.me, user);
    A.LoginSentIff(c.texts, client, true, login, password);
  }

  /** A registration that is sent asks for a row with the words typed in, as the account would show them,
      and the hash of the password; and if the keys are free that row is stored. */
  lemma RegistrationCarriesWords(
    c: L.Config, client: A.AccountState, username: string, displayName: string, email: string, password: string,
    p: Packet, s: State, socket: Socket, env: Env)
    requires ReadsCredentials(c) && SameRules(c) && FromOwnSocket(s, socket, p) && !env.writeFault
    requires L.Adds(c, client, true, A.CallRegister(username, displayName, email, password)) == [p]
    requires env.freshId !in s.db.users && forall u | u in s.db.users ::
      && s.db.users[u].username != c.texts.normalizeUsername(username)
      && s.db.users[u].email != c.texts.trimmed(email)
    ensures var r := Handle(c.formats, env, s, socket, p);
      && r.sent == [Outbound(p.sender, socket, Success("Registration successful"))]
      && r.state.clients == s.clients
      && r.state.db == s.db.(users := s.db.users[env.freshId :=
           User(c.texts.normalizeUsername(username), c.texts.trimmed(displayName), c.texts.hash(password),
                c.texts.trimmed(email))])
  {
    CallSends(c, client, A.CallRegister(username, displayName, email, password), p);
    A.RegistrationSentIff(c.texts, client, true, username, displayName, email, password);
    var name := c.texts.normalizeUsername(username);
    var info := RegisterInfo(name, c.texts.trimmed(displayName), c.texts.trimmed(email), c.texts.hash(password));
    assert c.texts.trimmed(name) == name;
    assert c.formats.register(p.data.value) == Some(info);
    RegistrationStores(c.formats, env, s, socket, p, info);
    hide Handle;
  }

  /** Whoever registers can log in: with the same words, once the registration is stored, as the new user. */
  lemma RegisteredMayLogIn(
    c: L.Config, registrant: A.AccountState, client: A.AccountState, username: string, displayName: string,
    email: string, password: string, p: Packet, q: Packet, s: State, socket: Socket, env: Env, env2: Env)
    requires ReadsCredentials(c) && SameRules(c) && FromOwnSocket(s, socket, p) && !env.writeFault
    requires UsersDistinct(s.db) && Orderly(env2.order) && !env2.readFault
    requires L.Adds(c, registrant, true, A.CallRegister(username, displayName, email, password)) == [p]
    requires L.Adds(c, client, true, A.CallLogin(username, password)) == [q]
    requires env.freshId !in s.db.users && forall u | u in s.db.users ::
      && s.db.users[u].username != c.texts.normalizeUsername(username)
      && s.db.users[u].email != c.texts.trimmed(email)
    requires forall k | k in s.clients :: s.clients[k].userId != Some(env.freshId)
    ensures var stored := Handle(c.formats, env, s, socket, p).state;
      AuthorizedAs(Handle(c.formats, env2, stored, socket, q).state.clients, c.me, env.freshId)
  {
    CallSends(c, registrant, A.CallRegister(username, displayName, email, password), p);
    CallSends(c, client, A.CallLogin(username, password), q);
    A.RegistrationSentIff(c.texts, registrant, true, username, displayName, email, password);
    A.LoginSentIff(c.texts, client, true, username, password);
    RegistrationCarriesWords(c, registrant, username, displayName, email, password, p, s, socket, env);
    var stored := Handle(c.formats, env, s, socket, p).state;
    hide Handle;
    var info := LoginInfo(c.texts.normalizeUsername(username), c.texts.hash(password));
    assert c.formats.login(q.data.value) == Some(info);
    assert Admits(env2, stored, q.sender, info, env.freshId);
    LoginIff(c.formats, env2, stored, socket, q, info);
  }
}
