/** The tables of `migrations/`, the statements the server issues on them, and the triggers and
    cascades those statements set off. A statement that fails leaves everything as it was. */
module Tables {
  import opened Prelude

  datatype User = User(username: string, displayName: string, passwordHash: string, email: string)
  datatype ChatKind = Direct | Group
  datatype Chat = Chat(kind: ChatKind, createdBy: Option<Uuid>)
  datatype Member = Member(chatId: Uuid, userId: Uuid)

  /** A `user_stats` row; `exUsernames` is None where the column is NULL. */
  datatype Stats = Stats(chatsJoined: int, exUsernames: Option<seq<string>>)

  type StatsTable = map<Uuid, Stats>

  datatype Tables = Tables(
    users: map<Uuid, User>, chats: map<Uuid, Chat>, members: set<Member>, stats: StatsTable)

  const EMPTY_TABLES := Tables(map[], map[], {}, map[])

  // --------------------------------------------------------------- triggers

  /** `stats_chat_join`, after one row is inserted into chat_members. */
  function ChatJoin(stats: StatsTable, userId: Uuid): StatsTable {
    if userId in stats then stats[userId := stats[userId].(chatsJoined := stats[userId].chatsJoined + 1)]
    else stats[userId := Stats(1, None)]
  }

  /** `stats_chat_leave`, after one row is deleted from chat_members. */
  function ChatLeave(stats: StatsTable, userId: Uuid): StatsTable {
    if userId in stats then stats[userId := stats[userId].(chatsJoined := stats[userId].chatsJoined - 1)]
    else stats
  }

  /** `track_old_username_sql`, before an update that names the username column. */
  function TrackOldUsername(stats: StatsTable, userId: Uuid, oldName: string): StatsTable {
    if userId in stats then
      stats[userId := stats[userId].(exUsernames := Some(NamesOf(stats, userId) + [oldName]))]
    else stats
  }

  /** The recorded former usernames; none where the row or its value is absent. */
  function NamesOf(stats: StatsTable, userId: Uuid): seq<string> {
    if userId in stats && stats[userId].exUsernames.Some? then stats[userId].exUsernames.value else []
  }

  /** The chats of one user among some chat_members rows. */
  function ChatsIn(rows: set<Member>, userId: Uuid): set<Uuid> {
    set m | m in rows && m.userId == userId :: m.chatId
  }

  /** The users of one chat among some chat_members rows. */
  function UsersIn(rows: set<Member>, chatId: Uuid): set<Uuid> {
    set m | m in rows && m.chatId == chatId :: m.userId
  }

  /** The net effect of `stats_chat_leave` firing once for every one of `rows`. */
  function AllLeave(stats: StatsTable, rows: set<Member>): StatsTable {
    map u | u in stats :: stats[u].(chatsJoined := stats[u].chatsJoined - |ChatsIn(rows, u)|)
  }

  // ------------------------------------------------------------- statements

  datatype ProfileUpdate = ProfileUpdate(
    username: Option<string>, displayName: Option<string>, email: Option<string>, passwordHash: Option<string>)

  function Updated(user: User, update: ProfileUpdate): User {
    User(if update.username.Some? then update.username.value else user.username,
         if update.displayName.Some? then update.displayName.value else user.displayName,
         if update.passwordHash.Some? then update.passwordHash.value else user.passwordHash,
         if update.email.Some? then update.email.value else user.email)
  }

  datatype Op =
    | CreateUser(id: Uuid, user: User)
    | DeleteUser(id: Uuid)
    | CreateChat(id: Uuid, chat: Chat)
    | DeleteChat(id: Uuid)
    | CreateMember(member: Member)
    | DeleteMember(member: Member)
    | UpdateProfile(id: Uuid, update: ProfileUpdate)

  /** No other user has this user's username or email. */
  predicate Unique(t: Tables, id: Uuid, user: User) {
    forall other | other in t.users && other != id ::
      t.users[other].username != user.username && t.users[other].email != user.email
  }

  /** The key constraints the statement meets. */
  predicate Allowed(t: Tables, op: Op) {
    match op
    case CreateUser(id, user) => id !in t.users && Unique(t, id, user)
    case CreateChat(id, chat) =>
      id !in t.chats && (chat.createdBy.Some? ==> chat.createdBy.value in t.users)
    case CreateMember(m) => m !in t.members && m.chatId in t.chats && m.userId in t.users
    case UpdateProfile(id, update) => id in t.users && Unique(t, id, Updated(t.users[id], update))
    case _ => true
  }

  /** What the server itself writes about a username change, after the trigger has fired. */
  function RecordFormerName(stats: StatsTable, userId: Uuid, oldName: string): StatsTable {
    var names := NamesOf(stats, userId);
    var kept := if oldName in names then names else names + [oldName];
    if userId in stats then stats[userId := stats[userId].(exUsernames := Some(kept))]
    else stats[userId := Stats(0, Some(kept))]
  }

  function RowsOfChat(t: Tables, chatId: Uuid): set<Member> {
    set m | m in t.members && m.chatId == chatId
  }

  function RowsOfUser(t: Tables, userId: Uuid): set<Member> {
    set m | m in t.members && m.userId == userId
  }

  /** The tables after a statement that was carried out and committed. */
  function Apply(t: Tables, op: Op): Tables
    requires Allowed(t, op)
  {
    match op
    case CreateUser(id, user) => t.(users := t.users[id := user])
    case DeleteUser(id) =>
      t.(users := t.users - {id},
         chats := map c | c in t.chats ::
           if t.chats[c].createdBy == Some(id) then t.chats[c].(createdBy := None) else t.chats[c],
         members := t.members - RowsOfUser(t, id),
         stats := AllLeave(t.stats, RowsOfUser(t, id)))
    case CreateChat(id, chat) => t.(chats := t.chats[id := chat])
    case DeleteChat(id) =>
      t.(chats := t.chats - {id},
         members := t.members - RowsOfChat(t, id),
         stats := AllLeave(t.stats, RowsOfChat(t, id)))
    case CreateMember(m) => t.(members := t.members + {m}, stats := ChatJoin(t.stats, m.userId))
    case DeleteMember(m) =>
      if m in t.members then t.(members := t.members - {m}, stats := ChatLeave(t.stats, m.userId)) else t
    case UpdateProfile(id, update) =>
      var current := t.users[id];
      var updated := Updated(current, update);
      var tracked := TrackOldUsername(t.stats, id, current.username);
      t.(users := t.users[id := updated],
         stats := if updated.username == current.username then tracked
                  else RecordFormerName(tracked, id, current.username))
  }

  /** A statement attempted by the server: it may fail for any reason, and then has no effect. */
  function Attempt(t: Tables, op: Op, fault: bool): Tables {
    if !fault && Allowed(t, op) then Apply(t, op) else t
  }

  function Run(t: Tables, ops: seq<(Op, bool)>): Tables {
    if ops == [] then t
    else
      var last := ops[|ops| - 1];
      Attempt(Run(t, ops[..|ops| - 1]), last.0, last.1)
  }

  // --------------------------------------------------- what a statement does

  /** A profile update gives each field it names the new value, leaves the others, and touches no
      other user, no chat and no membership. */
  lemma UpdateSetsFields(t: Tables, id: Uuid, update: ProfileUpdate)
    requires Allowed(t, UpdateProfile(id, update))
    ensures var t' := Attempt(t, UpdateProfile(id, update), false);
      && t'.users.Keys == t.users.Keys
      && (if update.username.Some? then t'.users[id].username == update.username.value
          else t'.users[id].username == t.users[id].username)
      && (if update.displayName.Some? then t'.users[id].displayName == update.displayName.value
          else t'.users[id].displayName == t.users[id].displayName)
      && (if update.email.Some? then t'.users[id].email == update.email.value
          else t'.users[id].email == t.users[id].email)
      && (if update.passwordHash.Some? then t'.users[id].passwordHash == update.passwordHash.value
          else t'.users[id].passwordHash == t.users[id].passwordHash)
      && (forall other | other in t.users && other != id :: t'.users[other] == t.users[other])
      && t'.chats == t.chats && t'.members == t.members
  {
  }

  /** A new user or chat is stored as given, and nothing else changes. */
  lemma CreationStores(t: Tables, id: Uuid, user: User, chat: Chat)
    ensures Allowed(t, CreateUser(id, user)) ==>
      Attempt(t, CreateUser(id, user), false) == t.(users := t.users[id := user])
    ensures Allowed(t, CreateChat(id, chat)) ==>
      Attempt(t, CreateChat(id, chat), false) == t.(chats := t.chats[id := chat])
  {
  }

  /** Deleting a user takes the row and every membership of the user, and the user's name off the chats
      created; every other row stays. */
  lemma DeletedUser(t: Tables, id: Uuid)
    ensures var t' := Attempt(t, DeleteUser(id), false);
      && (forall u :: u in t'.users <==> u in t.users && u != id)
      && (forall u | u in t'.users :: t'.users[u] == t.users[u])
      && (forall m :: m in t'.members <==> m in t.members && m.userId != id)
      && (forall c :: c in t'.chats <==> c in t.chats)
      && (forall c | c in t'.chats :: t'.chats[c].kind == t.chats[c].kind
            && t'.chats[c].createdBy == if t.chats[c].createdBy == Some(id) then None else t.chats[c].createdBy)
  {
  }

  /** Deleting a chat takes the row and every membership of it; every other row stays. */
  lemma DeletedChat(t: Tables, id: Uuid)
    ensures var t' := Attempt(t, DeleteChat(id), false);
      && (forall c :: c in t'.chats <==> c in t.chats && c != id)
      && (forall c | c in t'.chats :: t'.chats[c] == t.chats[c])
      && (forall m :: m in t'.members <==> m in t.members && m.chatId != id)
      && t'.users == t.users
  {
  }

  /** A membership is added when its chat and user exist and it does not yet, and removed alone. */
  lemma MembershipRows(t: Tables, m: Member)
    ensures var t' := Attempt(t, CreateMember(m), false);
      && (forall n :: n in t'.members <==> n in t.members || (n == m && m.chatId in t.chats && m.userId in t.users))
      && t'.users == t.users && t'.chats == t.chats
    ensures var t' := Attempt(t, DeleteMember(m), false);
      && (forall n :: n in t'.members <==> n in t.members && n != m)
      && t'.users == t.users && t'.chats == t.chats
  {
  }

  /** Which users and chats the keys let in: a new id, and a username and email nobody else has. */
  lemma KeysLetIn(t: Tables, id: Uuid, user: User, update: ProfileUpdate, chat: Chat)
    ensures Allowed(t, CreateUser(id, user)) <==>
      id !in t.users
      && forall u | u in t.users :: t.users[u].username != user.username && t.users[u].email != user.email
    ensures Allowed(t, UpdateProfile(id, update)) <==>
      id in t.users
      && forall u | u in t.users && u != id ::
           && t.users[u].username != (if update.username.Some? then update.username.value else t.users[id].username)
           && t.users[u].email != (if update.email.Some? then update.email.value else t.users[id].email)
    ensures Allowed(t, CreateChat(id, chat)) <==>
      id !in t.chats && (chat.createdBy == None || chat.createdBy.value in t.users)
  {
  }

  /** No two users share a username or an email. */
  ghost predicate UsersDistinct(t: Tables) {
    forall u, v | u in t.users && v in t.users && u != v ::
      t.users[u].username != t.users[v].username && t.users[u].email != t.users[v].email
  }

  lemma StatementKeepsUsersDistinct(t: Tables, op: Op, fault: bool)
    requires UsersDistinct(t)
    ensures UsersDistinct(Attempt(t, op, fault))
  {
  }

  // ----------------------------------------------------- conserved counters

  /** A user's joined count; an absent row counts as zero. */
  function Joined(t: Tables, userId: Uuid): int {
    if userId in t.stats then t.stats[userId].chatsJoined else 0
  }

  ghost predicate Referential(t: Tables) {
    forall m | m in t.members :: m.chatId in t.chats && m.userId in t.users
  }

  /** The count kept by the triggers is the number of chats the user is a member of. */
  ghost predicate Counted(t: Tables) {
    forall u: Uuid :: Joined(t, u) == |ChatsIn(t.members, u)|
  }

  lemma JoinCounts(t: Tables, m: Member)
    requires Counted(t) && m !in t.members
    ensures Counted(t.(members := t.members + {m}, stats := ChatJoin(t.stats, m.userId)))
  {
    var t' := t.(members := t.members + {m}, stats := ChatJoin(t.stats, m.userId));
    forall u: Uuid ensures Joined(t', u) == |ChatsIn(t'.members, u)| {
      assert Joined(t, u) == |ChatsIn(t.members, u)|;
      if u == m.userId {
        assert m.chatId !in ChatsIn(t.members, u);
        assert ChatsIn(t'.members, u) == ChatsIn(t.members, u) + {m.chatId};
      } else {
        assert ChatsIn(t'.members, u) == ChatsIn(t.members, u);
      }
    }
  }

  lemma LeaveCounts(t: Tables, rows: set<Member>)
    requires Counted(t) && rows <= t.members
    ensures Counted(t.(members := t.members - rows, stats := AllLeave(t.stats, rows)))
  {
    var t' := t.(members := t.members - rows, stats := AllLeave(t.stats, rows));
    forall u: Uuid ensures Joined(t', u) == |ChatsIn(t'.members, u)| {
      assert Joined(t, u) == |ChatsIn(t.members, u)|;
      LeaveOne(t.members, rows, u);
    }
  }

  lemma LeaveOne(members: set<Member>, rows: set<Member>, u: Uuid)
    requires rows <= members
    ensures |ChatsIn(members - rows, u)| == |ChatsIn(members, u)| - |ChatsIn(rows, u)|
  {
    var all, gone := ChatsIn(members, u), ChatsIn(rows, u);
    assert gone <= all;
    forall c: Uuid ensures c in ChatsIn(members - rows, u) <==> c in all - gone {
      assert c in all <==> Member(c, u) in members;
      assert c in gone <==> Member(c, u) in rows;
      assert c in ChatsIn(members - rows, u) <==> Member(c, u) in members - rows;
    }
    assert ChatsIn(members - rows, u) == all - gone;
  }

  /** `stats_chat_leave` fired for one row is the one-row case of the net effect. */
  lemma LeaveSingle(stats: StatsTable, m: Member)
    ensures AllLeave(stats, {m}) == ChatLeave(stats, m.userId)
  {
    forall u | u in stats
      ensures |ChatsIn({m}, u)| == if u == m.userId then 1 else 0
    {
      assert ChatsIn({m}, u) == if u == m.userId then {m.chatId} else {};
    }
  }

  /** Every statement, whether or not it succeeds, keeps the counts exact. */
  lemma StatementKeepsCounts(t: Tables, op: Op, fault: bool)
    requires Counted(t) && Referential(t)
    ensures Counted(Attempt(t, op, fault)) && Referential(Attempt(t, op, fault))
  {
    if !fault && Allowed(t, op) {
      var t' := Apply(t, op);
      match op
      case CreateMember(m) => JoinCounts(t, m);
      case DeleteMember(m) =>
        if m in t.members {
          LeaveCounts(t, {m});
          LeaveSingle(t.stats, m);
        }
      case DeleteChat(id) =>
        LeaveCounts(t, RowsOfChat(t, id));
        SameCounts(t.(members := t'.members, stats := t'.stats), t');
      case DeleteUser(id) =>
        LeaveCounts(t, RowsOfUser(t, id));
        SameCounts(t.(members := t'.members, stats := t'.stats), t');
      case UpdateProfile(id, update) => SameCounts(t, t');
      case CreateUser(id, user) => SameCounts(t, t');
      case CreateChat(id, chat) => SameCounts(t, t');
    }
  }

  lemma SameCounts(t: Tables, t': Tables)
    requires Counted(t) && t'.members == t.members
    requires forall u: Uuid :: Joined(t', u) == Joined(t, u)
    ensures Counted(t')
  {
    forall u: Uuid ensures Joined(t', u) == |ChatsIn(t'.members, u)| {
      assert Joined(t, u) == |ChatsIn(t.members, u)|;
    }
  }

  /** From a freshly migrated database, after any run of statements, any of which may fail, each
      user's joined count is the number of chats the user is a member of. */
  lemma {:induction false} CounterConservation(ops: seq<(Op, bool)>)
    ensures Counted(Run(EMPTY_TABLES, ops)) && Referential(Run(EMPTY_TABLES, ops))
  {
    if ops == [] {
      forall u: Uuid ensures Joined(EMPTY_TABLES, u) == |ChatsIn(EMPTY_TABLES.members, u)| {
        assert ChatsIn({}, u) == {};
      }
    } else {
      var n := |ops| - 1;
      CounterConservation(ops[..n]);
      StatementKeepsCounts(Run(EMPTY_TABLES, ops[..n]), ops[n].0, ops[n].1);
    }
  }

  // ------------------------------------------------------- username history

  /** No statement ever forgets a recorded name. */
  lemma NamesGrow(t: Tables, op: Op, fault: bool, userId: Uuid)
    ensures forall name :: name in NamesOf(t.stats, userId) ==> name in NamesOf(Attempt(t, op, fault).stats, userId)
  {
  }

  /** And none records a name but the one the user held. */
  lemma OnlyHeldNames(t: Tables, op: Op, fault: bool, userId: Uuid)
    ensures forall name | name in NamesOf(Attempt(t, op, fault).stats, userId) ::
      name in NamesOf(t.stats, userId) || (userId in t.users && name == t.users[userId].username)
  {
  }

  /** A profile update adds exactly the name held, at the end: always where there is a row, and where there
      is none only if the name changes. */
  lemma HistoryGrowsBy(t: Tables, id: Uuid, update: ProfileUpdate)
    requires Allowed(t, UpdateProfile(id, update))
    ensures var t', was := Attempt(t, UpdateProfile(id, update), false), t.users[id].username;
      && NamesOf(t'.stats, id)
         == (if id in t.stats then NamesOf(t.stats, id) + [was]
             else if update.username.Some? && update.username.value != was then [was]
             else [])
      && forall other | other != id :: NamesOf(t'.stats, other) == NamesOf(t.stats, other)
  {
  }

  lemma {:induction false} NamesGrowOverRun(t: Tables, ops: seq<(Op, bool)>, j: nat, userId: Uuid)
    requires j <= |ops|
    ensures forall name ::
      name in NamesOf(Run(t, ops[..j]).stats, userId) ==> name in NamesOf(Run(t, ops).stats, userId)
    decreases |ops|
  {
    if j == |ops| {
      assert ops[..j] == ops;
    } else {
      hide *;
      var before, last := ops[..|ops| - 1], ops[|ops| - 1];
      assert before[..j] == ops[..j];
      assert ops[..|ops|] == ops;
      NamesGrowOverRun(t, before, j, userId);
      RunStep(t, ops, |ops|);
      NamesGrow(Run(t, before), last.0, last.1, userId);
    }
  }

  /** The user exists at every point of the run from `i` to `k`. */
  ghost predicate PresentThroughout(t: Tables, ops: seq<(Op, bool)>, i: nat, k: nat, userId: Uuid)
    requires i <= k <= |ops|
  {
    forall x :: i <= x <= k ==> userId in Run(t, ops[..x]).users
  }

  function UsernameAt(t: Tables, ops: seq<(Op, bool)>, x: nat, userId: Uuid): string
    requires x <= |ops| && userId in Run(t, ops[..x]).users
  {
    Run(t, ops[..x]).users[userId].username
  }

  /** The statement that changes a username records the old one: in the row there was, or in a
      new row. */
  lemma ChangeRecordsName(t: Tables, op: Op, fault: bool, userId: Uuid)
    requires userId in t.users && userId in Attempt(t, op, fault).users
    requires t.users[userId].username != Attempt(t, op, fault).users[userId].username
    ensures t.users[userId].username in NamesOf(Attempt(t, op, fault).stats, userId)
  {
    assert op.UpdateProfile? && op.id == userId;
  }

  lemma RunStep(t: Tables, ops: seq<(Op, bool)>, k: nat)
    requires 0 < k <= |ops|
    ensures Run(t, ops[..k]) == Attempt(Run(t, ops[..k - 1]), ops[k - 1].0, ops[k - 1].1)
  {
    assert ops[..k][..k - 1] == ops[..k - 1];
  }

  /** A username that a user held at one point and no longer held at a later one is among that
      user's recorded names ever after, whatever rows existed and whatever failed in between. */
  lemma {:induction false} FormerNamesRecorded(t: Tables, ops: seq<(Op, bool)>, i: nat, k: nat, userId: Uuid)
    requires i <= k <= |ops| && PresentThroughout(t, ops, i, k, userId)
    requires UsernameAt(t, ops, i, userId) != UsernameAt(t, ops, k, userId)
    ensures UsernameAt(t, ops, i, userId) in NamesOf(Run(t, ops).stats, userId)
    decreases k
  {
    hide Run, NamesOf, Attempt;
    var before, last := Run(t, ops[..k - 1]), ops[k - 1];
    RunStep(t, ops, k);
    if UsernameAt(t, ops, i, userId) == before.users[userId].username {
      ChangeRecordsName(before, last.0, last.1, userId);
      NamesGrowOverRun(t, ops, k, userId);
    } else {
      FormerNamesRecorded(t, ops, i, k - 1, userId);
    }
  }
}
