/** `server/src/Database.cpp`: the statements as the server issues them, with the triggers and
    cascades of the migrations carried out row by row. A `fault` stands for any failure of the
    connection, the driver or a check that is not a key constraint. */
module Store {
  import opened Prelude
  import opened Tables

  /** Where a profile update is cut short, if anywhere. An unacknowledged commit takes effect although
      the caller is told that it failed. */
  datatype UpdateFault =
    | Nowhere | AtLookup | AtBegin | AtUpdate | AtReadStats | AtWriteStats
    | AtCommit | CommitUnacknowledged | AtReread

  /** The failure keeps the update from taking effect; the history is only read and written when the
      username changes. */
  predicate Prevents(fault: UpdateFault, renames: bool) {
    fault in {AtLookup, AtBegin, AtUpdate, AtCommit} || (renames && fault in {AtReadStats, AtWriteStats})
  }

  predicate Renames(t: Tables, id: Uuid, update: ProfileUpdate) {
    id in t.users && Updated(t.users[id], update).username != t.users[id].username
  }

  class Database {
    var users: map<Uuid, User>
    var chats: map<Uuid, Chat>
    var members: set<Member>
    var stats: StatsTable

    function View(): Tables
      reads this
    {
      Tables(users, chats, members, stats)
    }

    constructor ()
      ensures View() == EMPTY_TABLES
    {
      users, chats, members, stats := map[], map[], {}, map[];
    }

    method GetUserById(id: Uuid, fault: bool) returns (user: Option<User>)
      ensures user == if !fault && id in users then Some(users[id]) else None
    {
      if fault || id !in users {
        return None;
      }
      return Some(users[id]);
    }

    method CreateUser(id: Uuid, user: User, fault: bool) returns (ok: bool)
      modifies this
      ensures ok == (!fault && Allowed(old(View()), Op.CreateUser(id, user)))
      ensures View() == Attempt(old(View()), Op.CreateUser(id, user), fault)
    {
      if fault || id in users || exists other | other in users ::
          users[other].username == user.username || users[other].email == user.email {
        return false;
      }
      users := users[id := user];
      return true;
    }

    method CreateChat(id: Uuid, chat: Chat, fault: bool) returns (ok: bool)
      modifies this`chats
      ensures ok == (!fault && Allowed(old(View()), Op.CreateChat(id, chat)))
      ensures View() == Attempt(old(View()), Op.CreateChat(id, chat), fault)
    {
      if fault || id in chats || (chat.createdBy.Some? && chat.createdBy.value !in users) {
        return false;
      }
      chats := chats[id := chat];
      return true;
    }

    method CreateChatMember(m: Member, fault: bool) returns (ok: bool)
      modifies this`members, this`stats
      ensures ok == (!fault && Allowed(old(View()), CreateMember(m)))
      ensures View() == Attempt(old(View()), CreateMember(m), fault)
    {
      if fault || m in members || m.chatId !in chats || m.userId !in users {
        return false;
      }
      members := members + {m};
      FireChatJoin(m.userId);
      return true;
    }

    method DeleteChatMember(m: Member, fault: bool) returns (ok: bool)
      modifies this`members, this`stats
      ensures ok == (!fault && m in old(members))
      ensures View() == Attempt(old(View()), DeleteMember(m), fault)
    {
      if fault || m !in members {
        return false;
      }
      members := members - {m};
      FireChatLeave(m.userId);
      return true;
    }

    method DeleteChat(id: Uuid, fault: bool) returns (ok: bool)
      modifies this`chats, this`members, this`stats
      ensures ok == (!fault && id in old(chats))
      ensures View() == Attempt(old(View()), Op.DeleteChat(id), fault)
    {
      if fault {
        return false;
      }
      ok := id in chats;
      chats := chats - {id};
      CascadeMembers(RowsOfChat(Tables(users, chats, members, stats), id));
    }

    method DeleteUser(id: Uuid, fault: bool) returns (ok: bool)
      modifies this
      ensures ok == (!fault && id in old(users))
      ensures View() == Attempt(old(View()), Op.DeleteUser(id), fault)
    {
      if fault {
        return false;
      }
      ok := id in users;
      users := users - {id};
      chats := map c | c in chats ::
        if chats[c].createdBy == Some(id) then chats[c].(createdBy := None) else chats[c];
      CascadeMembers(RowsOfUser(Tables(users, chats, members, stats), id));
    }

    /** ON DELETE CASCADE: the rows go one at a time, in any order, each firing the trigger. */
    method CascadeMembers(rows: set<Member>)
      modifies this`members, this`stats
      ensures members == old(members) - rows
      ensures stats == AllLeave(old(stats), rows)
    {
      var left, gone := rows, {};
      LeaveNone(stats);
      while left != {}
        invariant left + gone == rows && left !! gone
        invariant members == old(members) - gone
        invariant stats == AllLeave(old(stats), gone)
        decreases left
      {
        var m :| m in left;
        members := members - {m};
        LeaveOneMore(old(stats), gone, m);
        FireChatLeave(m.userId);
        left, gone := left - {m}, gone + {m};
      }
    }

    /** `stats_chat_join`: insert, or on conflict update. */
    method FireChatJoin(userId: Uuid)
      modifies this`stats
      ensures stats == ChatJoin(old(stats), userId)
    {
      if userId !in stats {
        stats := stats[userId := Stats(1, None)];
      } else {
        stats := stats[userId := stats[userId].(chatsJoined := stats[userId].chatsJoined + 1)];
      }
    }

    /** `stats_chat_leave`: an update that finds no row changes nothing. */
    method FireChatLeave(userId: Uuid)
      modifies this`stats
      ensures stats == ChatLeave(old(stats), userId)
    {
      if userId in stats {
        stats := stats[userId := stats[userId].(chatsJoined := stats[userId].chatsJoined - 1)];
      }
    }

    /** `track_old_username_sql`: append the old name, starting from [] when the value is NULL. */
    method FireTrackOldUsername(userId: Uuid, oldName: string)
      modifies this`stats
      ensures stats == TrackOldUsername(old(stats), userId, oldName)
    {
      if userId in stats {
        var names := if stats[userId].exUsernames.Some? then stats[userId].exUsernames.value else [];
        stats := stats[userId := stats[userId].(exUsernames := Some(names + [oldName]))];
      }
    }

    /** Reads the history back, completes it and writes it to the row there is, or to a new one. */
    method WriteFormerName(id: Uuid, oldName: string, fault: bool) returns (ok: bool)
      modifies this`stats
      ensures ok == !fault
      ensures stats == if ok then RecordFormerName(old(stats), id, oldName) else old(stats)
    {
      if fault {
        return false;
      }
      var hasStatsRow := id in stats;
      var names: seq<string> := [];
      if hasStatsRow && stats[id].exUsernames.Some? {
        names := stats[id].exUsernames.value;
      }
      if oldName !in names {
        names := names + [oldName];
      }
      if hasStatsRow {
        stats := stats[id := stats[id].(exUsernames := Some(names))];
      } else {
        stats := stats[id := Stats(0, Some(names))];
      }
      return true;
    }

    /** One transaction: the update with its trigger, then, when the name changes, the history is
        read back, completed and written. Any failure up to the commit undoes all of it. */
    method UpdateUserProfile(id: Uuid, update: ProfileUpdate, fault: UpdateFault) returns (r: Option<User>)
      modifies this`users, this`stats
      ensures var prevented := Prevents(fault, Renames(old(View()), id, update));
        && View() == Attempt(old(View()), UpdateProfile(id, update), prevented)
        && r == if !prevented && fault !in {CommitUnacknowledged, AtReread}
                   && Allowed(old(View()), UpdateProfile(id, update))
                then Some(users[id]) else None
      ensures r.Some? ==> id in users
    {
      hide RecordFormerName, TrackOldUsername;
      var currentUser := GetUserById(id, fault == AtLookup);
      if currentUser.None? || fault == AtBegin {
        return None;
      }
      var savedUsers, savedStats := users, stats;
      var current, updated := currentUser.value, Updated(currentUser.value, update);

      if fault == AtUpdate || exists other | other in users && other != id ::
          users[other].username == updated.username || users[other].email == updated.email {
        return None;
      }
      FireTrackOldUsername(id, current.username);
      users := users[id := updated];

      var recorded := true;
      if updated.username != current.username {
        recorded := WriteFormerName(id, current.username, fault == AtReadStats || fault == AtWriteStats);
      }
      if !recorded {
        users, stats := savedUsers, savedStats;
        return None;
      }

      if fault == AtCommit {
        users, stats := savedUsers, savedStats;
        return None;
      }
      if fault == CommitUnacknowledged {
        return None;
      }
      r := GetUserById(id, fault == AtReread);
    }
  }

  lemma LeaveNone(stats: StatsTable)
    ensures AllLeave(stats, {}) == stats
  {
    forall u | u in stats ensures |ChatsIn({}, u)| == 0 {
      assert ChatsIn({}, u) == {};
    }
  }

  lemma LeaveOneMore(stats: StatsTable, gone: set<Member>, m: Member)
    requires m !in gone
    ensures AllLeave(stats, gone + {m}) == ChatLeave(AllLeave(stats, gone), m.userId)
  {
    hide ChatsIn;
    forall u | u in stats ensures |ChatsIn(gone + {m}, u)| == |ChatsIn(gone, u)| + if u == m.userId then 1 else 0 {
      OneMoreRow(gone, m, u);
    }
  }

  lemma OneMoreRow(gone: set<Member>, m: Member, u: Uuid)
    requires m !in gone
    ensures |ChatsIn(gone + {m}, u)| == |ChatsIn(gone, u)| + if u == m.userId then 1 else 0
  {
    if u == m.userId {
      assert m.chatId !in ChatsIn(gone, u);
      assert ChatsIn(gone + {m}, u) == ChatsIn(gone, u) + {m.chatId};
    } else {
      assert ChatsIn(gone + {m}, u) == ChatsIn(gone, u);
    }
  }
}
