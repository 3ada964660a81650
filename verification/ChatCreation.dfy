/** Creating a chat as `Server::handleCreateChat` does it: one row in chats, then one row per
    member, without a transaction; the first member that fails makes the server delete the chat. */
module ChatCreation {
  import opened Prelude
  import opened Tables

  /** The hash order of a QSet or QHash, whatever it is. */
  type HashOrder = set<Uuid> -> seq<Uuid>

  ghost predicate Orderly(order: HashOrder) {
    forall s: set<Uuid> :: Enumerates(order(s), s)
  }

  /** The failures one creation may meet. */
  datatype Faults = Faults(lookups: set<Uuid>, chat: bool, members: set<Uuid>, delete: bool)

  datatype Verdict = TooFew | ChatRefused | MemberRefused | Created

  datatype Creation = Creation(tables: Tables, verdict: Verdict)

  /** The creator and every requested user who is found. */
  function Chosen(t: Tables, creator: Uuid, requested: seq<Uuid>, lookupFaults: set<Uuid>): set<Uuid> {
    {creator} + set u | u in requested && u != NULL_UUID && u in t.users && u !in lookupFaults
  }

  function KindFor(count: nat): ChatKind {
    if count > 2 then Group else Direct
  }

  /** How many of the members are inserted before one fails. */
  function Inserted(t: Tables, chatId: Uuid, order: seq<Uuid>, failing: set<Uuid>): (n: nat)
    ensures n <= |order|
  {
    if order == [] then 0
    else
      var before := order[..|order| - 1];
      var n := Inserted(t, chatId, before, failing);
      var m := Member(chatId, order[|order| - 1]);
      if n < |before| || m.userId in failing || !Allowed(AddMembers(t, chatId, before), CreateMember(m))
      then n else n + 1
  }

  /** The tables after inserting these members one after another. */
  function AddMembers(t: Tables, chatId: Uuid, users: seq<Uuid>): Tables {
    if users == [] then t
    else
      Attempt(AddMembers(t, chatId, users[..|users| - 1]),
              CreateMember(Member(chatId, users[|users| - 1])), false)
  }

  function Create(
    t: Tables, id: Uuid, creator: Uuid, requested: seq<Uuid>, order: HashOrder, faults: Faults): Creation
  {
    var chosen := Chosen(t, creator, requested, faults.lookups);
    var addChat := CreateChat(id, Chat(KindFor(|chosen|), Some(creator)));
    if |chosen| < 2 then Creation(t, TooFew)
    else if faults.chat || !Allowed(t, addChat) then Creation(t, ChatRefused)
    else
      var t1 := Apply(t, addChat);
      var users := order(chosen);
      var n := Inserted(t1, id, users, faults.members);
      var t2 := AddMembers(t1, id, users[..n]);
      if n < |users| then Creation(Attempt(t2, DeleteChat(id), faults.delete), MemberRefused)
      else Creation(t2, Created)
  }

  /** Once a member is refused, the later ones are not tried. */
  lemma {:induction false} InsertedStops(t: Tables, chatId: Uuid, order: seq<Uuid>, failing: set<Uuid>, i: nat)
    requires i < |order|
    ensures Inserted(t, chatId, order[..i + 1], failing) == i ==> Inserted(t, chatId, order, failing) == i
    decreases |order|
  {
    if i + 1 < |order| {
      var before := order[..|order| - 1];
      assert before[..i + 1] == order[..i + 1];
      InsertedStops(t, chatId, before, failing, i);
    } else {
      assert order[..i + 1] == order;
    }
  }

  // ---------------------------------------------------------- all or nothing

  function Rows(chatId: Uuid, users: seq<Uuid>): set<Member> {
    set u | u in users :: Member(chatId, u)
  }

  /** What inserting the first members changes, when each insertion was allowed. */
  lemma {:induction false} AddMembersEffect(t: Tables, chatId: Uuid, order: seq<Uuid>, failing: set<Uuid>, n: nat)
    requires Counted(t) && Referential(t)
    requires n <= Inserted(t, chatId, order, failing)
    ensures var t' := AddMembers(t, chatId, order[..n]);
      && t'.users == t.users && t'.chats == t.chats
      && t'.members == t.members + Rows(chatId, order[..n])
      && Counted(t') && Referential(t')
      && forall u :: NamesOf(t'.stats, u) == NamesOf(t.stats, u)
    decreases |order|
  {
    if n == 0 {
      assert Rows(chatId, order[..0]) == {};
    } else if n < |order| {
      hide *;
      var before := order[..|order| - 1];
      assert before[..n] == order[..n];
      InsertedBefore(t, chatId, order, failing, n);
      AddMembersEffect(t, chatId, before, failing, n);
    } else {
      var before, last := order[..n - 1], order[n - 1];
      assert order[..n] == order && before[..n - 1] == before && order == before + [last];
      InsertedAll(t, chatId, before, last, failing);
      hide *;
      AddMembersEffect(t, chatId, before, failing, n - 1);
      AddMembersSnoc(t, chatId, before, last);
      OneMoreMember(AddMembers(t, chatId, before), Member(chatId, last));
      RowsSnoc(chatId, before, last);
      assert t.members + Rows(chatId, before) + {Member(chatId, last)} == t.members + Rows(chatId, order);
    }
  }

  /** A prefix that goes in also goes in when the last user is not tried. */
  lemma InsertedBefore(t: Tables, chatId: Uuid, order: seq<Uuid>, failing: set<Uuid>, n: nat)
    requires n < |order| && n <= Inserted(t, chatId, order, failing)
    ensures n <= Inserted(t, chatId, order[..|order| - 1], failing)
  {
  }

  lemma RowsSnoc(chatId: Uuid, before: seq<Uuid>, last: Uuid)
    ensures Rows(chatId, before + [last]) == Rows(chatId, before) + {Member(chatId, last)}
  {
  }

  lemma InsertedAll(t: Tables, chatId: Uuid, before: seq<Uuid>, last: Uuid, failing: set<Uuid>)
    requires Inserted(t, chatId, before + [last], failing) == |before| + 1
    ensures Inserted(t, chatId, before, failing) == |before|
    ensures Allowed(AddMembers(t, chatId, before), CreateMember(Member(chatId, last)))
  {
    assert (before + [last])[..|before|] == before;
  }

  lemma AddMembersSnoc(t: Tables, chatId: Uuid, users: seq<Uuid>, u: Uuid)
    ensures AddMembers(t, chatId, users + [u])
         == Attempt(AddMembers(t, chatId, users), CreateMember(Member(chatId, u)), false)
  {
    assert (users + [u])[..|users|] == users;
  }

  lemma OneMoreMember(t: Tables, m: Member)
    requires Counted(t) && Referential(t) && Allowed(t, CreateMember(m))
    ensures var t' := Attempt(t, CreateMember(m), false);
      && t'.users == t.users && t'.chats == t.chats && t'.members == t.members + {m}
      && Counted(t') && Referential(t')
      && forall u :: NamesOf(t'.stats, u) == NamesOf(t.stats, u)
  {
    StatementKeepsCounts(t, CreateMember(m), false);
  }

  // ----------------------------------------------------------- which outcome

  /** The chat row can be written: enough members, no failure, a new id and an existing creator. */
  predicate ChatGoesIn(t: Tables, id: Uuid, creator: Uuid, requested: seq<Uuid>, faults: Faults) {
    && 2 <= |Chosen(t, creator, requested, faults.lookups)| && !faults.chat
    && id !in t.chats && creator in t.users
  }

  /** With a new chat and existing users, only a failure refuses a member: all go in up to the first
      that fails. */
  lemma {:induction false} InsertedUpToFault(t: Tables, id: Uuid, order: seq<Uuid>, failing: set<Uuid>)
    requires Counted(t) && Referential(t) && id in t.chats && NoDuplicates(order)
    requires forall u | u in order :: u in t.users && Member(id, u) !in t.members
    ensures forall j | 0 <= j < Inserted(t, id, order, failing) :: order[j] !in failing
    ensures Inserted(t, id, order, failing) < |order| ==> order[Inserted(t, id, order, failing)] in failing
  {
    if order == [] {
    } else {
      var before, last := order[..|order| - 1], order[|order| - 1];
      SplitLast(order);
      InsertedUpToFault(t, id, before, failing);
      if Inserted(t, id, before, failing) == |before| {
        AddMembersEffect(t, id, before, failing, |before|);
        assert before[..|before|] == before;
        hide Inserted, AddMembers, Counted;
        assert Member(id, last) !in AddMembers(t, id, before).members;
      }
    }
  }

  /** Which outcome a creation has, told from its inputs. */
  lemma VerdictIff(t: Tables, id: Uuid, creator: Uuid, requested: seq<Uuid>, order: HashOrder, faults: Faults)
    requires Counted(t) && Referential(t) && Orderly(order)
    ensures var verdict := Create(t, id, creator, requested, order, faults).verdict;
      var chosen := Chosen(t, creator, requested, faults.lookups);
      && (verdict == TooFew <==> |chosen| < 2)
      && (verdict == ChatRefused <==> 2 <= |chosen| && !ChatGoesIn(t, id, creator, requested, faults))
      && (verdict == MemberRefused <==>
            ChatGoesIn(t, id, creator, requested, faults) && chosen * faults.members != {})
      && (verdict == Created <==> ChatGoesIn(t, id, creator, requested, faults) && chosen * faults.members == {})
  {
    if ChatGoesIn(t, id, creator, requested, faults) {
      var users := order(Chosen(t, creator, requested, faults.lookups));
      var n := InsertionStops(t, id, creator, requested, order, faults);
      if n < |users| {
        assert users[n] in Chosen(t, creator, requested, faults.lookups) * faults.members;
      }
    }
  }

  /** The point at which the insertions of a creation stop: the first user in hash order that fails. */
  lemma InsertionStops(t: Tables, id: Uuid, creator: Uuid, requested: seq<Uuid>, order: HashOrder, faults: Faults)
    returns (n: nat)
    requires Counted(t) && Referential(t) && Orderly(order) && ChatGoesIn(t, id, creator, requested, faults)
    ensures var chosen := Chosen(t, creator, requested, faults.lookups);
      var users, chat := order(chosen), Chat(KindFor(|chosen|), Some(creator));
      var t1 := Apply(t, CreateChat(id, chat));
      && n == Inserted(t1, id, users, faults.members) <= |users| == |chosen|
      && Enumerates(users, chosen)
      && (forall j | 0 <= j < n :: users[j] !in faults.members)
      && (n < |users| ==> users[n] in faults.members)
      && Counted(t1) && Referential(t1)
  {
    var chosen := Chosen(t, creator, requested, faults.lookups);
    var users, chat := order(chosen), Chat(KindFor(|chosen|), Some(creator));
    var t1 := Apply(t, CreateChat(id, chat));
    StatementKeepsCounts(t, CreateChat(id, chat), false);
    assert Enumerates(users, chosen);
    EnumerationLength(users, chosen);
    InsertedUpToFault(t1, id, users, faults.members);
    n := Inserted(t1, id, users, faults.members);
  }

  /** Nothing a client can observe differs: the same users, chats and members, and the same
      counters and former names, where an absent statistics row counts as zero and none. */
  ghost predicate SameObservations(t: Tables, t': Tables) {
    && t'.users == t.users && t'.chats == t.chats && t'.members == t.members
    && (forall u: Uuid :: Joined(t', u) == Joined(t, u))
    && (forall u: Uuid :: NamesOf(t'.stats, u) == NamesOf(t.stats, u))
  }

  /** Deleting a chat that was not there before takes exactly the new rows away again. */
  lemma DeleteUndoes(t: Tables, t2: Tables, id: Uuid, chat: Chat, users: seq<Uuid>)
    requires Counted(t) && Referential(t) && id !in t.chats
    requires t2.users == t.users && t2.chats == t.chats[id := chat]
    requires t2.members == t.members + Rows(id, users)
    requires Counted(t2) && Referential(t2)
    requires forall u: Uuid :: NamesOf(t2.stats, u) == NamesOf(t.stats, u)
    ensures SameObservations(t, Attempt(t2, DeleteChat(id), false))
    ensures Counted(Attempt(t2, DeleteChat(id), false)) && Referential(Attempt(t2, DeleteChat(id), false))
  {
    var t3 := Attempt(t2, DeleteChat(id), false);
    StatementKeepsCounts(t2, DeleteChat(id), false);
    assert t3.chats == t.chats;
    assert RowsOfChat(t2, id) == Rows(id, users);
    assert t3.members == t.members;
    forall u: Uuid ensures Joined(t3, u) == Joined(t, u) {
      assert Joined(t3, u) == |ChatsIn(t3.members, u)|;
      assert Joined(t, u) == |ChatsIn(t.members, u)|;
    }
  }

  /** One new chat with exactly these members; every other row and every recorded name is as before. */
  ghost predicate GainsChat(t: Tables, t': Tables, id: Uuid, chat: Chat, users: set<Uuid>) {
    && id !in t.chats
    && t'.users == t.users && t'.chats == t.chats[id := chat]
    && t'.members == t.members + (set u | u in users :: Member(id, u))
    && forall u :: NamesOf(t'.stats, u) == NamesOf(t.stats, u)
  }

  /** The users ahead of the first one that fails. */
  ghost function BeforeFault(users: seq<Uuid>, failing: set<Uuid>): set<Uuid> {
    set j | 0 <= j < |users| && users[j] !in failing && (forall i | 0 <= i < j :: users[i] !in failing) :: users[j]
  }

  lemma BeforeFaultIsPrefix(users: seq<Uuid>, failing: set<Uuid>, n: nat)
    requires n <= |users| && NoDuplicates(users)
    requires forall j | 0 <= j < n :: users[j] !in failing
    requires n < |users| ==> users[n] in failing
    ensures forall u :: u in BeforeFault(users, failing) <==> u in users[..n]
    ensures |BeforeFault(users, failing)| == n
  {
    assert forall j | 0 <= j < n :: users[j] in BeforeFault(users, failing);
    EnumerationLength(users[..n], BeforeFault(users, failing));
  }

  /** The tables when the insertions stop: the new chat with everyone ahead of the failure. */
  lemma InsertionsGain(t: Tables, id: Uuid, creator: Uuid, requested: seq<Uuid>, order: HashOrder, faults: Faults)
    returns (n: nat)
    requires Counted(t) && Referential(t) && Orderly(order) && ChatGoesIn(t, id, creator, requested, faults)
    ensures var chosen := Chosen(t, creator, requested, faults.lookups);
      var users, chat := order(chosen), Chat(KindFor(|chosen|), Some(creator));
      var t1 := Apply(t, CreateChat(id, chat));
      && n == Inserted(t1, id, users, faults.members) <= |users|
      && var t2 := AddMembers(t1, id, users[..n]);
      && GainsChat(t, t2, id, chat, BeforeFault(users, faults.members))
      && t2.members == t.members + Rows(id, users[..n])
      && Counted(t2) && Referential(t2)
      && (n == |users| ==> BeforeFault(users, faults.members) == chosen)
      && (n == |users| <==> chosen * faults.members == {})
  {
    var chosen := Chosen(t, creator, requested, faults.lookups);
    var users, t1 := order(chosen), Apply(t, CreateChat(id, Chat(KindFor(|chosen|), Some(creator))));
    n := InsertionStops(t, id, creator, requested, order, faults);
    hide Chosen, Counted, Referential, BeforeFault;
    AddMembersEffect(t1, id, users, faults.members, n);
    BeforeFaultIsPrefix(users, faults.members, n);
    assert Rows(id, users[..n]) == set u | u in BeforeFault(users, faults.members) :: Member(id, u);
    assert users[..|users|] == users;
    if n < |users| {
      assert users[n] in chosen * faults.members;
    }
  }

  /** Whatever fails and in whatever order the members are tried: the tables gain one chat with all
      the chosen members, or nothing observable changes - unless a member fails and so does the
      compensating delete, and then the chat stays with the members ahead of the failure. */
  lemma AllOrNothing(
    t: Tables, id: Uuid, creator: Uuid, requested: seq<Uuid>, order: HashOrder, faults: Faults)
    requires Counted(t) && Referential(t) && Orderly(order)
    ensures var t' := Create(t, id, creator, requested, order, faults).tables;
      var chosen := Chosen(t, creator, requested, faults.lookups);
      var chat := Chat(KindFor(|chosen|), Some(creator));
      && Counted(t') && Referential(t')
      && (if !ChatGoesIn(t, id, creator, requested, faults) then SameObservations(t, t')
          else if chosen * faults.members == {} then GainsChat(t, t', id, chat, chosen)
          else if faults.delete then GainsChat(t, t', id, chat, BeforeFault(order(chosen), faults.members))
          else SameObservations(t, t'))
  {
    if ChatGoesIn(t, id, creator, requested, faults) {
      var chosen := Chosen(t, creator, requested, faults.lookups);
      var users, chat := order(chosen), Chat(KindFor(|chosen|), Some(creator));
      var n := InsertionsGain(t, id, creator, requested, order, faults);
      hide Chosen, Counted, Referential, BeforeFault, Inserted, AddMembers, SameObservations;
      var t2 := AddMembers(Apply(t, CreateChat(id, chat)), id, users[..n]);
      if n < |users| {
        DeleteUndoes(t, t2, id, chat, users[..n]);
      } else {
        assert users[..n] == users;
      }
    }
  }

  /** The new chat's members are exactly those it was gained with; no other chat's members change. */
  lemma GainedMembers(t: Tables, t': Tables, id: Uuid, chat: Chat, users: set<Uuid>)
    requires Referential(t) && GainsChat(t, t', id, chat, users)
    ensures UsersIn(t'.members, id) == users
    ensures forall c | c in t.chats :: UsersIn(t'.members, c) == UsersIn(t.members, c)
  {
    forall u: Uuid ensures u in UsersIn(t'.members, id) <==> u in users {
      assert u in UsersIn(t'.members, id) <==> Member(id, u) in t'.members;
    }
    forall c, u: Uuid | c in t.chats ensures u in UsersIn(t'.members, c) <==> u in UsersIn(t.members, c) {
      assert u in UsersIn(t'.members, c) <==> Member(c, u) in t'.members;
      assert u in UsersIn(t.members, c) <==> Member(c, u) in t.members;
    }
  }

  /** The members of a created chat are exactly the chosen users: the creator and everyone
      requested who exists, when no lookup failed. */
  lemma CreatedMembers(
    t: Tables, id: Uuid, creator: Uuid, requested: seq<Uuid>, order: HashOrder, faults: Faults)
    requires Counted(t) && Referential(t) && Orderly(order)
    requires Create(t, id, creator, requested, order, faults).verdict == Created
    ensures UsersIn(Create(t, id, creator, requested, order, faults).tables.members, id)
         == Chosen(t, creator, requested, faults.lookups)
    ensures forall c | c in t.chats ::
      UsersIn(Create(t, id, creator, requested, order, faults).tables.members, c) == UsersIn(t.members, c)
  {
    VerdictIff(t, id, creator, requested, order, faults);
    AllOrNothing(t, id, creator, requested, order, faults);
    var chosen := Chosen(t, creator, requested, faults.lookups);
    hide Create, Chosen;
    GainedMembers(t, Create(t, id, creator, requested, order, faults).tables, id,
                  Chat(KindFor(|chosen|), Some(creator)), chosen);
  }

  // ------------------------------------------------------------- chat sizes

  /** A direct chat has exactly two members, a group at least three. */
  ghost predicate Sized(t: Tables, c: Uuid)
    requires c in t.chats
  {
    if t.chats[c].kind == Direct then |UsersIn(t.members, c)| == 2 else 3 <= |UsersIn(t.members, c)|
  }

  ghost predicate WellSized(t: Tables) {
    forall c | c in t.chats :: Sized(t, c)
  }

  /** The chat goes in, one of the first three members to be tried fails, and so does the
      compensating delete. */
  ghost predicate Stranded(
    t: Tables, id: Uuid, creator: Uuid, requested: seq<Uuid>, order: HashOrder, faults: Faults)
  {
    var users := order(Chosen(t, creator, requested, faults.lookups));
    && ChatGoesIn(t, id, creator, requested, faults) && faults.delete
    && exists j :: 0 <= j < 3 && j < |users| && users[j] in faults.members
  }

  /** Every chat that was there before stays, with its kind and its members. */
  ghost predicate ChatsKept(t: Tables, t': Tables) {
    forall c | c in t.chats ::
      c in t'.chats && t'.chats[c].kind == t.chats[c].kind && UsersIn(t'.members, c) == UsersIn(t.members, c)
  }

  /** Chats that are kept keep their sizes, right or wrong. */
  lemma KeptSizes(t: Tables, t': Tables)
    requires ChatsKept(t, t')
    ensures forall c | c in t.chats :: Sized(t', c) <==> Sized(t, c)
  {
  }

  lemma CreationKeepsChats(
    t: Tables, id: Uuid, creator: Uuid, requested: seq<Uuid>, order: HashOrder, faults: Faults)
    requires Counted(t) && Referential(t) && Orderly(order)
    ensures ChatsKept(t, Create(t, id, creator, requested, order, faults).tables)
  {
    var t' := Create(t, id, creator, requested, order, faults).tables;
    var chosen := Chosen(t, creator, requested, faults.lookups);
    var chat := Chat(KindFor(|chosen|), Some(creator));
    AllOrNothing(t, id, creator, requested, order, faults);
    hide Create, Chosen, BeforeFault;
    if GainsChat(t, t', id, chat, chosen) {
      GainedMembers(t, t', id, chat, chosen);
    } else if GainsChat(t, t', id, chat, BeforeFault(order(chosen), faults.members)) {
      GainedMembers(t, t', id, chat, BeforeFault(order(chosen), faults.members));
    }
  }

  /** The chat a creation adds, if it adds one, has the right size exactly when it is not stranded. */
  lemma NewChatSizedIff(
    t: Tables, id: Uuid, creator: Uuid, requested: seq<Uuid>, order: HashOrder, faults: Faults)
    requires Counted(t) && Referential(t) && Orderly(order)
    ensures var t' := Create(t, id, creator, requested, order, faults).tables;
      && (forall c | c in t'.chats :: c in t.chats || c == id)
      && ((id !in t.chats && id in t'.chats && !Sized(t', id))
          <==> Stranded(t, id, creator, requested, order, faults))
  {
    AllOrNothing(t, id, creator, requested, order, faults);
    if ChatGoesIn(t, id, creator, requested, faults) {
      var t' := Create(t, id, creator, requested, order, faults).tables;
      var chosen := Chosen(t, creator, requested, faults.lookups);
      var users, chat := order(chosen), Chat(KindFor(|chosen|), Some(creator));
      var n := InsertionStops(t, id, creator, requested, order, faults);
      BeforeFaultIsPrefix(users, faults.members, n);
      hide Create, Chosen, BeforeFault, Inserted, Apply;
      if chosen * faults.members == {} {
        GainedMembers(t, t', id, chat, chosen);
      } else if faults.delete {
        GainedMembers(t, t', id, chat, BeforeFault(users, faults.members));
      }
    }
  }

  /** A creation keeps all sizes exactly when it strands no chat, whatever the number of members. */
  lemma SizesKeptIff(
    t: Tables, id: Uuid, creator: Uuid, requested: seq<Uuid>, order: HashOrder, faults: Faults)
    requires Counted(t) && Referential(t) && Orderly(order) && WellSized(t)
    ensures WellSized(Create(t, id, creator, requested, order, faults).tables)
       <==> !Stranded(t, id, creator, requested, order, faults)
  {
    hide Create, Stranded;
    NewChatSizedIff(t, id, creator, requested, order, faults);
    CreationKeepsChats(t, id, creator, requested, order, faults);
    KeptSizes(t, Create(t, id, creator, requested, order, faults).tables);
  }

  /** It does happen: two users, the second one's row is refused, and the delete fails. */
  lemma StrandedChat(creator: Uuid, other: Uuid, id: Uuid, first: User, second: User, order: HashOrder)
    requires creator != other && other != NULL_UUID && Orderly(order)
    ensures var t := Tables(map[creator := first, other := second], map[], {}, map[]);
      var r := Create(t, id, creator, [other], order, Faults({}, false, {other}, true));
      WellSized(t) && r.verdict == MemberRefused && !WellSized(r.tables)
  {
    var t, faults := Tables(map[creator := first, other := second], map[], {}, map[]), Faults({}, false, {other}, true);
    forall u: Uuid ensures Joined(t, u) == |ChatsIn(t.members, u)| {
      assert ChatsIn(t.members, u) == {};
    }
    var chosen := Chosen(t, creator, [other], faults.lookups);
    assert chosen == {creator, other};
    assert Enumerates(order(chosen), chosen);
    hide Create, WellSized, Counted, Chosen;
    VerdictIff(t, id, creator, [other], order, faults);
    SizesKeptIff(t, id, creator, [other], order, faults);
    EnumerationLength(order(chosen), chosen);
    var j :| 0 <= j < 2 && order(chosen)[j] == other;
    assert WellSized(t) by {
      NoChats(t);
    }
  }

  lemma NoChats(t: Tables)
    requires t.chats == map[]
    ensures WellSized(t)
  {
  }
}
