/** `client/src/ChatManager.cpp`: the client's chats, kept twice, in a hash by id and in a list. */
module ChatList {
  import opened Prelude

  /** One entry of a received chat list. */
  datatype ChatInfo = ChatInfo(id: Uuid, memberIds: seq<Uuid>)

  class Chat {
    const id: Uuid
    var otherMembers: set<Uuid>

    constructor (id: Uuid, otherMembers: set<Uuid>)
      ensures this.id == id && this.otherMembers == otherMembers
    {
      this.id, this.otherMembers := id, otherMembers;
    }

    method SetOtherMembers(members: set<Uuid>)
      modifies this
      ensures otherMembers == members
    {
      if otherMembers == members {
        return;
      }
      otherMembers := members;
    }
  }

  // ---------------------------------------------------------- what is meant

  function Ids(chats: seq<Chat>): (r: seq<Uuid>) {
    if chats == [] then [] else Ids(chats[..|chats| - 1]) + [chats[|chats| - 1].id]
  }

  function ReceivedIds(infos: seq<ChatInfo>): set<Uuid> {
    set i | 0 <= i < |infos| :: infos[i].id
  }

  /** The ids that were not there before, in order of first occurrence. */
  function FreshIds(infos: seq<ChatInfo>, known: set<Uuid>): (r: seq<Uuid>) {
    if infos == [] then []
    else
      var before, id := FreshIds(infos[..|infos| - 1], known), infos[|infos| - 1].id;
      if id in known || id in before then before else before + [id]
  }

  function SetOf(ids: seq<Uuid>): set<Uuid> {
    set id | id in ids
  }

  /** The members of a chat by the last entry that names it. */
  function LastMembers(infos: seq<ChatInfo>, id: Uuid): set<Uuid>
    requires id in ReceivedIds(infos)
  {
    var n := |infos| - 1;
    if infos[n].id == id then SetOf(infos[n].memberIds)
    else
      assert id in ReceivedIds(infos[..n]) by {
        var i :| 0 <= i < |infos| && infos[i].id == id;
        assert infos[..n][i].id == id;
      }
      LastMembers(infos[..n], id)
  }

  function Without(members: set<Uuid>, user: Option<Uuid>): set<Uuid> {
    if user.Some? then members - {user.value} else members
  }

  function HasIdIn(ids: set<Uuid>): Chat -> bool {
    (c: Chat) => c.id in ids
  }

  /** The chats with these ids, in the order they have. */
  function Surviving(chats: seq<Chat>, ids: set<Uuid>): seq<Chat> {
    Filter(chats, HasIdIn(ids))
  }

  /** The list and the hash hold the same chats: the list has no duplicates, every chat in it is
      stored under its id, and everything stored is in the list. */
  ghost predicate Agree(chats: seq<Chat>, storage: map<Uuid, Chat>) {
    && NoDuplicates(chats)
    && (forall c | c in chats :: c.id in storage && storage[c.id] == c)
    && (forall id | id in storage :: storage[id] in chats && storage[id].id == id)
  }

  // ------------------------------------------------------------ the manager

  class ChatManager {
    var chatStorage: map<Uuid, Chat>
    var chatList: seq<Chat>
    var selectedChat: Chat?

    ghost predicate Valid()
      reads this
    {
      Agree(chatList, chatStorage) && (selectedChat != null ==> selectedChat in chatList)
    }

    constructor ()
      ensures Valid() && chatList == [] && chatStorage == map[] && selectedChat == null
    {
      chatStorage, chatList, selectedChat := map[], [], null;
    }

    method SelectChat(id: Uuid)
      requires Valid()
      modifies this`selectedChat
      ensures Valid()
      ensures selectedChat == if id in chatStorage then chatStorage[id] else old(selectedChat)
    {
      if id !in chatStorage {
        return;
      }
      var chat := chatStorage[id];
      if selectedChat == chat {
        return;
      }
      selectedChat := chat;
    }

    method UnselectChat()
      requires Valid()
      modifies this`selectedChat
      ensures Valid() && selectedChat == null
    {
      if selectedChat == null {
        return;
      }
      selectedChat := null;
    }

    /** A chat whose id is already there is not added, and the one there is kept. */
    method AddChat(chat: Chat)
      requires Valid()
      modifies this`chatStorage, this`chatList
      ensures Valid()
      ensures chatList == if chat.id in old(chatStorage) then old(chatList) else old(chatList) + [chat]
      ensures chatStorage == if chat.id in old(chatStorage) then old(chatStorage) else old(chatStorage)[chat.id := chat]
    {
      if chat.id in chatStorage {
        return;
      }
      AddedAgrees(chatList, chatStorage, chat);
      hide Agree;
      chatStorage := chatStorage[chat.id := chat];
      chatList := chatList + [chat];
    }

    method RemoveChat(id: Uuid)
      requires Valid()
      modifies this
      ensures Valid()
      ensures chatStorage == old(chatStorage) - {id}
      ensures chatList == Surviving(old(chatList), old(chatStorage).Keys - {id})
      ensures selectedChat ==
        if old(selectedChat) != null && old(selectedChat).id == id then null else old(selectedChat)
    {
      RemovedAgrees(chatList, chatStorage, id);
      if id !in chatStorage {
        SurvivingAll(chatList, chatStorage.Keys - {id});
        return;
      }
      var chat := chatStorage[id];
      SurvivingWithout(chatList, chatStorage, chat);
      hide Surviving, Filter, Agree;
      chatStorage := chatStorage - {id};
      var wasSelected := selectedChat == chat;
      chatList := RemoveAll(chatList, chat);
      if wasSelected {
        selectedChat := null;
      }
    }

    /** `QList::removeAll`. */
    method RemoveAll(chats: seq<Chat>, chat: Chat) returns (kept: seq<Chat>)
      ensures kept == Filter(chats, c => c != chat)
    {
      kept := [];
      for i := 0 to |chats|
        invariant kept == Filter(chats[..i], c => c != chat)
      {
        assert chats[..i + 1] == chats[..i] + [chats[i]];
        FilterSnoc(chats[..i], chats[i], c => c != chat);
        if chats[i] != chat {
          kept := kept + [chats[i]];
        }
      }
      assert chats[..|chats|] == chats;
    }

    method ClearChatList()
      requires Valid()
      modifies this
      ensures Valid() && chatList == [] && chatStorage == map[] && selectedChat == null
    {
      RemoveUnless({});
      SurvivingNone(old(chatList));
      assert forall id :: id !in chatStorage;
    }

    /** Walks a copy of the list and removes every chat whose id is not in `ids`. */
    method RemoveUnless(ids: set<Uuid>)
      requires Valid()
      modifies this
      ensures Valid()
      ensures chatList == Surviving(old(chatList), ids)
      ensures selectedChat ==
        if old(selectedChat) != null && old(selectedChat).id in ids then old(selectedChat) else null
    {
      hide Surviving, HasIdIn;
      var currentChats := chatList;
      SurvivingAll(chatList, chatStorage.Keys);
      for i := 0 to |currentChats|
        invariant Valid()
        invariant forall id | id in chatStorage :: id in old(chatStorage)
        invariant forall j | 0 <= j < i :: currentChats[j].id in chatStorage <==> currentChats[j].id in ids
        invariant forall j | i <= j < |currentChats| :: currentChats[j].id in chatStorage
        invariant chatList == Surviving(currentChats, chatStorage.Keys)
        invariant selectedChat ==
          if old(selectedChat) != null && old(selectedChat).id in chatStorage then old(selectedChat) else null
      {
        var chat := currentChats[i];
        DistinctIds(currentChats, old(chatStorage), i);
        if chat.id !in ids {
          RemovedTwice(currentChats, chatStorage.Keys, chat.id);
          RemoveChat(chat.id);
          assert chatStorage.Keys == old(chatStorage).Keys * chatStorage.Keys;
        }
      }
      SameSurvivors(currentChats, chatStorage.Keys, ids);
    }

    /** One entry of a received list: the chat it names gets its members, or is added. */
    method Receive(info: ChatInfo, currentUser: Option<Uuid>)
      requires Valid()
      modifies this`chatStorage, this`chatList, chatList
      ensures Valid()
      ensures info.id in old(chatStorage) ==>
        && chatList == old(chatList) && chatStorage == old(chatStorage)
      ensures info.id !in old(chatStorage) ==>
        && |chatList| == |old(chatList)| + 1 && chatList[..|old(chatList)|] == old(chatList)
        && fresh(chatList[|old(chatList)|]) && chatList[|old(chatList)|].id == info.id
        && chatStorage == old(chatStorage)[info.id := chatList[|old(chatList)|]]
      ensures forall c | c in chatList ::
        c.otherMembers == if c.id == info.id then Without(SetOf(info.memberIds), currentUser) else old(c.otherMembers)
    {
      var memberIds := SetOf(info.memberIds);
      if currentUser.Some? {
        memberIds := memberIds - {currentUser.value};
      }
      if info.id in chatStorage {
        chatStorage[info.id].SetOtherMembers(memberIds);
      } else {
        var chat := new Chat(info.id, memberIds);
        AddChat(chat);
      }
    }

    method OnChatListReceived(infos: seq<ChatInfo>, currentUser: Option<Uuid>)
      requires Valid()
      modifies this, chatList
      ensures Valid()
      // Chats whose id was received stay, as the same objects and in the same order; then come the
      // new ones, in order of first occurrence.
      ensures var kept := Surviving(old(chatList), ReceivedIds(infos));
        && kept <= chatList
        && Ids(chatList[|kept|..]) == FreshIds(infos, old(chatStorage).Keys)
        && fresh(chatList[|kept|..])
      ensures forall c | c in chatList ::
        c.id in ReceivedIds(infos) && c.otherMembers == Without(LastMembers(infos, c.id), currentUser)
      ensures selectedChat ==
        if old(selectedChat) != null && old(selectedChat).id in ReceivedIds(infos) then old(selectedChat) else null
    {
      var selectedChatId := if selectedChat != null then selectedChat.id else NULL_UUID;
      ghost var added := AbsorbAll(infos, currentUser);
      var receivedChatIds := ReceivedIds(infos);
      SurvivingAdded(old(chatList), added, receivedChatIds);
      hide *;
      RemoveUnless(receivedChatIds);
      SurvivingMembers(old(chatList) + added, receivedChatIds);
      if selectedChatId != NULL_UUID && selectedChatId in chatStorage {
        SelectChat(selectedChatId);
      }
    }

    /** The loop over the received entries. */
    method AbsorbAll(infos: seq<ChatInfo>, currentUser: Option<Uuid>) returns (ghost added: seq<Chat>)
      requires Valid()
      modifies this`chatStorage, this`chatList, chatList
      ensures Valid()
      ensures chatList == old(chatList) + added && fresh(added)
      ensures Ids(added) == FreshIds(infos, old(chatStorage).Keys)
      ensures forall c | c in added :: c.id in ReceivedIds(infos)
      ensures forall c | c in chatList && c.id in ReceivedIds(infos) ::
        c.otherMembers == Without(LastMembers(infos, c.id), currentUser)
    {
      hide Agree, Ids, FreshIds, ReceivedIds, LastMembers, SetOf, Without;
      added := [];
      ghost var known := chatStorage.Keys;
      NothingReceived(known);
      for i := 0 to |infos|
        invariant Valid() && selectedChat == old(selectedChat)
        invariant chatList == old(chatList) + added && fresh(added)
        invariant forall id :: id in chatStorage <==> id in known || id in FreshIds(infos[..i], known)
        invariant Ids(added) == FreshIds(infos[..i], known)
        invariant forall c | c in added :: c.id in ReceivedIds(infos[..i])
        invariant forall c | c in chatList && c.id in ReceivedIds(infos[..i]) ::
          c.otherMembers == Without(LastMembers(infos[..i], c.id), currentUser)
      {
        ReceivedSnoc(infos[..i], infos[i], known);
        assert infos[..i + 1] == infos[..i] + [infos[i]];
        Receive(infos[i], currentUser);
        if |chatList| > |old(chatList)| + |added| {
          var chat := chatList[|chatList| - 1];
          IdsSnoc(added, chat);
          added := added + [chat];
        }
      }
      assert infos[..|infos|] == infos;
    }
  }

  lemma NothingReceived(known: set<Uuid>)
    ensures Ids([]) == [] == FreshIds([], known) && ReceivedIds([]) == {}
  {
  }

  lemma IdsSnoc(chats: seq<Chat>, chat: Chat)
    ensures Ids(chats + [chat]) == Ids(chats) + [chat.id]
  {
    assert (chats + [chat])[..|chats|] == chats;
  }

  lemma ReceivedSnoc(infos: seq<ChatInfo>, info: ChatInfo, known: set<Uuid>)
    ensures ReceivedIds(infos + [info]) == ReceivedIds(infos) + {info.id}
    ensures FreshIds(infos + [info], known)
         == if info.id in known || info.id in FreshIds(infos, known) then FreshIds(infos, known)
            else FreshIds(infos, known) + [info.id]
    ensures forall id | id in ReceivedIds(infos + [info]) ::
      LastMembers(infos + [info], id) == if id == info.id then SetOf(info.memberIds) else LastMembers(infos, id)
  {
    var more := infos + [info];
    assert more[..|infos|] == infos;
    forall id ensures id in ReceivedIds(more) <==> id in ReceivedIds(infos) || id == info.id {
      if id in ReceivedIds(infos) {
        var i :| 0 <= i < |infos| && infos[i].id == id;
        assert more[i].id == id;
      }
      assert more[|infos|].id == info.id;
    }
  }

  lemma SurvivingMembers(chats: seq<Chat>, ids: set<Uuid>)
    ensures forall c :: c in Surviving(chats, ids) <==> c in chats && c.id in ids
  {
    forall c | c in chats && c.id in ids ensures c in Surviving(chats, ids) {
      var i :| 0 <= i < |chats| && chats[i] == c;
      assert HasIdIn(ids)(chats[i]);
    }
  }

  lemma SurvivingAll(chats: seq<Chat>, ids: set<Uuid>)
    requires forall c | c in chats :: c.id in ids
    ensures Surviving(chats, ids) == chats
  {
    FilterAll(chats, HasIdIn(ids));
  }

  lemma {:induction false} SurvivingNone(chats: seq<Chat>)
    ensures Surviving(chats, {}) == []
  {
    if chats == [] {
    } else {
      SurvivingNone(chats[..|chats| - 1]);
    }
  }

  lemma SurvivingWithout(chats: seq<Chat>, storage: map<Uuid, Chat>, chat: Chat)
    requires forall c | c in chats :: c.id in storage && storage[c.id] == c
    requires chat.id in storage && storage[chat.id] == chat
    ensures Filter(chats, c => c != chat) == Surviving(chats, storage.Keys - {chat.id})
  {
    FilterSame(chats, c => c != chat, HasIdIn(storage.Keys - {chat.id}));
  }

  lemma SameSurvivors(chats: seq<Chat>, a: set<Uuid>, b: set<Uuid>)
    requires forall c | c in chats :: c.id in a <==> c.id in b
    ensures Surviving(chats, a) == Surviving(chats, b)
  {
    FilterSame(chats, HasIdIn(a), HasIdIn(b));
  }

  lemma RemovedTwice(chats: seq<Chat>, ids: set<Uuid>, id: Uuid)
    ensures Surviving(Surviving(chats, ids), ids - {id}) == Surviving(chats, ids - {id})
  {
    FilterTwice(chats, HasIdIn(ids), HasIdIn(ids - {id}));
  }

  lemma SurvivingAdded(chats: seq<Chat>, added: seq<Chat>, ids: set<Uuid>)
    requires forall c | c in added :: c.id in ids
    ensures Surviving(chats + added, ids) == Surviving(chats, ids) + added
  {
    FilterConcat(chats, added, HasIdIn(ids));
    FilterAll(added, HasIdIn(ids));
  }

  /** Chats stored under their own ids have different ids. */
  lemma DistinctIds(chats: seq<Chat>, storage: map<Uuid, Chat>, i: nat)
    requires NoDuplicates(chats) && i < |chats|
    requires forall c | c in chats :: c.id in storage && storage[c.id] == c
    ensures forall j | 0 <= j < |chats| && j != i :: chats[j].id != chats[i].id
  {
    forall j | 0 <= j < |chats| && j != i ensures chats[j].id != chats[i].id {
      assert chats[j] in chats && chats[i] in chats;
    }
  }

  lemma AddedAgrees(chats: seq<Chat>, storage: map<Uuid, Chat>, chat: Chat)
    requires Agree(chats, storage) && chat.id !in storage
    ensures Agree(chats + [chat], storage[chat.id := chat])
  {
  }

  lemma RemovedAgrees(chats: seq<Chat>, storage: map<Uuid, Chat>, id: Uuid)
    requires Agree(chats, storage)
    ensures Agree(Surviving(chats, storage.Keys - {id}), storage - {id})
    ensures forall c | c in chats :: c.id in storage
    ensures forall c | c in chats && c.id != id :: c in Surviving(chats, storage.Keys - {id})
    ensures id in storage ==> storage[id].id == id && forall c | c in chats && c.id == id :: c == storage[id]
  {
    FilterNoDuplicates(chats, HasIdIn(storage.Keys - {id}));
    SurvivingMembers(chats, storage.Keys - {id});
  }


  // ------------------------------------------------- what the received entries say

  /** The new ids are those received and not known before, each once; one stands before another exactly
      when it was named first. */
  lemma {:induction false} FreshIdsMeaning(infos: seq<ChatInfo>, known: set<Uuid>)
    ensures forall id :: id in FreshIds(infos, known) <==> id !in known && id in ReceivedIds(infos)
    ensures NoDuplicates(FreshIds(infos, known))
    ensures forall a, b | 0 <= a < b < |FreshIds(infos, known)| ::
      NamedBefore(infos, FreshIds(infos, known)[a], FreshIds(infos, known)[b])
  {
    if infos == [] {
    } else {
      var before, info := infos[..|infos| - 1], infos[|infos| - 1];
      SplitLast(infos);
      FreshIdsMeaning(before, known);
      ReceivedSnoc(before, info, known);
      hide FreshIds, ReceivedIds;
      var ids, more := FreshIds(before, known), FreshIds(infos, known);
      forall a, b | 0 <= a < b < |more| ensures NamedBefore(infos, more[a], more[b]) {
        if b < |ids| {
          NamedEarlier(before, info, ids[a], ids[b]);
        } else {
          assert ids[a] in ids;
          NamedLast(before, info, ids[a]);
        }
      }
    }
  }

  /** The first entry to name `x` comes before any entry that names `y`. */
  ghost predicate NamedBefore(infos: seq<ChatInfo>, x: Uuid, y: Uuid) {
    exists i :: 0 <= i < |infos| && infos[i].id == x && forall j | 0 <= j <= i :: infos[j].id != y
  }

  lemma NamedEarlier(before: seq<ChatInfo>, info: ChatInfo, x: Uuid, y: Uuid)
    requires NamedBefore(before, x, y)
    ensures NamedBefore(before + [info], x, y)
  {
    var i :| 0 <= i < |before| && before[i].id == x && forall j | 0 <= j <= i :: before[j].id != y;
    assert (before + [info])[i].id == x;
  }

  lemma NamedLast(before: seq<ChatInfo>, info: ChatInfo, x: Uuid)
    requires x in ReceivedIds(before) && info.id !in ReceivedIds(before)
    ensures NamedBefore(before + [info], x, info.id)
  {
    var i :| 0 <= i < |before| && before[i].id == x;
    assert (before + [info])[i].id == x;
    forall j | 0 <= j <= i ensures (before + [info])[j].id != info.id {
      assert before[j].id in ReceivedIds(before);
    }
  }

  /** The members of a chat are those of the last entry that names it. */
  lemma {:induction false} LastMembersMeaning(infos: seq<ChatInfo>, id: Uuid, i: nat)
    requires i < |infos| && infos[i].id == id && forall j | i < j < |infos| :: infos[j].id != id
    ensures id in ReceivedIds(infos)
    ensures forall u :: u in LastMembers(infos, id) <==> u in infos[i].memberIds
  {
    var n := |infos| - 1;
    if i == n {
    } else {
      LastMembersMeaning(infos[..n], id, i);
      assert infos[n].id != id;
    }
  }

  /** What is displayed of them: everyone but the current user. */
  lemma WithoutMeaning(members: set<Uuid>, user: Option<Uuid>)
    ensures forall u :: u in Without(members, user) <==> u in members && user != Some(u)
  {
  }
}
