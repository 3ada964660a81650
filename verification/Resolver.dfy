/** `client/src/UserResolver.cpp`: the cache of public user information, its index by username,
    and the requests that are still unanswered. */
module Resolver {
  import opened Prelude
  import opened History

  datatype UserInfo = UserInfo(userId: Uuid, username: string, displayName: string)

  /** A default-constructed PublicUserInfo, which `QHash::value` returns for a missing key. */
  const NO_INFO := UserInfo(NULL_UUID, "", "")

  datatype State = State(
    cache: map<Uuid, UserInfo>, usernames: map<string, Uuid>, pendingIds: set<Uuid>, pendingNames: set<string>)

  const INITIAL := State(map[], map[], {}, {})

  datatype Event =
    | ResolveId(userId: Uuid, connected: bool)
    | ResolveName(username: string, connected: bool)
    | InvalidateId(userId: Uuid)
    | InvalidateName(username: string)
    | ClearCache
    | InfoReceived(info: UserInfo)
    | ResultReceived(isError: bool)
    | ConnectionStatus(connected: bool)

  /** What a request asks for. */
  datatype Key = ById(userId: Uuid) | ByName(username: string)

  type Normalizer = string -> string

  predicate Pending(r: State, key: Key) {
    match key
    case ById(id) => id in r.pendingIds
    case ByName(name) => name in r.pendingNames
  }

  /** The request an event sends, if any. */
  function Asks(norm: Normalizer, r: State, e: Event): Option<Key> {
    match e
    case ResolveId(id, connected) =>
      if id != NULL_UUID && id !in r.cache && id !in r.pendingIds && connected then Some(ById(id)) else None
    case ResolveName(username, connected) =>
      var name := norm(username);
      if name != "" && name !in r.usernames && name !in r.pendingNames && connected then Some(ByName(name)) else None
    case _ => None
  }

  /** What a resolve call returns at once. */
  function Answer(norm: Normalizer, r: State, e: Event): Option<UserInfo> {
    match e
    case ResolveId(id, _) => if id != NULL_UUID && id in r.cache then Some(r.cache[id]) else None
    case ResolveName(username, _) =>
      var name := norm(username);
      if name == "" || name !in r.usernames then None
      else if r.usernames[name] in r.cache then Some(r.cache[r.usernames[name]])
      else Some(NO_INFO)
    case _ => None
  }

  function NothingPending(r: State): State {
    r.(pendingIds := {}, pendingNames := {})
  }

  function After(norm: Normalizer, r: State, e: Event): State {
    match e
    case ResolveId(_, _) =>
      var key := Asks(norm, r, e);
      if key.Some? then r.(pendingIds := r.pendingIds + {e.userId}) else r
    case ResolveName(_, _) =>
      var key := Asks(norm, r, e);
      if key.Some? then r.(pendingNames := r.pendingNames + {norm(e.username)}) else r
    case InvalidateId(id) =>
      r.(usernames := if id in r.cache then r.usernames - {r.cache[id].username} else r.usernames,
         cache := r.cache - {id}, pendingIds := r.pendingIds - {id})
    case InvalidateName(username) =>
      var name := norm(username);
      if name == "" then r
      else if name in r.usernames then
        var id := r.usernames[name];
        State(r.cache - {id}, r.usernames - {name}, r.pendingIds - {id}, r.pendingNames - {name})
      else r.(pendingNames := r.pendingNames - {name})
    case ClearCache => INITIAL
    case InfoReceived(info) =>
      if info.userId == NULL_UUID then r
      else State(r.cache[info.userId := info], r.usernames[info.username := info.userId],
                 r.pendingIds - {info.userId}, r.pendingNames - {info.username})
    case ResultReceived(isError) => if isError then NothingPending(r) else r
    case ConnectionStatus(connected) => if connected then r else NothingPending(r)
  }

  function Run(norm: Normalizer, h: seq<Event>): State {
    if h == [] then INITIAL else After(norm, Run(norm, h[..|h| - 1]), h[|h| - 1])
  }

  /** The singleton as it runs. Resolving returns the answer and the request sent, if any. */
  class UserResolver {
    const normalize: Normalizer
    var cache: map<Uuid, UserInfo>
    var usernameCache: map<string, Uuid>
    var pendingRequests: set<Uuid>
    var pendingUsernameRequests: set<string>

    function View(): State
      reads this
    {
      State(cache, usernameCache, pendingRequests, pendingUsernameRequests)
    }

    constructor (normalize: Normalizer)
      ensures View() == INITIAL && this.normalize == normalize
    {
      this.normalize := normalize;
      cache, usernameCache, pendingRequests, pendingUsernameRequests := map[], map[], {}, {};
    }

    method ResolveUserById(userId: Uuid, connected: bool) returns (answer: Option<UserInfo>, asked: Option<Key>)
      modifies this
      ensures View() == After(normalize, old(View()), ResolveId(userId, connected))
      ensures answer == Answer(normalize, old(View()), ResolveId(userId, connected))
      ensures asked == Asks(normalize, old(View()), ResolveId(userId, connected))
    {
      if userId == NULL_UUID {
        return None, None;
      }
      if userId in cache {
        return Some(cache[userId]), None;
      }
      if userId in pendingRequests {
        return None, None;
      }
      if !connected {
        return None, None;
      }
      pendingRequests := pendingRequests + {userId};
      return None, Some(ById(userId));
    }

    method ResolveUserByName(username: string, connected: bool) returns (answer: Option<UserInfo>, asked: Option<Key>)
      modifies this
      ensures View() == After(normalize, old(View()), ResolveName(username, connected))
      ensures answer == Answer(normalize, old(View()), ResolveName(username, connected))
      ensures asked == Asks(normalize, old(View()), ResolveName(username, connected))
    {
      var name := normalize(username);
      if name == "" {
        return None, None;
      }
      if name in usernameCache {
        var userId := usernameCache[name];
        return Some(if userId in cache then cache[userId] else NO_INFO), None;
      }
      if name in pendingUsernameRequests {
        return None, None;
      }
      if !connected {
        return None, None;
      }
      pendingUsernameRequests := pendingUsernameRequests + {name};
      return None, Some(ByName(name));
    }

    method InvalidateUserById(userId: Uuid)
      modifies this
      ensures View() == After(normalize, old(View()), InvalidateId(userId))
    {
      if userId in cache {
        usernameCache := usernameCache - {cache[userId].username};
      }
      cache := cache - {userId};
      pendingRequests := pendingRequests - {userId};
    }

    method InvalidateUserByName(username: string)
      modifies this
      ensures View() == After(normalize, old(View()), InvalidateName(username))
    {
      var name := normalize(username);
      if name == "" {
        return;
      }
      if name in usernameCache {
        var userId := usernameCache[name];
        usernameCache := usernameCache - {name};
        cache := cache - {userId};
        pendingRequests := pendingRequests - {userId};
      }
      pendingUsernameRequests := pendingUsernameRequests - {name};
    }

    method ClearAll()
      modifies this
      ensures View() == After(normalize, old(View()), ClearCache)
    {
      cache, usernameCache := map[], map[];
      pendingRequests, pendingUsernameRequests := {}, {};
    }

    method OnPublicUserInfoReceived(info: UserInfo)
      modifies this
      ensures View() == After(normalize, old(View()), InfoReceived(info))
    {
      var userId := info.userId;
      if userId == NULL_UUID {
        return;
      }
      pendingRequests := pendingRequests - {userId};
      pendingUsernameRequests := pendingUsernameRequests - {info.username};
      cache := cache[userId := info];
      usernameCache := usernameCache[info.username := userId];
    }

    method OnOperationResultReceived(isError: bool)
      modifies this
      ensures View() == After(normalize, old(View()), ResultReceived(isError))
    {
      if !isError {
        return;
      }
      pendingRequests, pendingUsernameRequests := {}, {};
    }

    method OnConnectionStatusChanged(connected: bool)
      modifies this
      ensures View() == After(normalize, old(View()), ConnectionStatus(connected))
    {
      if connected {
        return;
      }
      pendingRequests, pendingUsernameRequests := {}, {};
    }
  }

  // ---------------------------------------------------- cached or pending

  /** In every run, no id and no username is both cached and asked for. */
  lemma {:induction false} CachedNotPending(norm: Normalizer, h: seq<Event>)
    ensures Run(norm, h).cache.Keys !! Run(norm, h).pendingIds
    ensures Run(norm, h).usernames.Keys !! Run(norm, h).pendingNames
  {
    if h == [] {
    } else {
      CachedNotPending(norm, h[..|h| - 1]);
    }
  }

  lemma RunStep(norm: Normalizer, h: seq<Event>, k: nat)
    requires k < |h|
    ensures Run(norm, h[..k + 1]) == After(norm, Run(norm, h[..k]), h[k])
  {
    assert h[..k + 1][..k] == h[..k];
  }

  // -------------------------------------------------- what a lookup returns

  /** The event drops what is known about this user: by id, by a name indexed to that id, or by
      clearing everything. */
  predicate Drops(norm: Normalizer, r: State, e: Event, id: Uuid) {
    match e
    case InvalidateId(other) => other == id
    case InvalidateName(username) =>
      var name := norm(username);
      name != "" && name in r.usernames && r.usernames[name] == id
    case ClearCache => true
    case _ => false
  }

  predicate Tells(e: Event, id: Uuid) {
    e.InfoReceived? && e.info.userId == id
  }

  /** Event `i` is the last news of this user, and it has not been dropped since. */
  ghost predicate Latest(norm: Normalizer, h: seq<Event>, i: nat, id: Uuid) {
    && i < |h| && Tells(h[i], id)
    && forall j | i < j < |h| :: !Tells(h[j], id) && !Drops(norm, Run(norm, h[..j]), h[j], id)
  }

  lemma LatestStep(norm: Normalizer, h: seq<Event>, e: Event, i: nat, id: Uuid)
    ensures Latest(norm, h + [e], i, id) <==>
            if i == |h| then Tells(e, id)
            else Latest(norm, h, i, id) && !Tells(e, id) && !Drops(norm, Run(norm, h), e, id)
  {
    hide Run, Drops, Tells;
    var more := h + [e];
    assert more[..|h|] == h && more[|h|] == e;
    assert forall j | 0 <= j < |h| :: more[..j] == h[..j] && more[j] == h[j];
    if i < |h| {
      if Latest(norm, more, i, id) {
        assert !Tells(more[|h|], id) && !Drops(norm, Run(norm, more[..|h|]), more[|h|], id);
        forall j | i < j < |h| ensures !Tells(h[j], id) && !Drops(norm, Run(norm, h[..j]), h[j], id) {
          assert !Tells(more[j], id) && !Drops(norm, Run(norm, more[..j]), more[j], id);
        }
      }
    }
  }

  /** What one event does to the entry of one user. */
  lemma EntryStep(norm: Normalizer, r: State, e: Event, id: Uuid)
    requires id != NULL_UUID
    ensures var r' := After(norm, r, e);
      if Tells(e, id) then id in r'.cache && r'.cache[id] == e.info
      else if Drops(norm, r, e, id) then id !in r'.cache
      else (id in r'.cache <==> id in r.cache) && (id in r.cache ==> r'.cache[id] == r.cache[id])
  {
  }

  /** If event `i` is the last news, its information is what is cached. */
  ghost predicate NewestAt(norm: Normalizer, h: seq<Event>, i: nat, id: Uuid) {
    Latest(norm, h, i, id) ==> i < |h| && id in Run(norm, h).cache && Run(norm, h).cache[id] == h[i].info
  }

  lemma NewestStep(norm: Normalizer, h: seq<Event>, e: Event, i: nat, id: Uuid)
    requires id != NULL_UUID && NewestAt(norm, h, i, id)
    ensures NewestAt(norm, h + [e], i, id)
  {
    assert (h + [e])[..|h|] == h;
    EntryStep(norm, Run(norm, h), e, id);
    assert Run(norm, h + [e]) == After(norm, Run(norm, h), e);
    assert Latest(norm, h, i, id) ==> i < |h| && (h + [e])[i] == h[i];
    LatestStep(norm, h, e, i, id);
    hide Run, After, Latest, Drops;
  }

  /** Whatever is cached has its last news. */
  lemma CachedStep(norm: Normalizer, h: seq<Event>, e: Event, id: Uuid)
    requires id != NULL_UUID
    requires id in Run(norm, h).cache ==> exists i: nat :: Latest(norm, h, i, id)
    ensures id in Run(norm, h + [e]).cache ==> exists i: nat :: Latest(norm, h + [e], i, id)
  {
    assert (h + [e])[..|h|] == h;
    EntryStep(norm, Run(norm, h), e, id);
    assert Run(norm, h + [e]) == After(norm, Run(norm, h), e);
    hide Run, After, Drops;
    if Tells(e, id) {
      LatestStep(norm, h, e, |h|, id);
    } else if id in Run(norm, h + [e]).cache {
      var i: nat :| Latest(norm, h, i, id);
      LatestStep(norm, h, e, i, id);
      assert Latest(norm, h + [e], i, id);
    }
  }

  /** Over any history, a lookup by id hits exactly when information about the user was received
      and not dropped since, and returns the newest. */
  lemma {:induction false} LookupById(norm: Normalizer, h: seq<Event>, id: Uuid)
    requires id != NULL_UUID
    ensures id in Run(norm, h).cache <==> exists i: nat :: Latest(norm, h, i, id)
    ensures forall i: nat | Latest(norm, h, i, id) :: id in Run(norm, h).cache && Run(norm, h).cache[id] == h[i].info
  {
    hide Latest, Run;
    if h == [] {
      NothingKnown(norm, id);
    } else {
      var before, e := h[..|h| - 1], h[|h| - 1];
      SplitLast(h);
      LookupById(norm, before, id);
      CachedStep(norm, before, e, id);
      forall i: nat | Latest(norm, h, i, id) ensures NewestAt(norm, h, i, id) {
        LatestIsReal(norm, before, i, id);
        NewestStep(norm, before, e, i, id);
      }
    }
  }

  lemma NothingKnown(norm: Normalizer, id: Uuid)
    ensures id !in Run(norm, []).cache
    ensures forall i: nat :: !Latest(norm, [], i, id)
  {
  }

  lemma LatestIsReal(norm: Normalizer, h: seq<Event>, i: nat, id: Uuid)
    ensures Latest(norm, h, i, id) ==> i < |h|
  {
  }

  // ------------------------------------------------------ no second request

  /** The events that end the wait for this key. */
  predicate Settles(norm: Normalizer, r: State, e: Event, key: Key) {
    match e
    case InfoReceived(info) =>
      info.userId != NULL_UUID && (key == ById(info.userId) || key == ByName(info.username))
    case InvalidateId(id) => key == ById(id)
    case InvalidateName(username) =>
      var name := norm(username);
      name != "" && (key == ByName(name) || (name in r.usernames && key == ById(r.usernames[name])))
    case ClearCache => true
    case ResultReceived(isError) => isError
    case ConnectionStatus(connected) => !connected
    case _ => false
  }

  lemma {:induction false} StaysPending(norm: Normalizer, h: seq<Event>, i: nat, j: nat, key: Key)
    requires i <= j <= |h| && Pending(Run(norm, h[..i]), key)
    requires forall m | i <= m < j :: !Settles(norm, Run(norm, h[..m]), h[m], key)
    ensures Pending(Run(norm, h[..j]), key)
  {
    if i == j {
    } else {
      StaysPending(norm, h, i, j - 1, key);
      RunStep(norm, h, j - 1);
      hide Run;
    }
  }

  /** Between two requests for the same user or name, something settled the first one. */
  lemma NoSecondRequest(norm: Normalizer, h: seq<Event>, i: nat, j: nat, key: Key)
    requires i < j < |h|
    requires Asks(norm, Run(norm, h[..i]), h[i]) == Some(key)
    requires Asks(norm, Run(norm, h[..j]), h[j]) == Some(key)
    ensures exists m :: i < m < j && Settles(norm, Run(norm, h[..m]), h[m], key)
  {
    RunStep(norm, h, i);
    if forall m | i < m < j :: !Settles(norm, Run(norm, h[..m]), h[m], key) {
      StaysPending(norm, h, i + 1, j, key);
    }
  }

  // ------------------------------------------------------- lookups by name

  predicate TellsName(e: Event, name: string, id: Uuid) {
    e.InfoReceived? && e.info.userId != NULL_UUID && e.info.username == name && e.info.userId == id
  }

  /** The event drops a name from the index, or gives it anew. */
  predicate EndsName(norm: Normalizer, r: State, e: Event, name: string) {
    match e
    case InfoReceived(info) => info.userId != NULL_UUID && info.username == name
    case InvalidateId(id) => id in r.cache && r.cache[id].username == name
    case InvalidateName(username) => norm(username) == name && name != ""
    case ClearCache => true
    case _ => false
  }

  /** Event `i` gave the name to this user, and since then it was neither dropped nor given anew. */
  ghost predicate NamedSince(norm: Normalizer, h: seq<Event>, i: nat, name: string, id: Uuid) {
    && i < |h| && TellsName(h[i], name, id)
    && forall j | i < j < |h| :: !EndsName(norm, Run(norm, h[..j]), h[j], name)
  }

  predicate IndexedTo(r: State, name: string, id: Uuid) {
    name in r.usernames && r.usernames[name] == id
  }

  lemma NameStep(norm: Normalizer, r: State, e: Event, name: string, id: Uuid)
    ensures IndexedTo(After(norm, r, e), name, id) <==>
            TellsName(e, name, id) || (IndexedTo(r, name, id) && !EndsName(norm, r, e, name))
  {
  }

  lemma RunPlus(norm: Normalizer, p: seq<Event>, e: Event)
    ensures Run(norm, p + [e]) == After(norm, Run(norm, p), e)
  {
    assert (p + [e])[..|p|] == p;
  }

  /** Over any history a name leads to a user exactly when some information gave it to that user and
      the name was neither dropped nor given anew since. */
  lemma {:induction false} IndexedIff(norm: Normalizer, h: seq<Event>, name: string, id: Uuid)
    ensures IndexedTo(Run(norm, h), name, id) <==> exists i: nat :: NamedSince(norm, h, i, name, id)
  {
    var holds := (p: seq<Event>) => IndexedTo(Run(norm, p), name, id);
    var begins := (p: seq<Event>, e: Event) => TellsName(e, name, id);
    var ends := (p: seq<Event>, e: Event) => EndsName(norm, Run(norm, p), e, name);
    forall p: seq<Event>, e: Event
      ensures holds(p + [e]) <==> begins(p, e) || (holds(p) && !ends(p, e))
    {
      RunPlus(norm, p, e);
      NameStep(norm, Run(norm, p), e, name, id);
    }
    HoldsIffStanding(h, holds, begins, ends);
    hide Run, IndexedTo, TellsName, EndsName;
    assert forall i: nat :: Standing(h, i, begins, ends) <==> NamedSince(norm, h, i, name, id);
  }

  /** What a resolve call returns at once, told from the history: by id the newest information not
      dropped since; by name that of the user the name was last given to, or an empty record if that
      user's has been dropped; else nothing. */
  lemma {:induction false} AnswerToId(norm: Normalizer, h: seq<Event>, id: Uuid, connected: bool)
    ensures var answer := Answer(norm, Run(norm, h), ResolveId(id, connected));
      && (forall i: nat | Latest(norm, h, i, id) && id != NULL_UUID :: answer == Some(h[i].info))
      && (answer.Some? ==> id != NULL_UUID && exists i: nat :: Latest(norm, h, i, id))
  {
    if id != NULL_UUID {
      LookupById(norm, h, id);
    }
    hide Latest, Run;
  }

  lemma {:induction false} AnswerToName(norm: Normalizer, h: seq<Event>, username: string, connected: bool)
    ensures var answer, name := Answer(norm, Run(norm, h), ResolveName(username, connected)), norm(username);
      && (forall i: nat, id | NamedSince(norm, h, i, name, id) && name != "" ::
            answer == if id in Run(norm, h).cache then Some(Run(norm, h).cache[id]) else Some(NO_INFO))
      && (answer.Some? ==> name != "" && exists i: nat, id :: NamedSince(norm, h, i, name, id))
  {
    hide NamedSince, Run;
    var r, name := Run(norm, h), norm(username);
    forall i: nat, id | NamedSince(norm, h, i, name, id) ensures IndexedTo(r, name, id) {
      IndexedIff(norm, h, name, id);
    }
    if name in r.usernames {
      IndexedIff(norm, h, name, r.usernames[name]);
    }
  }

  // ------------------------------------------------------------ what is asked

  /** A connected resolve of this key for which nothing is known, told from the events before it. */
  ghost predicate Misses(norm: Normalizer, before: seq<Event>, e: Event, key: Key) {
    match key
    case ById(id) => e == ResolveId(id, true) && id != NULL_UUID && !exists i: nat :: Latest(norm, before, i, id)
    case ByName(name) =>
      && e.ResolveName? && e.connected && norm(e.username) == name && name != ""
      && !exists i: nat, id :: NamedSince(norm, before, i, name, id)
  }

  /** The same, told from the state. */
  predicate MissesNow(norm: Normalizer, r: State, e: Event, key: Key) {
    match key
    case ById(id) => e == ResolveId(id, true) && id != NULL_UUID && id !in r.cache
    case ByName(name) =>
      e.ResolveName? && e.connected && norm(e.username) == name && name != "" && name !in r.usernames
  }

  lemma {:induction false} MissesIff(norm: Normalizer, before: seq<Event>, e: Event, key: Key)
    ensures Misses(norm, before, e, key) <==> MissesNow(norm, Run(norm, before), e, key)
  {
    hide Run, Latest, NamedSince;
    match key
    case ById(id) =>
      if id != NULL_UUID {
        LookupById(norm, before, id);
      }
    case ByName(name) =>
      forall i: nat, id | NamedSince(norm, before, i, name, id) ensures IndexedTo(Run(norm, before), name, id) {
        IndexedIff(norm, before, name, id);
      }
      if name in Run(norm, before).usernames {
        IndexedIff(norm, before, name, Run(norm, before).usernames[name]);
      }
  }

  lemma PendingStep(norm: Normalizer, r: State, e: Event, key: Key)
    ensures Pending(After(norm, r, e), key) <==>
            MissesNow(norm, r, e, key) || (Pending(r, key) && !Settles(norm, r, e, key))
  {
  }

  /** Event `i` is a connected resolve that found nothing, and nothing has settled it since. */
  ghost predicate Awaited(norm: Normalizer, h: seq<Event>, i: nat, key: Key) {
    && i < |h| && Misses(norm, h[..i], h[i], key)
    && forall j | i < j < |h| :: !Settles(norm, Run(norm, h[..j]), h[j], key)
  }

  /** Over any history a key is pending exactly when some connected resolve of it found nothing known
      and no later event settled it. */
  lemma {:induction false} PendingIff(norm: Normalizer, h: seq<Event>, key: Key)
    ensures Pending(Run(norm, h), key) <==> exists i: nat :: Awaited(norm, h, i, key)
  {
    var holds := (p: seq<Event>) => Pending(Run(norm, p), key);
    var begins := (p: seq<Event>, e: Event) => MissesNow(norm, Run(norm, p), e, key);
    var ends := (p: seq<Event>, e: Event) => Settles(norm, Run(norm, p), e, key);
    forall p: seq<Event>, e: Event
      ensures holds(p + [e]) <==> begins(p, e) || (holds(p) && !ends(p, e))
    {
      RunPlus(norm, p, e);
      PendingStep(norm, Run(norm, p), e, key);
    }
    HoldsIffStanding(h, holds, begins, ends);
    hide Run, Pending, Misses, MissesNow, Settles;
    forall i: nat ensures Standing(h, i, begins, ends) <==> Awaited(norm, h, i, key) {
      if i < |h| {
        MissesIff(norm, h[..i], h[i], key);
      }
    }
  }

  /** A request goes out at exactly the events that make their key pending, and asks for that key. */
  lemma AsksWhenPending(norm: Normalizer, r: State, e: Event, key: Key)
    ensures Asks(norm, r, e) == Some(key) <==> !Pending(r, key) && Pending(After(norm, r, e), key)
  {
  }

  // ---------------------------------------------------- the username index

  /** The index is the exact inverse of the cache. */
  ghost predicate Inverse(r: State) {
    && (forall name | name in r.usernames ::
          r.usernames[name] in r.cache && r.cache[r.usernames[name]].username == name)
    && (forall id | id in r.cache :: r.cache[id].username in r.usernames && r.usernames[r.cache[id].username] == id)
  }

  /** The news fits what is known: the same name for a known id, the same id for a known name. */
  predicate Fits(r: State, info: UserInfo) {
    && (info.userId in r.cache ==> r.cache[info.userId].username == info.username)
    && (info.username in r.usernames ==> r.usernames[info.username] == info.userId)
  }

  /** The index stays the inverse exactly when received information fits what is known; every
      other event keeps it. */
  lemma InverseKeptIff(norm: Normalizer, r: State, e: Event)
    requires Inverse(r)
    ensures Inverse(After(norm, r, e)) <==>
            (e.InfoReceived? && e.info.userId != NULL_UUID ==> Fits(r, e.info))
  {
    if e.InfoReceived? && e.info.userId != NULL_UUID {
      var r', info := After(norm, r, e), e.info;
      if info.userId in r.cache && r.cache[info.userId].username != info.username {
        assert r'.usernames[r.cache[info.userId].username] == info.userId;
      } else if info.username in r.usernames && r.usernames[info.username] != info.userId {
        assert r'.cache[r.usernames[info.username]].username == info.username;
      }
    }
  }

  /** What is received by event `i` fits what is known at that moment. */
  predicate NewsFits(norm: Normalizer, h: seq<Event>, i: nat)
    requires i < |h|
  {
    h[i].InfoReceived? && h[i].info.userId != NULL_UUID ==> Fits(Run(norm, h[..i]), h[i].info)
  }

  /** After the first `j` events the index is the exact inverse of the cache. */
  ghost predicate InverseAt(norm: Normalizer, h: seq<Event>, j: nat)
    requires j <= |h|
  {
    Inverse(Run(norm, h[..j]))
  }

  lemma SamePrefix(norm: Normalizer, h: seq<Event>, j: nat)
    requires j < |h|
    ensures InverseAt(norm, h[..|h| - 1], j) <==> InverseAt(norm, h, j)
    ensures j < |h| - 1 ==> (NewsFits(norm, h[..|h| - 1], j) <==> NewsFits(norm, h, j))
  {
    assert h[..|h| - 1][..j] == h[..j];
  }

  /** Over any history the index is the exact inverse of the cache throughout, exactly when
      everything received fits what is known at that moment. */
  lemma {:induction false} AlwaysInverseIff(norm: Normalizer, h: seq<Event>)
    ensures (forall j | 0 <= j <= |h| :: InverseAt(norm, h, j)) <==> (forall i | 0 <= i < |h| :: NewsFits(norm, h, i))
  {
    if h == [] {
      assert InverseAt(norm, h, 0);
    } else {
      var n := |h| - 1;
      AlwaysInverseIff(norm, h[..n]);
      RunStep(norm, h, n);
      if InverseAt(norm, h, n) {
        InverseKeptIff(norm, Run(norm, h[..n]), h[n]);
        assert InverseAt(norm, h, n + 1) <==> NewsFits(norm, h, n);
      }
      hide InverseAt, NewsFits;
      forall j | 0 <= j <= n
        ensures InverseAt(norm, h[..n], j) <==> InverseAt(norm, h, j)
        ensures j < n ==> (NewsFits(norm, h[..n], j) <==> NewsFits(norm, h, j))
      {
        SamePrefix(norm, h, j);
      }
      assert forall j | 0 <= j <= n :: InverseAt(norm, h[..n], j) <==> InverseAt(norm, h, j);
    }
  }

  /** Ids and usernames are one-to-one in everything received. */
  ghost predicate OneToOne(h: seq<Event>) {
    forall a, b | a in h && b in h && a.InfoReceived? && b.InfoReceived?
      && a.info.userId != NULL_UUID && b.info.userId != NULL_UUID ::
        a.info.userId == b.info.userId <==> a.info.username == b.info.username
  }

  lemma {:induction false} CachedWasReceived(norm: Normalizer, h: seq<Event>, id: Uuid)
    requires id in Run(norm, h).cache
    ensures id != NULL_UUID && InfoReceived(Run(norm, h).cache[id]) in h && Run(norm, h).cache[id].userId == id
  {
    var before, e := h[..|h| - 1], h[|h| - 1];
    SplitLast(h);
    if e.InfoReceived? && e.info.userId == id && id != NULL_UUID {
      assert e == InfoReceived(e.info);
    } else {
      CachedWasReceived(norm, before, id);
    }
  }

  /** As long as ids and usernames stay one-to-one, the index is the exact inverse of the cache. */
  lemma {:induction false} IndexIsInverse(norm: Normalizer, h: seq<Event>)
    requires OneToOne(h)
    ensures Inverse(Run(norm, h))
  {
    if h == [] {
    } else {
      var before, e := h[..|h| - 1], h[|h| - 1];
      IndexIsInverse(norm, before);
      var r := Run(norm, before);
      InverseKeptIff(norm, r, e);
      if e.InfoReceived? && e.info.userId != NULL_UUID {
        if e.info.userId in r.cache {
          CachedWasReceived(norm, before, e.info.userId);
        }
        if e.info.username in r.usernames {
          CachedWasReceived(norm, before, r.usernames[e.info.username]);
        }
      }
    }
  }

  /** Then a lookup by name returns what a lookup by that user's id returns. */
  lemma LookupByName(norm: Normalizer, h: seq<Event>, username: string, connected: bool)
    requires OneToOne(h)
    ensures var answer := Answer(norm, Run(norm, h), ResolveName(username, connected));
      answer.Some? ==>
        && answer.value.username == norm(username)
        && Answer(norm, Run(norm, h), ResolveId(answer.value.userId, connected)) == answer
  {
    IndexIsInverse(norm, h);
    var r, name := Run(norm, h), norm(username);
    if name != "" && name in r.usernames {
      CachedWasReceived(norm, h, r.usernames[name]);
    }
  }

  /** After a rename the index can outlive the cache entry: the old name then resolves to an
      empty record. */
  lemma RenameLeavesStaleName(norm: Normalizer, id: Uuid, oldName: string, newName: string, query: string)
    requires id != NULL_UUID && oldName != newName && oldName != "" && norm(query) == oldName
    ensures
      var h := [InfoReceived(UserInfo(id, oldName, "")), InfoReceived(UserInfo(id, newName, "")), InvalidateId(id)];
      Answer(norm, Run(norm, h), ResolveName(query, true)) == Some(NO_INFO)
  {
    var h := [InfoReceived(UserInfo(id, oldName, "")), InfoReceived(UserInfo(id, newName, "")), InvalidateId(id)];
    RunStep(norm, h, 0);
    RunStep(norm, h, 1);
    RunStep(norm, h, 2);
    assert h[..3] == h && h[..0] == [];
  }
}
