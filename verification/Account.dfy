/** `client/src/AccountManager.cpp`: the client's login, registration, logout and profile state. */
module Account {
  import opened Prelude

  datatype Mode = LoginMode | RegisterMode | AccountMode

  /** The request whose answer is awaited. */
  datatype Pending = NoAction | Registering | LoggingIn | FetchingProfile | LoggingOut

  datatype ProfileInfo = ProfileInfo(userId: Uuid, username: string, displayName: string, email: string)

  datatype AccountState = AccountState(
    mode: Mode, loggedIn: bool, busy: bool, pending: Pending, profile: Option<ProfileInfo>, statusText: string)

  const INITIAL := AccountState(LoginMode, false, false, NoAction, None, "")

  /** The text rules and the password hash, which are not part of this model. */
  datatype Texts = Texts(
    normalizeUsername: string -> string, isValidUsername: string -> bool, trimmed: string -> string,
    hash: string -> string)

  datatype Request =
    | LoginRequest(login: string, passwordHash: string)
    | RegisterRequest(username: string, displayName: string, email: string, passwordHash: string)
    | LogoutRequest
    | ProfileRequest

  datatype AccountEvent =
    | ShowLogin
    | ShowRegister
    | CallLogin(login: string, password: string)
    | CallRegister(username: string, displayName: string, email: string, password: string)
    | CallLogout
    | ConnectionStatus
    | Result(success: bool, text: string)
    | ProfileArrived(profile: ProfileInfo)

  // ------------------------------------------------------------------ slots

  /** The credentials are complete, so that the call goes through. */
  predicate Complete(t: Texts, e: AccountEvent) {
    match e
    case CallLogin(login, password) => t.normalizeUsername(login) != "" && password != ""
    case CallRegister(username, displayName, email, password) =>
      t.isValidUsername(t.normalizeUsername(username)) && t.trimmed(displayName) != "" && t.trimmed(email) != ""
      && password != ""
    case _ => false
  }

  /** A login or registration that is sent to the server. */
  predicate Accepted(t: Texts, a: AccountState, connected: bool, e: AccountEvent) {
    !a.busy && connected && Complete(t, e)
  }

  function Reset(a: AccountState): AccountState {
    a.(profile := None, loggedIn := false, statusText := "", mode := LoginMode)
  }

  /** The state after one slot; `connected` is the connection status at that moment. */
  function After(t: Texts, a: AccountState, connected: bool, e: AccountEvent): AccountState {
    match e
    case ShowLogin =>
      if a.busy then a else a.(statusText := "", mode := if a.loggedIn then AccountMode else LoginMode)
    case ShowRegister =>
      if a.busy || a.loggedIn then a else a.(statusText := "", mode := RegisterMode)
    case CallLogin(_, _) =>
      if !Accepted(t, a, connected, e) then a
      else a.(pending := LoggingIn, profile := None, statusText := "", busy := true)
    case CallRegister(username, _, _, _) =>
      if a.busy || !connected then a
      else if !t.isValidUsername(t.normalizeUsername(username)) then a.(statusText := BAD_USERNAME)
      else if !Accepted(t, a, connected, e) then a
      else a.(pending := Registering, profile := None, statusText := "", busy := true)
    case CallLogout =>
      if a.busy || !connected || !a.loggedIn then a
      else a.(pending := LoggingOut, statusText := "", busy := true)
    case ConnectionStatus =>
      if connected then a else Reset(a.(busy := false, pending := NoAction))
    case Result(success, text) => AfterResult(a, success, text)
    case ProfileArrived(profile) =>
      if a.pending == FetchingProfile then
        a.(profile := Some(profile), pending := NoAction, statusText := "", loggedIn := true, mode := AccountMode,
           busy := false)
      else if a.loggedIn then a.(profile := Some(profile))
      else a
  }

  function AfterResult(a: AccountState, success: bool, text: string): AccountState {
    var done := a.(busy := false, pending := NoAction);
    match a.pending
    case NoAction => a
    case Registering => if success then done.(statusText := "", mode := LoginMode) else done.(statusText := text)
    case LoggingIn =>
      if success then a.(pending := FetchingProfile, statusText := "", mode := AccountMode)
      else done.(statusText := text)
    case FetchingProfile => if success then a else Reset(done).(statusText := text)
    case LoggingOut => if success then Reset(done) else done.(statusText := text)
  }

  /** The request a slot sends, if any. */
  function Sends(t: Texts, a: AccountState, connected: bool, e: AccountEvent): Option<Request> {
    match e
    case CallLogin(login, password) =>
      if Accepted(t, a, connected, e) then Some(LoginRequest(t.normalizeUsername(login), t.hash(password))) else None
    case CallRegister(username, displayName, email, password) =>
      if Accepted(t, a, connected, e) then
        Some(RegisterRequest(t.normalizeUsername(username), t.trimmed(displayName), t.trimmed(email), t.hash(password)))
      else None
    case CallLogout => if a.busy || !connected || !a.loggedIn then None else Some(LogoutRequest)
    case Result(success, _) => if a.pending == LoggingIn && success then Some(ProfileRequest) else None
    case _ => None
  }

  /** The singleton as it runs: each slot updates the fields one after another. */
  class AccountManager {
    const texts: Texts
    var mode: Mode
    var loggedIn: bool
    var busy: bool
    var pendingAction: Pending
    var userProfile: Option<ProfileInfo>
    var statusText: string

    function View(): AccountState
      reads this
    {
      AccountState(mode, loggedIn, busy, pendingAction, userProfile, statusText)
    }

    constructor (texts: Texts)
      ensures View() == INITIAL && this.texts == texts
    {
      this.texts := texts;
      mode, loggedIn, busy, pendingAction, userProfile, statusText := LoginMode, false, false, NoAction, None, "";
    }

    method ShowLoginPage()
      modifies this
      ensures View() == After(texts, old(View()), true, ShowLogin)
    {
      if busy {
        return;
      }
      statusText := "";
      mode := if loggedIn then AccountMode else LoginMode;
    }

    method ShowRegisterPage()
      modifies this
      ensures View() == After(texts, old(View()), true, ShowRegister)
    {
      if busy || loggedIn {
        return;
      }
      statusText := "";
      mode := RegisterMode;
    }

    method Login(connected: bool, login: string, password: string) returns (sent: Option<Request>)
      modifies this
      ensures View() == After(texts, old(View()), connected, CallLogin(login, password))
      ensures sent == Sends(texts, old(View()), connected, CallLogin(login, password))
    {
      if busy || !connected {
        return None;
      }
      var normalizedLogin := texts.normalizeUsername(login);
      if normalizedLogin == "" || password == "" {
        return None;
      }
      pendingAction := LoggingIn;
      userProfile := None;
      statusText := "";
      busy := true;
      return Some(LoginRequest(normalizedLogin, texts.hash(password)));
    }

    method RegisterAccount(connected: bool, username: string, displayName: string, email: string, password: string)
      returns (sent: Option<Request>)
      modifies this
      ensures View() == After(texts, old(View()), connected, CallRegister(username, displayName, email, password))
      ensures sent == Sends(texts, old(View()), connected, CallRegister(username, displayName, email, password))
    {
      if busy || !connected {
        return None;
      }
      var normalizedUsername := texts.normalizeUsername(username);
      var trimmedDisplayName := texts.trimmed(displayName);
      if !texts.isValidUsername(normalizedUsername) {
        statusText := BAD_USERNAME;
        return None;
      }
      if trimmedDisplayName == "" || texts.trimmed(email) == "" || password == "" {
        return None;
      }
      pendingAction := Registering;
      userProfile := None;
      statusText := "";
      busy := true;
      return Some(RegisterRequest(normalizedUsername, trimmedDisplayName, texts.trimmed(email), texts.hash(password)));
    }

    method Logout(connected: bool) returns (sent: Option<Request>)
      modifies this
      ensures View() == After(texts, old(View()), connected, CallLogout)
      ensures sent == Sends(texts, old(View()), connected, CallLogout)
    {
      if busy || !connected {
        return None;
      }
      if !loggedIn {
        return None;
      }
      pendingAction := LoggingOut;
      statusText := "";
      busy := true;
      return Some(LogoutRequest);
    }

    method ResetAuthorizationState()
      modifies this
      ensures View() == Reset(old(View()))
    {
      userProfile := None;
      loggedIn := false;
      statusText := "";
      mode := LoginMode;
    }

    method OnConnectionStatusChanged(connected: bool)
      modifies this
      ensures View() == After(texts, old(View()), connected, ConnectionStatus)
    {
      if connected {
        return;
      }
      busy := false;
      pendingAction := NoAction;
      ResetAuthorizationState();
    }

    method OnOperationResultReceived(success: bool, message: string) returns (sent: Option<Request>)
      modifies this
      ensures forall connected :: View() == After(texts, old(View()), connected, Result(success, message))
      ensures forall connected :: sent == Sends(texts, old(View()), connected, Result(success, message))
    {
      sent := None;
      match pendingAction {
        case NoAction =>
        case Registering =>
          busy := false;
          pendingAction := NoAction;
          if !success {
            statusText := message;
            return;
          }
          statusText := "";
          mode := LoginMode;
        case LoggingIn =>
          if !success {
            busy := false;
            pendingAction := NoAction;
            statusText := message;
            return;
          }
          pendingAction := FetchingProfile;
          statusText := "";
          mode := AccountMode;
          sent := Some(ProfileRequest);
        case FetchingProfile =>
          if !success {
            busy := false;
            pendingAction := NoAction;
            ResetAuthorizationState();
            statusText := message;
          }
        case LoggingOut =>
          busy := false;
          pendingAction := NoAction;
          if !success {
            statusText := message;
            return;
          }
          ResetAuthorizationState();
      }
    }

    method OnCurrentUserProfileReceived(profile: ProfileInfo)
      modifies this
      ensures forall connected :: View() == After(texts, old(View()), connected, ProfileArrived(profile))
    {
      if pendingAction != FetchingProfile && !loggedIn {
        return;
      }
      userProfile := Some(profile);
      if pendingAction != FetchingProfile {
        return;
      }
      pendingAction := NoAction;
      statusText := "";
      loggedIn := true;
      mode := AccountMode;
      busy := false;
    }
  }

  // ------------------------------------------------- what a caller can rely on

  /** A login goes out exactly when idle, connected and complete; it carries the normalized name and
      the hash of the password; and otherwise the call changes nothing. */
  lemma LoginSentIff(t: Texts, a: AccountState, connected: bool, login: string, password: string)
    ensures var e := CallLogin(login, password);
      var goes := !a.busy && connected && t.normalizeUsername(login) != "" && password != "";
      && Sends(t, a, connected, e)
         == (if goes then Some(LoginRequest(t.normalizeUsername(login), t.hash(password))) else None)
      && After(t, a, connected, e)
         == (if goes then AccountState(a.mode, a.loggedIn, true, LoggingIn, None, "") else a)
  {
  }

  /** A registration likewise; when only the username is at fault, or before anything else is, the
      account says so. */
  lemma RegistrationSentIff(
    t: Texts, a: AccountState, connected: bool, username: string, displayName: string, email: string, password: string)
    ensures var e, name := CallRegister(username, displayName, email, password), t.normalizeUsername(username);
      var ready := !a.busy && connected;
      var goes := ready && t.isValidUsername(name) && t.trimmed(displayName) != "" && t.trimmed(email) != ""
                  && password != "";
      && Sends(t, a, connected, e)
         == (if goes then Some(RegisterRequest(name, t.trimmed(displayName), t.trimmed(email), t.hash(password)))
             else None)
      && After(t, a, connected, e)
         == (if goes then AccountState(a.mode, a.loggedIn, true, Registering, None, "")
             else if ready && !t.isValidUsername(name) then a.(statusText := BAD_USERNAME)
             else a)
  {
  }

  /** A logout goes out exactly when idle, connected and logged in; the profile is asked for exactly when
      a login has succeeded; nothing else sends anything. */
  lemma OtherRequests(t: Texts, a: AccountState, connected: bool, e: AccountEvent)
    requires !e.CallLogin? && !e.CallRegister?
    ensures Sends(t, a, connected, e) == Some(LogoutRequest) <==> e == CallLogout && !a.busy && connected && a.loggedIn
    ensures Sends(t, a, connected, e) == Some(ProfileRequest) <==> e.Result? && e.success && a.pending == LoggingIn
    ensures Sends(t, a, connected, e) in {None, Some(LogoutRequest), Some(ProfileRequest)}
  {
  }

  /** A refusal is shown with its text and ends the wait; one while the profile is fetched logs out. */
  lemma RefusalShown(t: Texts, a: AccountState, connected: bool, text: string)
    requires a.pending != NoAction
    ensures var a' := After(t, a, connected, Result(false, text));
      && a'.statusText == text && a'.pending == NoAction && !a'.busy
      && (if a.pending == FetchingProfile then a'.mode == LoginMode && !a'.loggedIn && a'.profile == None
          else a'.mode == a.mode && a'.loggedIn == a.loggedIn && a'.profile == a.profile)
  {
  }

  /** A result nobody waits for changes nothing, nor does a success while the profile is fetched. */
  lemma IgnoredResults(t: Texts, a: AccountState, connected: bool, success: bool, text: string)
    requires a.pending == NoAction || (a.pending == FetchingProfile && success)
    ensures After(t, a, connected, Result(success, text)) == a
  {
  }

  /** A lost connection and a completed logout return the account to where it started; being told of a
      connection changes nothing. */
  lemma StartsOver(t: Texts, a: AccountState, text: string)
    ensures After(t, a, false, ConnectionStatus) == INITIAL
    ensures After(t, a, true, ConnectionStatus) == a
    ensures a.pending == LoggingOut ==> After(t, a, true, Result(true, text)) == INITIAL
  {
  }

  /** The pages: while idle the register page comes up for anyone not logged in, and asking for the login
      page brings the account page up for anyone who is. While busy neither call does anything. */
  lemma PagesShown(t: Texts, a: AccountState, connected: bool)
    ensures var login, register := After(t, a, connected, ShowLogin), After(t, a, connected, ShowRegister);
      if a.busy then login == a && register == a
      else
        && login == AccountState(if a.loggedIn then AccountMode else LoginMode,
                                 a.loggedIn, false, a.pending, a.profile, "")
        && register == (if a.loggedIn then a
                        else AccountState(RegisterMode, false, false, a.pending, a.profile, ""))
  {
  }

  /** A registration that succeeds ends on the login page with nothing pending and nothing to say. */
  lemma RegistrationEnds(t: Texts, a: AccountState, connected: bool, text: string)
    requires a.pending == Registering
    ensures After(t, a, connected, Result(true, text))
         == AccountState(LoginMode, a.loggedIn, false, NoAction, a.profile, "")
  {
  }

  /** A whole login: from idle to logged in with the received profile on the account page, sending first
      the credentials and then the request for the profile. */
  lemma WholeLogin(t: Texts, a: AccountState, login: string, password: string, text: string, profile: ProfileInfo)
    requires !a.busy && t.normalizeUsername(login) != "" && password != ""
    ensures var asked := After(t, a, true, CallLogin(login, password));
      var fetching := After(t, asked, true, Result(true, text));
      && fetching == AccountState(AccountMode, a.loggedIn, true, FetchingProfile, None, "")
      && Sends(t, asked, true, Result(true, text)) == Some(ProfileRequest)
      && After(t, fetching, true, ProfileArrived(profile))
         == AccountState(AccountMode, true, false, NoAction, Some(profile), "")
  {
  }

  /** A profile that arrives unasked replaces the one shown, and is ignored by anyone not logged in. */
  lemma UnaskedProfile(t: Texts, a: AccountState, connected: bool, profile: ProfileInfo)
    requires a.pending != FetchingProfile
    ensures After(t, a, connected, ProfileArrived(profile)) == if a.loggedIn then a.(profile := Some(profile)) else a
  {
  }

  // ------------------------------------------------------------- invariants

  function RunAccount(t: Texts, events: seq<(bool, AccountEvent)>): AccountState {
    if events == [] then INITIAL
    else
      var last := events[|events| - 1];
      After(t, RunAccount(t, events[..|events| - 1]), last.0, last.1)
  }

  ghost predicate BusyIffPending(a: AccountState) {
    a.busy <==> a.pending != NoAction
  }

  /** The redundant fields say the same: logged in exactly when a profile is stored, and the
      account page is up exactly when logged in or while the profile is being fetched. */
  ghost predicate FieldsAgree(a: AccountState) {
    && (a.loggedIn <==> a.profile.Some?)
    && (a.mode == AccountMode <==> a.loggedIn || a.pending == FetchingProfile)
    && (a.pending in {Registering, LoggingIn, FetchingProfile} ==> !a.loggedIn)
  }

  /** In every run, whatever is called or received: busy exactly when an action is pending. */
  lemma {:induction false} AlwaysBusyIffPending(t: Texts, events: seq<(bool, AccountEvent)>)
    ensures BusyIffPending(RunAccount(t, events))
  {
    if events == [] {
    } else {
      AlwaysBusyIffPending(t, events[..|events| - 1]);
    }
  }

  /** One event keeps the fields in agreement exactly unless it is a login or registration that
      goes through although the user is logged in. */
  lemma AgreementKeptIff(t: Texts, a: AccountState, connected: bool, e: AccountEvent)
    requires BusyIffPending(a) && FieldsAgree(a)
    ensures FieldsAgree(After(t, a, connected, e)) <==> !(a.loggedIn && Accepted(t, a, connected, e))
  {
  }

  /** After the first `j` events the fields agree. */
  ghost predicate AgreesAt(t: Texts, events: seq<(bool, AccountEvent)>, j: nat)
    requires j <= |events|
  {
    FieldsAgree(RunAccount(t, events[..j]))
  }

  /** Event `i` is a login or registration that goes through although the user is logged in. */
  predicate CalledLoggedIn(t: Texts, events: seq<(bool, AccountEvent)>, i: nat)
    requires i < |events|
  {
    var a := RunAccount(t, events[..i]);
    a.loggedIn && Accepted(t, a, events[i].0, events[i].1)
  }

  lemma SamePrefix(t: Texts, events: seq<(bool, AccountEvent)>, j: nat)
    requires j < |events|
    ensures AgreesAt(t, events[..|events| - 1], j) <==> AgreesAt(t, events, j)
    ensures j < |events| - 1 ==> (CalledLoggedIn(t, events[..|events| - 1], j) <==> CalledLoggedIn(t, events, j))
  {
    assert events[..|events| - 1][..j] == events[..j];
  }

  lemma LastEvent(t: Texts, events: seq<(bool, AccountEvent)>)
    requires events != []
    ensures var n := |events| - 1;
      AgreesAt(t, events, n) ==> (AgreesAt(t, events, n + 1) <==> !CalledLoggedIn(t, events, n))
  {
    var n := |events| - 1;
    assert events[..n + 1] == events;
    AlwaysBusyIffPending(t, events[..n]);
    if AgreesAt(t, events, n) {
      AgreementKeptIff(t, RunAccount(t, events[..n]), events[n].0, events[n].1);
    }
  }

  /** Over any run the fields agree throughout exactly when no login or registration goes through
      while the user is logged in. */
  lemma {:induction false} AlwaysAgreeIff(t: Texts, events: seq<(bool, AccountEvent)>)
    ensures (forall j | 0 <= j <= |events| :: AgreesAt(t, events, j))
       <==> (forall i | 0 <= i < |events| :: !CalledLoggedIn(t, events, i))
  {
    if events == [] {
      assert AgreesAt(t, events, 0);
    } else {
      hide *;
      var n := |events| - 1;
      AlwaysAgreeIff(t, events[..n]);
      LastEvent(t, events);
      forall j | 0 <= j <= n
        ensures AgreesAt(t, events[..n], j) <==> AgreesAt(t, events, j)
        ensures j < n ==> (CalledLoggedIn(t, events[..n], j) <==> CalledLoggedIn(t, events, j))
      {
        SamePrefix(t, events, j);
      }
      assert forall j | 0 <= j <= n :: AgreesAt(t, events[..n], j) <==> AgreesAt(t, events, j);
    }
  }

  /** It does happen: logging in once more from the account page leaves the user logged in without a
      profile. */
  lemma SecondLoginBreaksAgreement(
    t: Texts, login: string, password: string, text: string, profile: ProfileInfo)
    requires Complete(t, CallLogin(login, password))
    ensures var events := [(true, CallLogin(login, password)), (true, Result(true, text)),
                           (true, ProfileArrived(profile)), (true, CallLogin(login, password))];
      var a := RunAccount(t, events);
      a.loggedIn && a.profile.None? && !FieldsAgree(a)
  {
    var first, second := (true, CallLogin(login, password)), (true, Result(true, text));
    var third := (true, ProfileArrived(profile));
    var events := [first, second, third, first];
    assert events[..3] == [first, second, third] && events[..3][..2] == [first, second];
    assert [first, second][..1] == [first];
    assert RunAccount(t, [first]) == After(t, INITIAL, true, first.1);
    assert RunAccount(t, [first, second]) == After(t, RunAccount(t, [first]), true, second.1);
    assert RunAccount(t, [first, second, third]) == After(t, RunAccount(t, [first, second]), true, third.1);
  }

  /** Login is called on the login page and registration on the registration page. */
  ghost predicate OnOwnPage(a: AccountState, e: AccountEvent) {
    && (e.CallLogin? ==> a.mode == LoginMode)
    && (e.CallRegister? ==> a.mode == RegisterMode)
  }

  ghost predicate AllOnOwnPage(t: Texts, events: seq<(bool, AccountEvent)>) {
    forall i | 0 <= i < |events| :: OnOwnPage(RunAccount(t, events[..i]), events[i].1)
  }

  /** In every run in which login and registration are only called on their own pages, the fields
      agree throughout. */
  lemma {:induction false} FieldsAlwaysAgree(t: Texts, events: seq<(bool, AccountEvent)>)
    requires AllOnOwnPage(t, events)
    ensures FieldsAgree(RunAccount(t, events))
  {
    if events == [] {
    } else {
      var n := |events| - 1;
      assert AllOnOwnPage(t, events[..n]) by {
        forall i | 0 <= i < n ensures OnOwnPage(RunAccount(t, events[..n][..i]), events[..n][i].1) {
          assert events[..n][..i] == events[..i];
        }
      }
      FieldsAlwaysAgree(t, events[..n]);
      AlwaysBusyIffPending(t, events[..n]);
      AgreementKeptIff(t, RunAccount(t, events[..n]), events[n].0, events[n].1);
    }
  }
}
