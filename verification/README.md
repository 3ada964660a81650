# A verified model of the chat system

This project models the parts of the chat application that carry state or bytes from one place to
another, and proves what they keep:

- the **wire format**: packets as bytes, frames with byte stuffing, and the parser that picks frames
  out of whatever the transport has delivered so far;
- the **server**: connections, registration, login and logout, message routing, chat creation with
  its compensating delete, over tables with cascades and triggers, and the migration loop;
- the **client**: the account state machine, the chat list, the user resolver, and the way a message
  takes from a chat through its sender thread and the main event queue to the socket;
- the **two ends together**: what the client shows and what the server has authorized, over any
  number of reconnections.

Code that updates things in place is modelled by methods with loops and classes. Each method is tied
by its `ensures` to a function of its inputs or of the old state, and the properties are proved about
those functions: for every input, every reachable state or every run. Nondeterminism is a parameter:
the order in which a hash is walked, the UUID that is drawn, and which statement of which step fails.

| file | what it covers |
|---|---|
| `Prelude.dfy`, `History.dfy` | bytes, UUIDs, sequences; what holds after a history |
| `Packet.dfy`, `Framing.dfy` | packet bytes, frames, the parsing automaton |
| `Streams.dfy` | the client's receive buffer and the server's buffer per socket |
| `Tables.dfy`, `Database.dfy` | tables with keys, cascades and triggers; the statements of the server |
| `Migrations.dfy` | the migration loop |
| `ChatCreation.dfy` | creating a chat with its members, all or nothing |
| `ServerModel.dfy`, `ServerProofs.dfy`, `Server.dfy` | the server as a state machine, its invariants, its code |
| `ServerAnswers.dfy` | what each request changes and is answered, told from the request and the rows |
| `Credentials.dfy` | from the words typed in to the rows stored and the logins accepted |
| `Service.dfy` | from interleaved byte streams to runs of the state machine |
| `Account.dfy`, `ChatList.dfy`, `Resolver.dfy` | the three stateful client singletons |
| `Pipeline.dfy` | chats, sender threads, event queue, socket |
| `LoginAgreement.dfy` | client account and server session over FIFO channels |
| `EndToEnd.dfy` | from a chat's submitted messages to another member's session |

Where code and comments disagree, the code is followed: adding a chat whose id is present keeps the
old chat (client/src/ChatManager.h:64 says it is replaced); clearing the resolver's cache also drops
the pending requests (client/src/UserResolver.h:95 says only the cache).

Some expectations are not met without a condition. For each of the first four the model proves exactly
when it holds; for the first three over whole runs, with a run for which it fails:

- the account's fields agree throughout a run exactly when no login or registration goes through while
  the user is logged in (`Account.AlwaysAgreeIff`, `Account.SecondLoginBreaksAgreement`);
- the resolver's username index is the inverse of its cache throughout a history exactly when received
  information fits what is known (`Resolver.AlwaysInverseIff`), and a rename can leave a name that
  resolves to an empty record (`Resolver.RenameLeavesStaleName`);
- chats keep their sizes over a server run exactly when no creation has one of the first three members
  it tries refused and then its compensating delete fail too (`ServerProofs.ServerSizesIff`,
  `ServerProofs.StrandedRun`);
- the first packet after stray bytes is read intact exactly when those bytes ended on a frame
  boundary (`Framing.SelfSynchronisation`);
- client and server agree on who is logged in (`LoginAgreement.Agreement`) as long as nothing but the
  account's own requests is answered by an operation result: the client takes any such result for the
  answer it waits for, so that a failed lookup can pass for a refused logout
  (`LoginAgreement.FailedLookupBreaksAgreement`).

## Model

| member | source | states |
|---|---|---|
| PacketCodec.Serialize | shared/src/Packet.cpp:76-88 | the bytes it appends are the type, both UUIDs and the data, with absent and empty data alike |
| PacketCodec.Deserialize | shared/src/Packet.cpp:48-74 | what it reads step by step is the packet those bytes stand for; too short an input gives the INVALID packet |
| PacketCodec.PacketRoundTrip | shared/src/Packet.cpp:48-88 | reading back a written packet gives the packet, up to "present but empty data = no data" |
| PacketCodec.BytesRoundTrip | shared/src/Packet.cpp:48-88 | any bytes of at least header size are written back identically after being read |
| PacketCodec.Layout | shared/src/Packet.cpp:76-88 | type, sender, receiver and data each stand at their own place |
| PacketCodec.ShortIsInvalid | shared/src/Packet.cpp:50-54 | fewer than 33 bytes are read as a packet of the invalid type, from and to nobody |
| Framing.Encapsulate | shared/src/util.cpp:69-94 | the loop writes the stuffed packet bytes and one delimiter |
| Framing.ParseStream | shared/src/util.cpp:13-67 | the loop over bytes refines the two-state automaton: its packets are those the automaton emits, and what it leaves in the caller's buffer is exactly the raw bytes since the last delimiter |
| Framing.Parse | shared/src/util.cpp:7-11 | the packets of the whole input |
| Framing.ResidueReplays | shared/src/util.cpp:13-67 | scanning the residue afresh leads to the same state as the whole history did, and emits nothing |
| Framing.ParseResumes | shared/src/util.cpp:13-67 | residue plus chunk yields exactly the packets the chunk completes, for every history |
| Framing.ChunkingInvariance | client/src/RequestManager.cpp:24-30 | however a stream is cut into chunks, feeding them one by one gives the packets and the final residue of one parse of the whole |
| Framing.FramesDecode | shared/src/util.cpp:13-94 | encodings back to back parse to the packets, in order, with nothing left |
| Framing.TransportRoundTrip | shared/src/util.cpp:13-94 | the same through any cutting of the stream |
| Framing.FrameResynchronises | shared/src/util.cpp:13-94 | from any state, even inside an escape, one frame completes exactly one packet (given explicitly) and ends on a boundary |
| Framing.SelfSynchronisation | shared/src/util.cpp:13-94 | after any stray bytes: the packets in them, then exactly one packet, then every later packet unchanged and nothing left; the one is the first sent packet if and only if the stray bytes ended on a frame boundary |
| Framing.EncodingIsCanonicalFrame | shared/src/util.cpp:69-94 | every encoding is a canonical frame of length header + data + special bytes + 1 |
| Framing.CanonicalFrameIff | shared/src/util.cpp:13-94 | a byte string is a canonical frame, told by its bytes alone, if and only if it parses to one packet with nothing left and that packet encodes to the same bytes |
| Framing.EncodingInjective | shared/src/util.cpp:69-94 | two packets share an encoding if and only if the wire cannot tell them apart |
| Framing.FrameReads | shared/src/util.cpp:50-58 | any body that is not empty, stuffed and delimited, is read as that body and nothing is left; an empty one is skipped |
| Framing.UnknownEscapeKept | shared/src/util.cpp:24-42 | an escape byte before anything but the two codes is kept together with that byte, in that order, even when it is a delimiter |
| Framing.StuffedBytes | shared/src/util.cpp:74-92 | which bytes are stuffed, and as which pairs |
| Streams.RequestManager.ProcessBytes | client/src/RequestManager.cpp:24-30 | over all calls, the packets processed are those of all bytes received, and the buffer is their residue |
| Streams.StreamIsolation | server/src/Server.cpp:174-247 | for any interleaving over any sockets, a socket's packets are those of its own bytes, connection by connection, in order; its buffer is the residue of the current connection |
| Tables.StatementKeepsCounts | migrations/010_user_stats_triggers.sql:26-47 | every statement, succeeding or failing, with its cascades and triggers, keeps every joined counter equal to the number of memberships |
| Tables.CounterConservation | migrations/010_user_stats_triggers.sql:26-47 | after any run of statements from fresh tables the counters are exact and every membership refers to an existing chat and user |
| Tables.NamesGrow | migrations/010_user_stats_triggers.sql:49-57 | no statement forgets a recorded username |
| Tables.ChangeRecordsName | server/src/Database.cpp:473-538 | a statement that changes a username records the old one, whether the statistics row existed, was absent or held NULL |
| Tables.FormerNamesRecorded | server/src/Database.cpp:446-544 | in any run with failures, a username held at one point and no longer held at a later one is in the user's history ever after |
| Tables.UpdateSetsFields | server/src/Database.cpp:430-468 | after an allowed update each of the four fields has the value named, or its old one, and no other row has changed |
| Tables.HistoryGrowsBy | server/src/Database.cpp:473-538 | an update adds exactly the name held, at the end of the history: always where there is a row, else only when the name changes |
| Tables.OnlyHeldNames | migrations/010_user_stats_triggers.sql:49-57 | no statement records a name the user did not hold |
| Tables.KeysLetIn | server/src/Database.cpp:207-232 | which users, updates and chats the keys let in, told from the rows |
| Tables.StatementKeepsUsersDistinct | server/src/Database.cpp:417-547 | no statement makes two users share a username or an email |
| Tables.DeletedUser | server/src/Database.cpp:234-251 | exactly the user's row and memberships go, and the user's name goes off the chats created |
| Tables.DeletedChat | migrations/003_create_chats.sql:13-26 | exactly the chat's row and memberships go |
| Tables.MembershipRows | server/src/Database.cpp:809-855 | a membership is added or removed alone, and only added when its chat and user exist |
| Store.Database.GetUserById | server/src/Database.cpp:253-287 | the row, or nothing when absent or when the query fails |
| Store.Database.CreateUser | server/src/Database.cpp:207-232 | succeeds exactly when no fault occurs and the keys are free; otherwise changes nothing |
| Store.Database.CreateChat | server/src/Database.cpp:661-685 | likewise, the creator having to exist |
| Store.Database.CreateChatMember | server/src/Database.cpp:809-831 | likewise, with the join trigger in the same statement |
| Store.Database.DeleteChatMember | server/src/Database.cpp:833-855 | removes the row and fires the leave trigger once; nothing when there is no row |
| Store.Database.DeleteChat | server/src/Database.cpp:687-704 | removes the chat and, through the cascade, every membership of it with its trigger |
| Store.Database.DeleteUser | server/src/Database.cpp:234-251 | removes the user and every membership of it, and clears the user as creator of chats |
| Store.Database.CascadeMembers | migrations/003_create_chats.sql:13-26 | removing rows one at a time in any order, each firing the leave trigger, has the effect of removing them together |
| Store.Database.FireTrackOldUsername | migrations/010_user_stats_triggers.sql:49-57 | append the old name where a row exists |
| Store.Database.WriteFormerName | server/src/Database.cpp:473-538 | reading the history back and writing it completed leaves the old name in it once more only if it was missing, in the old row or a new one |
| Store.Database.UpdateUserProfile | server/src/Database.cpp:417-547 | the transaction takes effect wholly or not at all for a failure at any stage, an unacknowledged commit included; history failures count only when the username changes; the result is the new row exactly when it was committed, acknowledged and read back |
| Migrations.MigrationStore.ApplyOne | server/src/Database.cpp:162-200 | script and version become durable together or not at all, for a failure at any stage |
| Migrations.MigrationStore.Init | server/src/Database.cpp:135-205 | the loop has the durable effect of the longest prefix of pending files that does not fail |
| Migrations.AttemptKeepsSound | server/src/Database.cpp:135-205 | one attempt keeps "recorded versions are 1..k and the schema is the first k files", and leaves none pending when it succeeds |
| Migrations.CrashSafety | server/src/Database.cpp:135-205 | the same over any sequence of attempts with an append-only file list, each cut short anywhere, including a commit that takes effect without being acknowledged |
| Migrations.AttemptGoesUpTo | server/src/Database.cpp:161-204 | an attempt applies exactly the files up to the first obstacle, and succeeds if and only if there is none |
| ChatCreation.VerdictIff | server/src/Server.cpp:638-676 | which of the four outcomes a creation has, each told from its inputs: a member is refused if and only if the chat row goes in and one of the chosen users fails |
| ChatCreation.AllOrNothing | server/src/Server.cpp:638-676 | for every order of members and every failure: one new chat with all chosen members and everything else as before; or the same users, chats, members, counters and names as before; or, exactly when the chat goes in, a chosen user fails and so does the delete, the chat with the members ahead of the failure |
| ChatCreation.CreatedMembers | server/src/Server.cpp:638-676 | a created chat's members are exactly the creator and the existing requested users; no other chat's members change |
| ChatCreation.SizesKeptIff | server/src/Server.cpp:652-676 | for any number of members, a creation keeps every direct chat at two members and every group at three or more if and only if it is not the case that the chat goes in, one of the first three users tried fails, and the delete fails |
| ChatCreation.StrandedChat | server/src/Server.cpp:668-675 | an input for which the sizes do go wrong: two users, the second refused, the delete failing |
| ChatCreation.DeleteUndoes | server/src/Database.cpp:687-704 | deleting the new chat takes back the inserted memberships and their counts, and nothing else |
| ServerProofs.StepKeepsSessions | server/src/Server.cpp:184-499 | each step keeps: keys are session ids, authorized means a user id is stored, no two sessions share a user |
| ServerProofs.OneSessionPerUser | server/src/Server.cpp:443-499 | the same in every reachable state, including login of an authorized session as another user |
| ServerProofs.AuthorizedIffLoggedIn | server/src/Server.cpp:443-572 | in every run a session is authorized as a user if and only if it once logged in as that user from its own socket, and since then has neither logged out, nor logged in again, nor been dropped |
| ServerProofs.LoginMatches | server/src/Database.cpp:109-133 | a login succeeds only with the stored name and password hash of that very user |
| ServerProofs.ExactlyOnceRouting | server/src/Server.cpp:891-979 | in every reachable state an accepted message goes out exactly once to each online member but the author, to nobody else, never back to the sender's session, to the right socket and stamped with the authenticated user |
| ServerProofs.NothingElseIsRouted | server/src/Server.cpp:501-541 | any other packet, refused messages included, routes nothing |
| ServerProofs.ServerKeepsTables | server/src/Server.cpp:184-247 | over all server runs the counters are exact and every membership refers to an existing chat and user |
| ServerProofs.StepSizes | server/src/Server.cpp:605-681 | a step keeps every existing chat with its members, and the sizes are right after it if and only if they were right before it and it strands no chat |
| ServerProofs.ServerSizesIff | server/src/Server.cpp:605-681 | over all server runs direct chats have exactly two members and groups at least three if and only if no creation on the way stranded its chat |
| ServerProofs.StrandedRun | server/src/Server.cpp:605-681 | a run in which they go wrong: a session connects, logs in and creates a chat whose second member is refused, and the delete fails |
| ServerAnswers.UnknownIsIgnored | server/src/Server.cpp:316-334 | a session that was never announced gets nothing done and no answer |
| ServerAnswers.AnnouncedOnce | server/src/Server.cpp:358-375 | announcing creates the session, unauthorized, on the socket it came over, and greets it; once only |
| ServerAnswers.ForeignSocket | server/src/Server.cpp:377-711 | over a socket not its own a session is ignored or told that it is not authorized, by kind of request |
| ServerAnswers.NotSignedIn | server/src/Server.cpp:501-711 | without being signed in there is only announcing, registering and signing in |
| ServerAnswers.RegistrationStores | server/src/Server.cpp:377-441 | exactly the row asked for is stored, field by field, if username, display name and keys allow; else nothing changes |
| ServerAnswers.RegistrationRefusals | server/src/Server.cpp:395-437 | the first thing wrong is what the client is told |
| ServerAnswers.LoginIff | server/src/Server.cpp:443-499 | a login signs in as the user whose name and hash are given, if and only if the query works and no other session has that user |
| ServerAnswers.LoginRefusals | server/src/Server.cpp:472-492 | wrong credentials and a user signed in elsewhere are told apart |
| ServerAnswers.LogoutSignsOut | server/src/Server.cpp:543-572 | the session is signed out, stays on its socket, and is told |
| ServerAnswers.ProfileAnswered | server/src/Server.cpp:684-711 | a user gets the own row, or is told that there is none |
| ServerAnswers.UpdateTakesEffect | server/src/Server.cpp:713-817 | an update takes effect if and only if its fields are in order and free and the write works; then each named field has its trimmed value and nothing else has changed |
| ServerAnswers.UpdateRefusals | server/src/Server.cpp:738-807 | the first complaint, in order |
| ServerAnswers.ChatListAnswered | server/src/Server.cpp:249-271 | one list, of exactly the chats the user is a member of, each with its kind, creator and exactly its members |
| ServerAnswers.ChatListsOverRuns | server/src/Server.cpp:249-271 | the same in every reachable state |
| ServerAnswers.SearchAnswered | server/src/Server.cpp:574-603 | one list, of exactly the chats of a matching kind |
| ServerAnswers.LookupAnswered | server/src/Server.cpp:819-889 | the public part of the row with that id or normalized username, or what is wrong with the request |
| ServerAnswers.ChosenIff | server/src/Server.cpp:638-651 | who becomes a member: the creator and every requested user who exists and is found |
| ServerAnswers.CreationRefused | server/src/Server.cpp:652-676 | a request that creates no chat is told why |
| ServerAnswers.CreationAnnounced | server/src/Server.cpp:678-680 | the creator is told of the chat with its kind and members; every signed-in session of a member, and no other, gets one list with the new chat in it |
| ServerAnswers.UpdatedListsAreRight | server/src/Server.cpp:129-144 | each signed-in session of a member gets one list of its own user's chats, and no other session gets any |
| ServerAnswers.MessageRefused | server/src/Server.cpp:891-946 | a message that is not accepted is refused to its sender alone, with the first thing wrong with it |
| ServerAnswers.DisconnectDropsOne | server/src/Server.cpp:277-314 | a closing socket takes exactly one of its sessions with it, if it has any |
| Credentials.UsersStayDistinct | server/src/Database.cpp:207-232 | in every run no two users share a username or an email |
| Credentials.HashIsLastSet | server/src/Database.cpp:442-468 | in every run a user's hash is the one last set, by the registration or by an update of the user's own that was carried out |
| Credentials.LoginNeedsNewHash | server/src/Database.cpp:109-133 | after a change of hash a login needs the new one |
| Credentials.NewHashAdmits | server/src/Server.cpp:443-499 | and the new one is enough |
| Credentials.LoginCarriesWords | client/src/AccountManager.cpp:47-59 | a login that is sent and accepted is one with the normalized name and the hash of the password that were typed in |
| Credentials.RegistrationCarriesWords | client/src/AccountManager.cpp:61-86 | a registration that is sent stores the normalized username, the trimmed display name and email, and the hash |
| Credentials.RegisteredMayLogIn | client/src/AccountManager.cpp:47-86 | whoever registers can log in with the same words, as the new user |
| Service.ProcessSplits | server/src/Server.cpp:174-314 | sockets opening, delivering bytes and closing in any interleaving amount to a run of the state machine over the packets those bytes complete |
| Service.BytesDriveStates | server/src/Server.cpp:174-314 | from bytes to invariants: in every such run each socket's packets are what its own bytes parse to, connection by connection; no two sessions share a user; the counters stay exact |
| Service.NoSessionOutlivesItsSocket | server/src/Server.cpp:174-314 | in every run where bytes arrive on open sockets and each socket carries one session at most, every session's socket is open |
| ServerProcess.Server.SendPacket | server/src/Server.cpp:104-115 | one packet to the session's own socket, none to an unknown session |
| ServerProcess.Server.SendUpdatedChatLists | server/src/Server.cpp:129-144 | a list to each signed-in session of a member, in hash order |
| ServerProcess.Server.OnServerRead | server/src/Server.cpp:184-247 | for all bytes: the buffer afterwards, the packets dispatched, and the state and answers of the run of the state machine over those packets |
| ServerProcess.Server.OnSignal | server/src/Server.cpp:174-314 | buffers, state and answers after any of the three signals are those of one step of the process whose runs are reasoned about |
| ServerProcess.Server.Dispatch | server/src/Server.cpp:198-243 | one packet has the effect and the answers of one step of the state machine whose runs are reasoned about |
| ServerProcess.Server.FindConnection | server/src/Server.cpp:336-345 | the first connection on the socket in hash order, or none |
| ServerProcess.Server.OnClientDisconnected | server/src/Server.cpp:277-314 | drops that connection and the socket's buffer, and nothing else |
| ServerProcess.Server.HandleConnectClient | server/src/Server.cpp:358-375 | a new unauthorized session and its greeting; an announced session id is ignored |
| ServerProcess.Server.HandleRegisterUser | server/src/Server.cpp:377-441 | state and reply on every branch, in the order the checks are made |
| ServerProcess.Server.IsSignedInElsewhere | server/src/Server.cpp:478-492 | the walk finds another session of the user if and only if there is one |
| ServerProcess.Server.HandleLoginUser | server/src/Server.cpp:443-499 | only this session may change, and only to the authenticated user when no other session has it |
| ServerProcess.Server.HandleLogoutUser | server/src/Server.cpp:543-572 | state and reply on every branch |
| ServerProcess.Server.HandleGetUserProfile | server/src/Server.cpp:684-711 | the profile of the authorized user or the refusal |
| ServerProcess.Server.HandleUpdateUserProfile | server/src/Server.cpp:713-817 | the first complaint in the order of the checks, either uniqueness query failing by itself; a failed update; an update whose profile cannot be read again; or the committed update with both answers |
| ServerProcess.Server.HandleGetUserInfo | server/src/Server.cpp:819-889 | every refusal in the order of the checks, or the public information of the user with that id or normalized name |
| ServerProcess.Server.HandleGetChats | server/src/Server.cpp:249-271 | the user's chats with kind, creator and members, or the refusal |
| ServerProcess.Server.HandleSearchChats | server/src/Server.cpp:574-603 | the refusals, or the chats whose kind matches the query |
| ServerProcess.Server.CollectMembers | server/src/Server.cpp:638-651 | the loop collects the creator and every requested user who is found, whatever the order and repetitions |
| ServerProcess.Server.InsertMembers | server/src/Server.cpp:669-676 | the longest prefix whose insertions succeed, and whether that was all |
| ServerProcess.Server.CreateChatRows | server/src/Server.cpp:638-676 | tables and verdict of the creation that the all-or-nothing law is about |
| ServerProcess.Server.HandleCreateChat | server/src/Server.cpp:605-681 | the refusals, or the creation with its announcements |
| ServerProcess.Server.HandleChatMessage | server/src/Server.cpp:891-979 | every refusal in the order of the checks, or the routed copies |
| ServerProcess.Server.RouteMessage | server/src/Server.cpp:958-979 | the walk over the connections sends the copies that exactly-once routing counts |
| ServerProcess.Server.HandleAuthorizedPacket | server/src/Server.cpp:501-541 | only authorized sessions get through, and only chat messages have an effect |
| Account.AccountManager.ShowLoginPage | client/src/AccountManager.cpp:33-38 | the account page instead of the login page when logged in; nothing while busy |
| Account.AccountManager.ShowRegisterPage | client/src/AccountManager.cpp:40-45 | nothing while busy or logged in |
| Account.AccountManager.Login | client/src/AccountManager.cpp:47-59 | sends exactly when idle, connected and complete, and then forgets the profile |
| Account.AccountManager.RegisterAccount | client/src/AccountManager.cpp:61-86 | likewise for a registration, with the complaint about the username |
| Account.AccountManager.Logout | client/src/AccountManager.cpp:88-98 | sends exactly when idle, connected and logged in |
| Account.AccountManager.OnConnectionStatusChanged | client/src/AccountManager.cpp:113-120 | a lost connection returns every field to the start |
| Account.AccountManager.OnOperationResultReceived | client/src/AccountManager.cpp:122-191 | the next state for every pending action and either outcome, and when the profile is asked for |
| Account.AccountManager.OnCurrentUserProfileReceived | client/src/AccountManager.cpp:193-209 | completes a login, refreshes a shown profile, or is ignored |
| Account.AlwaysBusyIffPending | client/src/AccountManager.cpp:33-209 | in every run, busy if and only if an action is pending |
| Account.AgreementKeptIff | client/src/AccountManager.cpp:47-86 | an event keeps "logged in iff profile stored, account page iff logged in or fetching" if and only if it is not a login or registration that goes through while logged in |
| Account.AlwaysAgreeIff | client/src/AccountManager.cpp:33-209 | over any run those fields agree throughout if and only if no login or registration goes through while logged in |
| Account.SecondLoginBreaksAgreement | client/src/AccountManager.cpp:47-59 | a run in which it does: logging in again from the account page leaves the user logged in without a profile |
| Account.FieldsAlwaysAgree | client/src/AccountManager.cpp:33-209 | in every run with login and registration called on their own pages the fields agree throughout |
| Account.LoginSentIff | client/src/AccountManager.cpp:47-59 | a login goes out if and only if idle, connected and complete, with the normalized name and the hashed password; else nothing changes |
| Account.RegistrationSentIff | client/src/AccountManager.cpp:61-86 | likewise for a registration and its four fields, with the complaint about the username |
| Account.OtherRequests | client/src/AccountManager.cpp:88-191 | when a logout goes out and when the profile is asked for; nothing else sends |
| Account.RefusalShown | client/src/AccountManager.cpp:122-191 | a refusal is shown with its text and ends the wait |
| Account.IgnoredResults | client/src/AccountManager.cpp:122-191 | results nobody waits for change nothing |
| Account.StartsOver | client/src/AccountManager.cpp:113-120 | a lost connection and a completed logout return the account to where it started |
| Account.PagesShown | client/src/AccountManager.cpp:33-45 | which page comes up for whom |
| Account.RegistrationEnds | client/src/AccountManager.cpp:122-191 | a successful registration ends on the login page with nothing pending |
| Account.WholeLogin | client/src/AccountManager.cpp:47-209 | a whole login, from idle to the received profile on the account page, and what it sends |
| Account.UnaskedProfile | client/src/AccountManager.cpp:193-209 | a profile nobody asked for replaces the one shown, or is ignored by anyone not logged in |
| ChatList.ChatManager.SelectChat | client/src/ChatManager.cpp:25-35 | the chat with that id, or the old selection |
| ChatList.ChatManager.UnselectChat | client/src/ChatManager.cpp:37-43 | no selection |
| ChatList.ChatManager.AddChat | client/src/ChatManager.cpp:45-52 | hash and list gain the chat together, or keep the one they have |
| ChatList.ChatManager.RemoveChat | client/src/ChatManager.cpp:54-71 | hash and list lose exactly the chat with that id, and the selection if it was that |
| ChatList.ChatManager.RemoveUnless | client/src/ChatManager.cpp:110-115 | removing while walking a copy leaves exactly the chats whose ids are listed, in order |
| ChatList.ChatManager.OnChatListReceived | client/src/ChatManager.cpp:85-119 | survivors as the same objects in the old order, then new ids by first occurrence; members of the last entry without the current user; selection kept iff its id was received; hash and list stay a duplicate-free bijection |
| ChatList.ChatManager.ClearChatList | client/src/ChatManager.cpp:126-133 | nothing stored, listed or selected |
| ChatList.FreshIdsMeaning | client/src/ChatManager.cpp:90-107 | the new ids are those received and not known, each once, one before another if and only if it was named first |
| ChatList.LastMembersMeaning | client/src/ChatManager.cpp:94-104 | a chat's members are those of the last entry that names it |
| Resolver.UserResolver.ResolveUserById | client/src/UserResolver.cpp:28-46 | the cached information, or one request unless one is under way |
| Resolver.UserResolver.ResolveUserByName | client/src/UserResolver.cpp:48-67 | likewise by normalized name, through the index |
| Resolver.UserResolver.InvalidateUserById | client/src/UserResolver.cpp:69-76 | drops the entry, its indexed name and the request |
| Resolver.UserResolver.InvalidateUserByName | client/src/UserResolver.cpp:78-92 | drops the name and, through the index, the entry |
| Resolver.UserResolver.ClearAll | client/src/UserResolver.cpp:94-100 | nothing cached, indexed or pending |
| Resolver.UserResolver.OnPublicUserInfoReceived | client/src/UserResolver.cpp:102-116 | the newest information under both keys, neither pending any more |
| Resolver.UserResolver.OnOperationResultReceived | client/src/UserResolver.cpp:118-125 | an error ends every wait and keeps the cache |
| Resolver.UserResolver.OnConnectionStatusChanged | client/src/UserResolver.cpp:127-134 | so does a lost connection |
| Resolver.CachedNotPending | client/src/UserResolver.cpp:28-134 | in every run no id and no username is both cached and pending |
| Resolver.LookupById | client/src/UserResolver.cpp:28-116 | over any history a lookup hits if and only if information was received and not dropped since, and returns the newest |
| Resolver.IndexedIff | client/src/UserResolver.cpp:69-116 | over any history a name leads to a user if and only if some information gave it to that user and it was neither dropped nor given anew since |
| Resolver.AnswerToId | client/src/UserResolver.cpp:28-46 | what a resolve by id returns, told from the history: the newest information not dropped since, or nothing |
| Resolver.AnswerToName | client/src/UserResolver.cpp:48-67 | likewise by name: what is cached for the user the name leads to, an empty record if that was dropped, or nothing |
| Resolver.PendingIff | client/src/UserResolver.cpp:28-134 | over any history a key is pending if and only if some connected resolve of it found nothing known and no later event settled it |
| Resolver.AsksWhenPending | client/src/UserResolver.cpp:36-45 | a request goes out at exactly the events that make their key pending |
| Resolver.NoSecondRequest | client/src/UserResolver.cpp:28-67 | between two requests for one key something settled the first |
| Resolver.InverseKeptIff | client/src/UserResolver.cpp:102-116 | an event keeps the index the exact inverse of the cache if and only if received information fits what is known |
| Resolver.AlwaysInverseIff | client/src/UserResolver.cpp:28-134 | over any history the index is the exact inverse of the cache throughout if and only if everything received fits what was known at its moment |
| Resolver.IndexIsInverse | client/src/UserResolver.cpp:28-134 | in particular while ids and usernames stay one-to-one |
| Resolver.LookupByName | client/src/UserResolver.cpp:48-67 | then a hit by name is for that name and equals the lookup by that user's id |
| Resolver.RenameLeavesStaleName | client/src/UserResolver.cpp:69-116 | a rename followed by an invalidation leaves the old name resolving to an empty record |
| Pipeline.RunInvariants | client/src/Client.cpp:79-100 | in every interleaving the wire is the frames of the writes run so far, in order, and each chat's messages and the interface's requests are all accounted for |
| Pipeline.WireMerge | client/src/MessageSender.cpp:15-30 | in every interleaving, however the transport cuts the bytes, they decode to the packets written with nothing left; per chat, submitted = written, then waiting in the main queue, then in the sender, then in its inbox; requested by the interface = written, then waiting: nothing lost, doubled or reordered |
| Pipeline.SubmittedIsAsked | client/src/Chat.cpp:39-49 | what counts as submitted is every message handed in whose text is not blank, in order |
| Pipeline.OneNoticeEach | client/src/MessageSender.cpp:25-29 | in every interleaving each posted message gets one notice, in order, and is marked as sent if and only if that notice has been run |
| Pipeline.WrittenWhileConnected | client/src/MessageSender.cpp:15-30 | in every interleaving each message on its way was posted while connected, under the user and for the chat it was written in |
| Pipeline.StepNotices | client/src/MessageSender.cpp:25-29 | each step keeps every notice behind the write it reports |
| Pipeline.SentMeansWritten | client/src/Chat.cpp:101-105 | in every interleaving a message marked as sent was submitted and its whole frame stands on the wire between whole frames |
| LoginAgreement.HandleIsLocal | server/src/Server.cpp:184-247 | any packet changes and answers no session but its sender's, moves no session to another socket, and addresses everything to the right socket |
| LoginAgreement.RequestServed | server/src/Server.cpp:377-711 | the account's request gets exactly one answer, and the answer matches the session it leaves behind |
| LoginAgreement.DeliverKeepsGood | client/src/AccountManager.cpp:122-209 | consuming an answer takes the conversation to its next stage with nothing else on its way; the first content of a connection, read as anything at all, is ignored |
| LoginAgreement.ServeStaleKeepsGood | server/src/Server.cpp:358-375 | what is still read from a connection the client has dropped, requests of any kind included, cannot disturb the new one |
| LoginAgreement.StepKeepsGood | client/src/AccountManager.cpp:33-209 | every move keeps both ends in step: of the account, of the rest of the client asking for anything at any time, of the server, the network or another client |
| LoginAgreement.Agreement | client/src/AccountManager.cpp:193-209 | in every reachable state with the connection held by both ends, a client that shows itself logged in with no logout pending has a session on this very connection authorized as exactly the profile's user, and no other session is |
| LoginAgreement.ProfileShown | client/src/AccountManager.cpp:193-209 | the profile that ends a login is shown field by field, and the chats are asked for |
| LoginAgreement.RefusalReachesAccount | client/src/AccountManager.cpp:122-191 | what the server refuses with is what the account shows |
| LoginAgreement.FailedLookupBreaksAgreement | client/src/AccountManager.cpp:122-191 | from any settled logged-in state, a failing lookup followed by a logout ends with the client logged in, nothing pending and its session logged out on the server |
| EndToEnd.HeardIsRead | server/src/Server.cpp:891-979 | over any server run, a member's session is sent exactly the texts of the chat's messages read from a socket, each once and in order, if they are accepted and the session is signed in when they are handled |
| EndToEnd.WireReads | client/src/MessageSender.cpp:15-30 | in every interleaving of sender threads and interface, what is written reads as the chat's messages in order of submission, as far as they are written |
| EndToEnd.DeliveredInOrder | server/src/Server.cpp:184-247 | the two together, through any cutting of the stream and any interleaving with other sockets: messages reach every other member's session in order of submission, none twice and none passed over, as far as their bytes have arrived, and all of them once everything written has |

## Left out

- Payload formats (JSON), UUID text, password hashing, trimming and the username rule: parameters of the model, so the results hold for any of them.
- Sockets as operating system objects, write errors, event loop internals, logging, settings and the user interface. Every slot is one atomic step.
- ServerProcess.Server.OnServerRead: one call is one pass of the read loop; while the socket has more, further passes are further calls.
- ServerProcess.Server.HandleGetChats: a list is the chats with kind, creator and members; their creation times and the order by them are clock values and not modelled, nor a list in which some member queries fail and others do not.
- ServerProcess.Server.HandleSearchChats: likewise; which kinds a query text matches is a parameter.
- ServerProcess.Server.SendUpdatedChatLists: likewise, for the lists it sends.
- ServerProcess.Server.HandleCreateChat: likewise, for the announced chat.
- Message persistence and the message counters: no handler of the server inserts messages.
- A chat's own message storage and list, and message states other than sent.
- Non-key column checks and counter overflow in the database: they count among the faults, which leave the tables unchanged.
- ServerProofs.OneSessionPerUser: one socket may announce several session ids, as in the code; a disconnect then drops only the first found, so no bijection of sessions and sockets is claimed.
- ServerProofs.ExactlyOnceRouting: like the code it does not compare the receiving socket with the session's socket for chat messages.
- Resolver.LookupById: the null id is excluded, since the resolver answers it without consulting the cache.
- Pipeline.WireMerge: the connection is assumed to stay up while the main thread writes; a sender thread that finds the client disconnected waits, and writes that fail on a broken socket are not modelled.
- LoginAgreement.Agreement: assumes that login and registration are called on their own pages and after the first content of the connection has been consumed, that what the client asks for besides its account requests and the list fetched on login is not answered by an operation result or a profile on the live connection, that a new connection gets a socket not in use, and that other clients use their own sockets and session ids.
- Credentials.RegistrationCarriesWords: assumes that the server reads the credentials the client writes, that both ends trim and check usernames alike, that trimming twice is trimming once, and that a valid username has nothing to trim.
- Service.NoSessionOutlivesItsSocket: a socket that announced several session ids keeps all but one of them when it closes, as in the code; the result assumes one session a socket.
- EndToEnd.DeliveredInOrder: assumes that both ends read the message format alike, that the interface itself requests no message for the chat, and that the socket was opened once.
