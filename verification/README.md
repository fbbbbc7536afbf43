# Mesty: verified model of the backend's state machines

Mesty is a messenger backend over Postgres and Redis. This project models the parts of it
whose correctness depends on more than one statement: allocation of one-time prekeys under
concurrency, keyset pagination, two rate limiters, one-time codes, call lifecycle, group
roles and private chats, group-key rotation, the phone-hash index, the session cache, unread
counts and story grouping.

A table or a Redis key is a field of a class (a map, set or sequence), and one SQL statement
or one Lua script is one atomic step. Each class method is proved against a function on the
state, and the theorems are about those functions over all runs. Time is a number; clocks,
random draws and fresh UUIDs are parameters.

## Layout

| file | what it holds |
|---|---|
| `Prelude.dfy` | result types, identifiers, small set lemmas |
| `Keyset.dfy`, `Paging.dfy` | order theory of cursors; the shared probe, truncate and next-cursor protocol |
| `ChatList.dfy`, `MessagePages.dfy`, `Notifications.dfy` | the three paginated endpoints |
| `Prekeys.dfy` | the one-time prekey pool and its cached counter |
| `SlidingWindow.dfy`, `FixedWindow.dfy` | the two rate limiters |
| `Otp.dfy` | one-time codes and their attempt counter |
| `Calls.dfy`, `CallInterleaving.dfy` | call lifecycle, with events atomic and with database calls interleaved |
| `KeyRotation.dfy`, `Chats.dfy`, `ChatRuns.dfy` | participants, group roles, ownership, private chats, each method one step |
| `ChatInterleaving.dfy` | the same methods with checks and writes apart |
| `PhoneIndex.dfy` | the `phone_hashes` set, its migration, contact sync |
| `Sessions.dfy` | sessions and the validation cache |
| `Unread.dfy` | status rows, unread counts, `mark_messages_read` |
| `Stories.dfy` | grouping of the story list |

## Granularity and assumptions

- Prekeys: a bundle fetch is three steps (lock a row, write both updates, commit or abort). An
  upload is taken whole or as three steps: the insert, the count of the recount statement in its
  own snapshot, and its write once the key row can be locked. A write that has to wait for a row
  lock happens in a later step.
- Calls: `Calls` takes a whole WebSocket event as one step, `CallInterleaving` one database call.
- Sessions: a validation that misses the cache is two steps, the database check and the cache
  write; the longest time between them is a parameter, 0 for an atomic validation.
- Chats: `ChatRuns` takes a repository method as one step, `ChatInterleaving` takes its reads and checks
  as one step and its write as a later one; `AtomicIsCheckAndWrite` ties the two.
- Every other repository method is one step.
- UUIDs drawn by the server are fresh, hashes do not collide, Redis and Postgres calls succeed,
  and clocks do not run backwards where a lemma says so.
- Calls of the sliding limiter may form the same sorted-set member. `RefinesMemberRule` and
  `MembersNeverExceed` hold for every run; what they say about admissions is exact where the
  admissions of the window formed different members (`WindowIsCountIff`).
- The contact index is assumed complete at the start of a run (before the migration: complete for
  the users it does not touch), and `update` is called with the hash of the new phone or with the
  stored pair.

## Where code and documentation differ

The model follows the code.

- The service's documentation says a caller who hangs up before an answer leaves the call
  `Missed` (crates/domain/src/call/service.rs:94); the hangup branch asks for `Ended` first. Taken
  as one step this succeeds for every active call, so `Missed` is never its outcome
  (`HangupNeverMissed`). With database calls interleaved, `Missed` is stored only for a call that
  was over and became active again (`MissedOnlyAfterRevival`), and a run reaches it
  (`MissedIsReachable`).
- `delete_invite_link` sends an empty slug to delete the link, but `set_invite_link` draws a new
  random one for an empty slug; a chat that ever had a link keeps one (`LinkIsNeverRemoved`).
- Paging messages with direction `before`, the handler truncates after the repository has reversed
  the rows. It drops the newest row, and continues from the newest row it kept
  (`HandlerBeforeStep`, `NewestNeverShown`, `HandlerBeforeCompleteIff`).
- At the maximum page size of 50 the probe row is clamped away, so `has_more` is never set
  (`RespondMeaning`, `FollowCompleteIff`).
- Sending a message writes a status row for the sender too, and no mark ever covers it
  (`OwnMessagesStayUnread`, `MarkingAllLeavesOwn`).
- The role checks of a group method run before its transaction. Two transfers at once leave two owners
  (`TwoOwnersAreReachable`), and removing the user who is just becoming owner leaves none
  (`RemovalOfNewOwner`); `WriteKeepsOneOwnerIff` says exactly which writes are safe. Likewise two users
  who open a chat with each other at once get two (`TwoPrivateChatsAreReachable`).
- A stored prekey count can exceed the keys that are left, through a fetch that marks before the
  key row exists (`UncountedMarkExceeds`) or a recount that waits for a fetch
  (`StaleRecountExceeds`); `StepKeepsBoundIff` says exactly when.
- The count returned by `mark_messages_read` includes rows read before by a later mark
  (`CountIsDropIff`, `CountWithoutDropIsReachable`).

## Model

| member | source | states |
|---|---|---|
| Prekeys.NeverHandedTwice | migrations/011_stories_notifications_audit.sql:96-110 | over every interleaving no two committed fetches return the same (user, key id), and the consumed rows are exactly those the committed fetches took |
| Prekeys.RowsPermanent | crates/infrastructure/src/repositories/keys.rs:59-71 | an uploaded row keeps its content for good and stays consumed once consumed, even if its id is uploaded again |
| Prekeys.BatchPresent | crates/infrastructure/src/repositories/keys.rs:59-71 | after an upload the user has every key id of the batch, new or from before |
| Prekeys.BeginTakesLowest | migrations/011_stories_notifications_audit.sql:103 | a fetch takes a key iff a free key exists that no running fetch holds, and every lower free key is held by another fetch |
| Prekeys.CommitMeaning | migrations/011_stories_notifications_audit.sql:103-109 | a commit ends its fetch and hands out exactly the key it marked |
| Prekeys.AbortReturnsKey | migrations/011_stories_notifications_audit.sql:103 | after an abort the key can be taken by the next fetch, and nothing else has changed |
| Prekeys.UpsertStores | crates/infrastructure/src/repositories/keys.rs:27-46 | an upsert that does not wait stores exactly the given keys, over old ones too, with the old count or 0 |
| Prekeys.StoredKeysAreLastUpsert | crates/infrastructure/src/repositories/keys.rs:21-49 | over all runs the identity key and signed prekey stored, and so returned by a fetch, are those of the user's last upsert that ran |
| Prekeys.RowsComeFromUploads | crates/infrastructure/src/repositories/keys.rs:59-71 | over all runs every stored prekey is one its user uploaded under that id |
| Prekeys.FirstKeyIsStored | crates/infrastructure/src/repositories/keys.rs:59-71 | the first key uploaded under a new id is stored as a free key, and keys are numbered, and so handed out, in the order of the upload |
| Prekeys.StepKeepsBoundIff | crates/infrastructure/src/repositories/keys.rs:51-90 | exactly which steps break the bound of one user's stored count, whatever other users do: an uncounted commit without slack, and the write of a count that is by now too high |
| Prekeys.BoundedThroughoutIff | crates/infrastructure/src/repositories/keys.rs:51-90 | over all runs the stored count of a user stays within their unconsumed keys throughout iff no step of the run is one of those |
| Prekeys.StepKeepsExactIff | migrations/011_stories_notifications_audit.sql:104-107 | exactly which steps make an exact count wrong |
| Prekeys.CountNeverExceeds | crates/infrastructure/src/repositories/keys.rs:73-87 | over all runs the stored count of a user never exceeds their unconsumed keys if every fetch of that user's keys finds their key row when it marks, and none commits while one of the user's recounts waits; what happens to other users' keys does not matter |
| Prekeys.CountExactWhenSynced | crates/infrastructure/src/repositories/keys.rs:51-90 | from the first upload after the key row exists the stored count equals the number of unconsumed keys, until a step that `StepKeepsExactIff` names |
| Prekeys.UncountedMarkExceeds | migrations/011_stories_notifications_audit.sql:105-106 | a concrete run with a fetch that starts before the key row exists ends with a stored count of 1 and no key left |
| Prekeys.StaleRecountExceeds | crates/infrastructure/src/repositories/keys.rs:73-87 | a recount whose snapshot lies between the mark and the commit of a fetch leaves an exact count one too high, from every state |
| Prekeys.StaleRecountIsReachable | crates/infrastructure/src/repositories/keys.rs:73-87 | such a run from the empty tables |
| Prekeys.PrekeyStore.UpsertKeys | crates/infrastructure/src/repositories/keys.rs:21-49 | replaces the keys and leaves the stored count as it was, unless a fetch holds the key row, when it waits and changes nothing |
| Prekeys.PrekeyStore.AddOneTimePrekeys | crates/infrastructure/src/repositories/keys.rs:51-90 | the undisturbed upload: inserts the batch, skipping ids the user already has, then recounts |
| Prekeys.PrekeyStore.CountPrekeys | crates/infrastructure/src/repositories/keys.rs:76-79 | the recount's subselect, remembered with its user |
| Prekeys.PrekeyStore.WritePrekeyCount | crates/infrastructure/src/repositories/keys.rs:73-87 | the recount's write of what it remembered, once no fetch holds the key row |
| Prekeys.PrekeyStore.InsertPrekeys | crates/infrastructure/src/repositories/keys.rs:59-71 | the loop over the batch equals inserting its keys one after the other, each only if its id is new to the user |
| Prekeys.PrekeyStore.GetPrekeyCount | crates/infrastructure/src/repositories/keys.rs:125-137 | under the bound the number promises at most the unconsumed keys, a positive one that a key is left, and an exact count all of them |
| Prekeys.PrekeyStore.LockPrekey | migrations/011_stories_notifications_audit.sql:103 | the locking select as a step of the pool |
| Prekeys.PrekeyStore.MarkPrekey | migrations/011_stories_notifications_audit.sql:105-106 | the two uncommitted updates, the count never below 0 |
| Prekeys.PrekeyStore.CommitFetch | migrations/011_stories_notifications_audit.sql:104-108 | makes the updates visible and returns the key row with the key taken, or nothing without a key row |
| Prekeys.PrekeyStore.AbortFetch | migrations/011_stories_notifications_audit.sql:103-107 | gives back the lock and both uncommitted updates |
| Keyset.CutBelow | crates/api/src/handlers/chats/handlers.rs:673 | the rows strictly below a listed row are listed as the rest of the listing after it |
| Keyset.SplitAt | crates/infrastructure/src/repositories/chat.rs:492-507 | an ascending listing is the rows below any cursor, the cursor if it is a row, and the rows above it |
| Paging.TruncatePage | crates/api/src/handlers/chats/handlers.rs:668-673 | the items kept, the probe flag and the cursor of a page |
| Paging.RespondMeaning | crates/api/src/handlers/chats/handlers.rs:659-673 | a page is the first rows under the cursor; `has_more` is set iff rows remain and the page size is below 50; the cursor is the last row |
| Paging.PageSizes | crates/api/src/handlers/chats/handlers.rs:659-671 | a page holds as many rows as asked for, within 1 to 50, or all that remain |
| Paging.HasMoreExact | crates/api/src/handlers/chats/handlers.rs:659-671 | `has_more` tells the truth iff the page size is below 50 or at most 50 rows remain |
| Paging.NextDrops | crates/api/src/handlers/chats/handlers.rs:668-673 | a page followed by the listing under its next cursor is the listing under the old cursor |
| Paging.ExhaustListsAll | crates/api/src/handlers/chats/handlers.rs:654-682 | walking to an empty page lists every row once, in order, at every limit |
| Paging.FollowLists | crates/api/src/handlers/chats/handlers.rs:654-682 | what a client following `has_more` is shown, for every limit |
| Paging.FollowCompleteIff | crates/api/src/handlers/chats/handlers.rs:654-682 | following `has_more` lists everything iff the page size is below 50 or one page suffices |
| ChatList.CursorIsSuccessor | crates/infrastructure/src/repositories/chat.rs:293-312 | the three-disjunct predicate, with NULL times as epoch, holds iff the row comes after the cursor's row in the ORDER BY |
| ChatList.QueryKeys | crates/infrastructure/src/repositories/chat.rs:238-364 | the repository query returns the previews of exactly the rows the paging protocol fetches |
| ChatList.TruncateItems | crates/api/src/handlers/chats/handlers.rs:105-110 | the items kept, the probe flag and the cursor that leads back to the last item kept |
| ChatList.ListChats | crates/api/src/handlers/chats/handlers.rs:91-119 | the endpoint's items, next cursor and `has_more` are those of the paging protocol |
| ChatList.WalkListsEveryChatOnce | crates/infrastructure/src/repositories/chat.rs:293-313 | below 50 the walk lists every chat of the user exactly once, in ORDER BY order, pinned chats first |
| ChatList.WalkAtMaximum | crates/infrastructure/src/repositories/chat.rs:244 | at 50 the walk by `has_more` is complete iff there are at most 50 chats; walking to an empty page always is |
| MessagePages.QueryIsPage | crates/infrastructure/src/repositories/chat.rs:449-525 | both directions select exactly the undeleted messages strictly below or above the cursor, in chronological order |
| MessagePages.BeforeWalkLists | crates/infrastructure/src/repositories/chat.rs:449-525 | repository pages continued from their first row list all older messages once, in order |
| MessagePages.AfterWalkLists | crates/infrastructure/src/repositories/chat.rs:449-525 | repository pages continued from their last row list all newer messages once, in order |
| MessagePages.WalksMeet | crates/infrastructure/src/repositories/chat.rs:449-525 | from any cursor, its message deleted or not, the before walk, the message if it is still shown and the after walk are the whole chat in order, each message once |
| MessagePages.ListPage | crates/api/src/handlers/chats/handlers.rs:184-206 | the page and next cursor for one direction, by truncating the fetched rows |
| MessagePages.ListChatMessages | crates/api/src/handlers/chats/handlers.rs:166-208 | the endpoint's page and next cursor for each direction, and the refusal of any other direction |
| MessagePages.LimitMeaning | crates/api/src/handlers/chats/handlers.rs:172 | the page size by default and for every request |
| MessagePages.DirectionMeaning | crates/api/src/handlers/chats/handlers.rs:173-181 | asked for "before" or for nothing the endpoint shows undeleted messages of the chat older than the cursor, asked for "after" newer ones |
| MessagePages.FirstPages | crates/api/src/handlers/chats/handlers.rs:166-208 | without a cursor a chat that fits on one page is shown whole, in order, in both directions |
| MessagePages.HandlerAfterStep | crates/api/src/handlers/chats/handlers.rs:172-201 | forwards, the handler's pages tile the newer messages, and when `has_more` is truthful |
| MessagePages.HandlerBeforeStep | crates/api/src/handlers/chats/handlers.rs:196-201 | backwards, a page with more omits the newest message and its cursor moves back by two messages only |
| MessagePages.NewestNeverShown | crates/api/src/handlers/chats/handlers.rs:196-201 | the newest message under the cursor is on no page of such a walk |
| MessagePages.HandlerBeforeCompleteIff | crates/api/src/handlers/chats/handlers.rs:166-208 | the backwards walk through the handler shows every older message iff they fit on its first page |
| Notifications.NotificationStore.CreateNotification | crates/infrastructure/src/repositories/chat.rs:1136-1177 | adds one unread row |
| Notifications.NotificationStore.MarkNotificationRead | crates/infrastructure/src/repositories/chat.rs:1179-1203 | reads the user's own unread row, and fails for any other |
| Notifications.NotificationStore.MarkAllNotificationsRead | crates/infrastructure/src/repositories/chat.rs:1205-1223 | leaves nothing unread for the user and counts the rows that were |
| Notifications.NotificationStore.DeleteReadNotifications | crates/infrastructure/src/repositories/chat.rs:1225-1242 | deletes the user's read rows and counts them |
| Notifications.NotificationStore.ListNotifications | crates/api/src/handlers/chats/handlers.rs:654-682 | the endpoint's page is the paging protocol's page on the user's rows of the moment, with those rows |
| Notifications.RunStable | crates/infrastructure/src/repositories/chat.rs:1136-1242 | no run changes a row's owner or creation time or brings a deleted id back |
| Notifications.RowStep | crates/infrastructure/src/repositories/chat.rs:1179-1242 | what one event does to one row: it goes only when its user clears read rows, and changes only when its user first reads it |
| Notifications.EventsExplainRows | crates/infrastructure/src/repositories/chat.rs:1136-1242 | over all runs a stored notification is as its creation made it, and is read exactly when an event of its own user read it, at the time of that event |
| Notifications.NoRowTwice | crates/api/src/handlers/chats/handlers.rs:654-682 | whatever is inserted, read or deleted between pages, no row is returned on two pages |
| Notifications.PageHasNoRepeats | crates/api/src/handlers/chats/handlers.rs:663-671 | nor twice on one page |
| Notifications.PersistentRowListed | crates/api/src/handlers/chats/handlers.rs:654-682 | a finished walk returns every row that was in the table throughout |
| Notifications.PresentById | crates/infrastructure/src/repositories/chat.rs:1136-1242 | a row seen at the start is present throughout iff its id is |
| Notifications.RemainingShrinks | crates/api/src/handlers/chats/handlers.rs:668-673 | if inserts are newer than all earlier rows, each page shrinks the rows below the cursor by at least its size |
| Notifications.WalkCanFinish | crates/api/src/handlers/chats/handlers.rs:654-682 | from every table a client left alone has a finished walk |
| Notifications.WalkTerminates | crates/api/src/handlers/chats/handlers.rs:654-682 | such a walk makes at most one request more than there were rows at its start |
| SlidingWindow.RefinesMemberRule | crates/infrastructure/src/cache/rate_limiter.rs:33-66 | over every run pruning and key expiry admit a call iff fewer than `limit` different members were admitted in the window, and report their number |
| SlidingWindow.RefinesHistoryRule | crates/infrastructure/src/cache/rate_limiter.rs:33-66 | the reported number is the number of admissions in the window iff those formed different members, and then the call is admitted iff the pure history rule admits it |
| SlidingWindow.RunIsRuleRun | crates/infrastructure/src/cache/rate_limiter.rs:33-66 | a run whose admissions formed different members admits exactly what the history rule admits |
| SlidingWindow.MembersNeverExceed | crates/infrastructure/src/cache/rate_limiter.rs:33-66 | over every run no interval (T - window, T] holds more than `limit` different members |
| SlidingWindow.WindowIsCountIff | crates/infrastructure/src/cache/rate_limiter.rs:45 | the members of an interval are as many as its admissions iff no two of these formed the same member |
| SlidingWindow.LimiterNeverExceeds | crates/infrastructure/src/cache/rate_limiter.rs:33-66 | over every run an interval (T - window, T] holds at most `limit` admissions if the admissions in it formed different members |
| SlidingWindow.RuleNeverExceeds | crates/infrastructure/src/cache/rate_limiter.rs:40-50 | the bound for the history rule alone, wherever the interval lies |
| SlidingWindow.CollisionsEscapeTheLimit | crates/infrastructure/src/cache/rate_limiter.rs:45 | calls that form the same member are all admitted at every limit from 2 on, however many fall into one window |
| SlidingWindow.ResetMeaning | crates/infrastructure/src/cache/rate_limiter.rs:66-73 | the reported second is the last full one before the window of the call has passed |
| SlidingWindow.KeyExpiry | crates/infrastructure/src/cache/rate_limiter.rs:46 | the key goes exactly one second after the window of its last admission |
| SlidingWindow.EmptyAfterReset | crates/infrastructure/src/cache/rate_limiter.rs:33-66 | without further calls a call after that second is the first of its window |
| SlidingWindow.RateLimiter.CheckRateLimit | crates/infrastructure/src/cache/rate_limiter.rs:13-74 | the script's new sorted set, expiry and reply |
| FixedWindow.NeverMoreThan | crates/api/src/services/rate_limit.rs:14-37 | any closed interval k windows long holds at most (k + 1) * limit admissions, over every history |
| FixedWindow.BoundIsTight | crates/api/src/services/rate_limit.rs:14-37 | some history attains that bound, for every k and limit |
| FixedWindow.ZeroWindowNeverRefuses | crates/api/src/services/rate_limit.rs:22-36 | with a window of 0 no call is ever refused, so the bound needs a positive window |
| FixedWindow.FixedWindowLimiter.CheckRateLimit | crates/api/src/services/otp.rs:214-238 | INCR and EXPIRE on the counter key, and the answer |
| Otp.LiveCounterImpliesLiveCode | crates/api/src/services/otp.rs:112-140 | in every reachable state a live counter implies a live code, expires no later and lies in 1..max-1 |
| Otp.GuessesSpend | crates/api/src/services/otp.rs:112-140 | every wrong answer uses up one of the guesses the stored code can still answer |
| Otp.OneCodeIsBounded | crates/api/src/services/otp.rs:37-140 | one stored code matches at most once and answers at most max(max, 2 * max - 2) wrong guesses, or max if no counter was live |
| Otp.AnswersExactly | crates/api/src/services/otp.rs:112-140 | for every state: the right code and only it is matched, what every other submission is answered, with the number left, and what is spent |
| Otp.RightCodeIsMatched | crates/api/src/services/otp.rs:103-159 | after any history without a live counter, a stored code is matched until it expires if fewer than max wrong guesses came before; a wrong one is told how many are left |
| Otp.ExpiredCodeIsGone | crates/api/src/services/otp.rs:113-116 | from its expiry on a stored code is not found, whatever was guessed before |
| Otp.BoundIsAttained | crates/api/src/services/otp.rs:112-140 | some run attains 2 * max - 2 wrong answers to one code, for every max and lifetime from 2 on |
| Otp.FourWrongGuesses | crates/api/src/services/otp.rs:165-208 | with three attempts the bound is 4, and it is attained |
| Otp.OtpService.StoreOtp | crates/api/src/services/otp.rs:37-86 | replaces the code key and leaves the counter |
| Otp.OtpService.VerifyOtpWithLimit | crates/api/src/services/otp.rs:103-159 | the script's new keys and its reply |
| Calls.EachUserInOneActiveCall | crates/domain/src/call/service.rs:21-137 | with atomic events every user is in at most one active call in every reachable state, and times agree with the status |
| Calls.StepDescends | crates/domain/src/call/service.rs:59-137 | parties and type never change, a start time is never cleared, and each change moves the call strictly down |
| Calls.CallsSettle | crates/domain/src/call/service.rs:21-137 | a call changes at most as often as its rank says, and a terminal call never changes |
| Calls.ParticipantsCanEnd | crates/domain/src/call/service.rs:96-137 | either participant of an active call, and nobody else, can end it, after which both are idle |
| Calls.OnlyReceiverAccepts | crates/domain/src/call/service.rs:66-89 | exactly the receiver of an initiated or ringing call can accept it, which answers it from now on and changes nothing else; and each refusal |
| Calls.EndRefusals | crates/domain/src/call/service.rs:102-132 | which refusal ending a call meets |
| Calls.PlacedCallRings | crates/api/src/handlers/ws/handlers.rs:355-412 | a call between two idle users rings with their roles and type, every other one is not stored; and each refusal |
| Calls.EventsExplainCalls | crates/domain/src/call/service.rs:21-137 | over all runs a call has the parties and type of the event that placed it, was answered by its receiver, and has its end status and time from an event of one of its parties |
| Calls.InitiateNeedsIdleParties | crates/domain/src/call/service.rs:21-55 | a call is created iff both parties are distinct and idle, and is then the one active call of each |
| Calls.HangupNeverMissed | crates/api/src/handlers/ws/handlers.rs:567-600 | as one step a hangup of an active call always gives `Ended`; the fallback to `Missed` never succeeds |
| Calls.CallRepository.Create | crates/infrastructure/src/repositories/call/postgres.rs:82-101 | inserts an initiated call without times |
| Calls.CallRepository.UpdateStatus | crates/infrastructure/src/repositories/call/postgres.rs:118-148 | sets status and end time, and the start time only if one is given; fails without a row |
| Calls.CallRepository.IsUserInActiveCall | crates/infrastructure/src/repositories/call/postgres.rs:150-166 | whether some active call has the user as caller or receiver |
| Calls.CallService.Initiate | crates/domain/src/call/service.rs:21-55 | checks in the source's order, then creation |
| Calls.CallService.Ring | crates/domain/src/call/service.rs:59-63 | sets a stored call to ringing and clears its end time, whatever its status, and returns it, or says that there is none |
| Calls.CallService.Accept | crates/domain/src/call/service.rs:66-89 | only the receiver of an unanswered call gets it answered |
| Calls.CallService.End | crates/domain/src/call/service.rs:96-137 | the four refusals, or the requested terminal status with the start time kept |
| Calls.CallService.HandleInitiate | crates/api/src/handlers/ws/handlers.rs:355-412 | creation followed by ringing is the atomic initiate step |
| Calls.CallService.HandleHangup | crates/api/src/handlers/ws/handlers.rs:567-600 | `Ended`, and on failure `Missed`, is the atomic hangup step |
| CallInterleaving.RecordsStayConsistent | crates/infrastructure/src/repositories/call/postgres.rs:118-148 | with database calls interleaved, `ended_at` is still unset exactly while active and an answered call has started |
| CallInterleaving.PartiesAndStartKept | crates/infrastructure/src/repositories/call/postgres.rs:118-148 | parties and type stay and a start time is never cleared, over any stretch of a run |
| CallInterleaving.UndisturbedIsAtomic | crates/api/src/handlers/ws/handlers.rs:355-600 | an event whose database calls run undisturbed does what the atomic event does |
| CallInterleaving.RequestStarts | crates/api/src/handlers/ws/handlers.rs:355-600 | each event starts a request of its own kind, with its own user and status |
| CallInterleaving.OnlyReceiverAnswers | crates/domain/src/call/service.rs:66-89 | over all interleaved runs a call that is or was answered was accepted by its receiver |
| CallInterleaving.StepKeepsOneActiveIff | crates/domain/src/call/service.rs:21-89 | exactly which interleaved steps keep every user in at most one active call |
| CallInterleaving.OneActiveThroughoutIff | crates/domain/src/call/service.rs:21-89 | over all runs every user is in at most one active call throughout iff every step is such a step |
| CallInterleaving.BusyCheckRaces | crates/domain/src/call/service.rs:31-52 | a concrete interleaving leaves one user in two active calls |
| CallInterleaving.RingingRevivesEndedCall | crates/api/src/handlers/ws/handlers.rs:392-412 | a hangup or rejection by either party between the incoming event and the ringing update is undone by that update |
| CallInterleaving.RevivalIsReachable | crates/api/src/handlers/ws/handlers.rs:392-412 | from the empty state: a call rejected by its receiver rings on |
| CallInterleaving.FallbackReadIff | crates/api/src/handlers/ws/handlers.rs:575-590 | a hangup falls back iff the user's call is not active at its read, and goes on to write `Missed` iff it is active again at the second read |
| CallInterleaving.MissedOnlyAfterRevival | crates/api/src/handlers/ws/handlers.rs:567-600 | over all runs a call is `Missed` only if it was over and came back, or a hangup named its id before it was stored |
| CallInterleaving.MissedIsReachable | crates/api/src/handlers/ws/handlers.rs:567-600 | a concrete interleaving that ends in `Missed` |
| KeyRotation.RotationMeaning | crates/infrastructure/src/repositories/chat.rs:1730-1749 | each active listed member ends with the last key listed for them, nobody else changes |
| KeyRotation.LastListedIff | crates/infrastructure/src/repositories/chat.rs:1731-1749 | a member has a last listed key iff the list names them |
| KeyRotation.FullCountCoversEveryone | crates/infrastructure/src/repositories/chat.rs:1713-1754 | without repeats, the count equals the number of active members iff each is listed, and then each holds a listed key |
| KeyRotation.RotateKeys | crates/infrastructure/src/repositories/chat.rs:1728-1753 | the loop's table and its count of entries that name active members |
| Chats.ChatRepository.CreatePrivate | crates/infrastructure/src/repositories/chat.rs:64-130 | the undisturbed method: reuses the pair's chat or inserts one with two plain members |
| Chats.ChatRepository.CreateGroup | crates/infrastructure/src/repositories/chat.rs:132-188 | the owner's row and one row for each distinct participant |
| Chats.ChatRepository.GetParticipantRole | crates/infrastructure/src/repositories/chat.rs:1312-1331 | the role of an active member, none for anyone else |
| Chats.ChatRepository.Add | crates/infrastructure/src/repositories/chat.rs:1383-1464 | the source's five refusals, or a plain member's row, new or revived |
| Chats.ChatRepository.Remove | crates/infrastructure/src/repositories/chat.rs:1466-1509 | leaving and kicking with the source's refusals |
| Chats.ChatRepository.UpdateRole | crates/api/src/handlers/groups/handlers.rs:163-203 | a role change with the handler's and the repository's refusals |
| Chats.ChatRepository.FindBySlug | crates/infrastructure/src/repositories/chat.rs:1612-1653 | the undeleted chat with the link |
| Chats.ChatRepository.JoinByInvite | crates/infrastructure/src/repositories/chat.rs:1655-1711 | membership as a plain member, keeping the key of an earlier membership |
| Chats.ChatRepository.Join | crates/api/src/handlers/groups/handlers.rs:237-267 | lookup and join without a step in between |
| Chats.ChatRepository.SetLink | crates/infrastructure/src/repositories/chat.rs:1572-1610 | the link stored, its uniqueness, and the refusal for private chats, with the source's errors |
| Chats.ChatRepository.RotateKey | crates/infrastructure/src/repositories/chat.rs:1713-1754 | the guarded rotation and its count |
| Chats.ChatRepository.Transfer | crates/infrastructure/src/repositories/chat.rs:1756-1809 | the undisturbed method: the owner becomes an admin and the other active member the owner |
| Chats.ChatRepository.Delete | crates/infrastructure/src/repositories/chat.rs:881-956 | an owner deletes the group, everybody else leaves |
| ChatRuns.EveryGroupHasItsOwner | crates/infrastructure/src/repositories/chat.rs:1383-1570 | over all runs a group has one owner row, it is active, and its user is the end of the chain of transfers from the creator |
| ChatRuns.StepKeepsShape | crates/infrastructure/src/repositories/chat.rs:1756-1809 | every method keeps the owner of a group except a transfer, and keeps private chats two plain members |
| ChatRuns.OnlyHigherRankChanges | crates/infrastructure/src/repositories/chat.rs:1466-1540 | a member's role or membership changes only by leaving, by the owner's transfer, or by someone who outranks the old and the new role |
| ChatRuns.NewMembersAreAddedOrJoin | crates/infrastructure/src/repositories/chat.rs:1383-1464 | a user becomes active in an existing chat only if an admin or the owner adds them or they come by its link, and as a plain member |
| ChatRuns.AddMeaning | crates/infrastructure/src/repositories/chat.rs:1383-1464 | who may add whom, each refusal, and the new row |
| ChatRuns.RemoveMeaning | crates/infrastructure/src/repositories/chat.rs:1466-1509 | who may remove whom, each refusal, and that the row stays as a departed one |
| ChatRuns.ChangeRoleMeaning | crates/infrastructure/src/repositories/chat.rs:1511-1570 | who may give whom which role, by name of the roles, and that only the role changes |
| ChatRuns.SetLinkMeaning | crates/infrastructure/src/repositories/chat.rs:1572-1610 | who may store a link, which link it is, and each refusal |
| ChatRuns.RotateMeaning | crates/infrastructure/src/repositories/chat.rs:1713-1754 | who may rotate keys, the count, and each member's key afterwards |
| ChatRuns.TransferMeaning | crates/infrastructure/src/repositories/chat.rs:1756-1809 | who may transfer to whom, each refusal, and both rows afterwards |
| ChatRuns.DeleteMeaning | crates/infrastructure/src/repositories/chat.rs:881-956 | when a chat is deleted, when it is only left, and the refusal |
| ChatRuns.JoinMeaning | crates/infrastructure/src/repositories/chat.rs:1655-1711 | a join gives a plain membership and keeps the key of an earlier one |
| ChatRuns.NewGroupMeaning | crates/infrastructure/src/repositories/chat.rs:132-188 | the members of a new group and their roles |
| ChatRuns.NewPairMeaning | crates/infrastructure/src/repositories/chat.rs:92-124 | the members of a new private chat, and the refusal of a chat with oneself |
| ChatRuns.EveryAdminWasAppointed | crates/infrastructure/src/repositories/chat.rs:1511-1570 | over all runs every admin of a group was made one by the owner of the moment or handed ownership over |
| ChatRuns.AtMostOnePrivateChat | crates/infrastructure/src/repositories/chat.rs:64-130 | over all runs at most one undeleted private chat has both users of a pair active |
| ChatRuns.CreationReturnsExisting | crates/infrastructure/src/repositories/chat.rs:69-94 | while it exists, creation in either order returns that chat and changes nothing |
| ChatRuns.CreationActivatesPair | crates/infrastructure/src/repositories/chat.rs:92-124 | otherwise creation makes a chat with both users active |
| ChatRuns.CreationReturnsUsable | crates/infrastructure/src/repositories/chat.rs:69-129 | whatever chat a creation returns is an undeleted private chat with both users active |
| ChatRuns.DepartureIsFinal | crates/infrastructure/src/repositories/chat.rs:903-915 | a member who has left a private chat is never active in it again |
| ChatRuns.InsertKeepsUniqueIff | crates/infrastructure/src/repositories/chat.rs:69-124 | the insert after a search keeps pairs unique iff the pair has no chat at the insert |
| ChatRuns.RunKeepsLinksUnique | crates/infrastructure/src/repositories/chat.rs:1601-1607 | over all runs no two chats share a link |
| ChatRuns.JoinGoesToTheLinkedGroup | crates/infrastructure/src/repositories/chat.rs:1612-1711 | over all runs a join by a link goes to the one undeleted chat that has it, and that chat is a group |
| ChatRuns.LinkIsNeverRemoved | crates/api/src/handlers/groups/handlers.rs:221-235 | a chat that ever had a link has one in every later state, also after asking to delete it |
| ChatRuns.LinkIsReachable | crates/infrastructure/src/repositories/chat.rs:1572-1610 | a run from the empty tables to a linked chat whose link is then replaced, not deleted |
| ChatInterleaving.AtomicIsCheckAndWrite | crates/infrastructure/src/repositories/chat.rs:64-130 | every method taken as one step is its check followed at once by its write |
| ChatInterleaving.RunKeepsInv | crates/infrastructure/src/repositories/chat.rs:1383-1809 | over all interleaved runs private chats keep two plain members, and a waiting write's rows and kind of chat stay as checked |
| ChatInterleaving.SwapKeepsOwnerIff | crates/infrastructure/src/repositories/chat.rs:1784-1806 | the two updates of a transfer leave one active owner iff the owner of the moment is one of the two users and the next is still active |
| ChatInterleaving.WriteKeepsOneOwnerIff | crates/infrastructure/src/repositories/chat.rs:1383-1809 | exactly which late writes leave a group with one active owner |
| ChatInterleaving.OneOwnerThroughoutIff | crates/infrastructure/src/repositories/chat.rs:1383-1809 | over all interleaved runs a group has one active owner throughout iff every write is such a one |
| ChatInterleaving.ConcurrentTransfers | crates/infrastructure/src/repositories/chat.rs:1756-1809 | from every group, two transfers that both pass their checks first leave two active owners |
| ChatInterleaving.TwoOwnersAreReachable | crates/infrastructure/src/repositories/chat.rs:1756-1809 | such a run from the empty tables |
| ChatInterleaving.RemovalOfNewOwner | crates/infrastructure/src/repositories/chat.rs:1466-1509 | a removal checked before a transfer to its target and written after it leaves no active owner |
| ChatInterleaving.WriteKeepsPairsIff | crates/infrastructure/src/repositories/chat.rs:69-124 | exactly which late writes keep pairs to one private chat |
| ChatInterleaving.PairsUniqueThroughoutIff | crates/infrastructure/src/repositories/chat.rs:64-130 | over all interleaved runs pairs have one private chat throughout iff every insert finds its pair without one |
| ChatInterleaving.TwoPrivateChatsAreReachable | crates/infrastructure/src/repositories/chat.rs:64-130 | a run in which two users who open a chat with each other at once get two |
| ChatInterleaving.DepartureStaysFinal | crates/infrastructure/src/repositories/chat.rs:903-915 | interleaved or not, a member who has left a private chat is never active in it again |
| PhoneIndex.RunKeepsGood | crates/infrastructure/src/repositories/user.rs:150-340 | all live users' hashes stay in the set over every run of create, update, delete and migration |
| PhoneIndex.CreateStores | crates/infrastructure/src/repositories/user.rs:150-183 | when a user is created, with which row and hash |
| PhoneIndex.UpdateStores | crates/infrastructure/src/repositories/user.rs:275-316 | when an update is stored, and that it stores the given row of this user only |
| PhoneIndex.DeleteStores | crates/infrastructure/src/repositories/user.rs:318-340 | deletion marks one row, removes a live user's hash and keeps everything else |
| PhoneIndex.SignedUpIsFound | crates/infrastructure/src/repositories/contact.rs:225-278 | whoever signs up with a phone is found by exactly the later syncs that list it, until they change or delete their account |
| PhoneIndex.DeletedIsNeverFound | crates/infrastructure/src/repositories/contact.rs:258-270 | a deleted user is found by no later sync |
| PhoneIndex.PrefilterIsExact | crates/infrastructure/src/repositories/contact.rs:225-278 | after every run, asking the set first gives the same users as the direct query |
| PhoneIndex.PrefilterExactIff | crates/infrastructure/src/repositories/contact.rs:225-278 | for any set, asking it first changes nothing iff it holds the hash of every user the query would find |
| PhoneIndex.FoundIffFindable | crates/api/src/handlers/contacts/handlers.rs:44-73 | a sync finds exactly the live, active users with a migrated row and a listed phone, and leads each back to their own phone |
| PhoneIndex.RehashedUser | crates/api/src/main.rs:118-157 | the migration rehashes the live rows with an old hash and no other row or column |
| PhoneIndex.RehashCompletesIff | crates/api/src/main.rs:112-177 | the migration leaves a complete index iff it was complete for the users the migration does not touch |
| PhoneIndex.MigratedUsersAreFound | crates/api/src/main.rs:112-177 | from such an index, once migrated, a sync finds exactly the live, active users with a listed phone, over every later run |
| PhoneIndex.MigrationKeepsGood | crates/api/src/main.rs:142-173 | the index is complete after each iteration of the migration, whatever rows are done |
| PhoneIndex.RehashTwice | crates/api/src/main.rs:112-177 | no old hash is left, and a second run changes nothing |
| PhoneIndex.RehashResumes | crates/api/src/main.rs:142-173 | a migration cut short and run again ends as one whole run |
| PhoneIndex.UserStore.CreateUser | crates/infrastructure/src/repositories/user.rs:150-183 | a new row and its hash in the set, or a refusal for a taken phone |
| PhoneIndex.UserStore.UpdateUser | crates/infrastructure/src/repositories/user.rs:275-316 | rewrites a live row and adds its hash in any case |
| PhoneIndex.UserStore.SoftDelete | crates/infrastructure/src/repositories/user.rs:318-340 | marks the row and removes the hash of a row that was live |
| PhoneIndex.UserStore.RehashPhoneNumbers | crates/api/src/main.rs:112-177 | the loop migrates exactly the live rows with an old hash, in table and set |
| PhoneIndex.UserStore.FindByHashes | crates/infrastructure/src/repositories/contact.rs:225-278 | the filtered query with its two early exits |
| PhoneIndex.UserStore.SyncContacts | crates/api/src/handlers/contacts/handlers.rs:31-77 | one match for each user the filtered query finds, with the plain hash of the phone behind the stored hash; on a complete index each findable user once, with the hash of their own phone; 1 to 1000 phones |
| Sessions.AcceptedWasRecentlyValid | crates/api/src/middleware/auth.rs:78-95 | an accepted session was valid in the database within the last ttl (plus the delay of a cache write), or is now |
| Sessions.RowsComeFromLogins | crates/infrastructure/src/repositories/user.rs:30-68 | over all runs every row has the user, id and expiry of a login |
| Sessions.AcceptedWasLoggedIn | crates/api/src/middleware/auth.rs:78-95 | an accepted session was opened by a login of its user, less than that login's lifetime plus ttl plus delay ago |
| Sessions.WaitingEndsSessions | crates/infrastructure/src/repositories/user.rs:115-132 | once every login of a session lies its lifetime plus ttl plus delay back, it is refused |
| Sessions.LoginIsAccepted | crates/infrastructure/src/repositories/user.rs:115-132 | a login is accepted for its whole lifetime unless the session is deleted or its device logs in again |
| Sessions.RevocationTakesEffect | crates/api/src/handlers/auth/mod.rs:752-778 | once a session's row is gone it is refused after at most ttl plus that delay |
| Sessions.RowsGo | crates/infrastructure/src/repositories/user.rs:30-68 | deletion, and a new login on the same device, take the row away |
| Sessions.ForgetIsFinalIff | crates/api/src/handlers/auth/mod.rs:789-796 | removing the cache key of a session without a row ends it for good iff no confirmed validation has its cache write still to come, or nothing is cached |
| Sessions.LogoutIsFinalIff | crates/api/src/handlers/auth/mod.rs:780-809 | the same for logout, whatever runs between its deletion and its removal of the cache key |
| Sessions.ValidateIsCheckAndWrite | crates/api/src/middleware/auth.rs:78-95 | the undisturbed method is the check and its write |
| Sessions.SessionStore.UpsertSession | crates/infrastructure/src/repositories/user.rs:30-68 | one row per user and device, taken over under a fresh id |
| Sessions.SessionStore.DeleteSession | crates/infrastructure/src/repositories/user.rs:104-113 | removes the user's row with that id and says whether there was one |
| Sessions.SessionStore.ValidateSession | crates/api/src/middleware/auth.rs:78-95 | accepts iff cached or valid, and caches a valid session that was not cached |
| Sessions.SessionStore.Logout | crates/api/src/handlers/auth/mod.rs:780-796 | removes the row and the cache entry |
| Unread.MarkTakesReached | migrations/014_message_read_function.sql:13-28 | a mark takes exactly the unread, undeleted, foreign messages up to the bound from one user's count in one chat |
| Unread.MarkedRows | migrations/014_message_read_function.sql:13-28 | which rows a mark leaves alone (other users, chats and senders, deleted messages, messages later than the bound) and what becomes of the others |
| Unread.MarkLeaves | migrations/014_message_read_function.sql:16-26 | what stays unread after a mark: own messages, those without a sender, and those later than the bound; everything for a user who is no active member |
| Unread.MarkCount | migrations/014_message_read_function.sql:14-32 | the returned count is the drop plus the rows touched again, so at least the drop |
| Unread.CountIsDropIff | migrations/014_message_read_function.sql:28 | it is the drop iff no message it is for was marked after the bound |
| Unread.MarkingAgainCounts | migrations/014_message_read_function.sql:28 | marking again up to the same past bound reports every row of the first mark and drops nothing |
| Unread.CountWithoutDropIsReachable | migrations/014_message_read_function.sql:28 | a run from the empty tables in which a mark reports 1 and the count does not drop |
| Unread.MarksCombine | migrations/014_message_read_function.sql:13-28 | marking t1 then t2 reads what marking max(t1, t2) reads |
| Unread.SendAddsOne | crates/infrastructure/src/repositories/chat.rs:428-440 | a new message is unread for every active member of its chat and for nobody else, a refused one for nobody |
| Unread.DeleteTakesOne | crates/infrastructure/src/repositories/chat.rs:1027-1053 | deleting a message takes it from every unread count |
| Unread.ReadIffMarked | migrations/014_message_read_function.sql:8-33 | over all runs a row is read iff some mark was for its message and user |
| Unread.MessagesComeFromSends | crates/infrastructure/src/repositories/chat.rs:366-447 | over all runs a message has the sender, chat and time of the event that sent it |
| Unread.OnlySenderDeletes | crates/infrastructure/src/repositories/chat.rs:1027-1053 | a message is deleted by an event of its sender only, and for good, and nothing else of it changes |
| Unread.DeleteMeaning | crates/infrastructure/src/repositories/chat.rs:1027-1053 | deletion succeeds for the sender of an undeleted message and for nobody else |
| Unread.SendRefusals | crates/infrastructure/src/repositories/chat.rs:366-395 | which refusal sending meets |
| Unread.OwnMessagesStayUnread | crates/infrastructure/src/repositories/chat.rs:284-292 | over all runs a user's own undeleted messages stay in their unread count |
| Unread.MarkingAllLeavesOwn | migrations/014_message_read_function.sql:16-26 | after marking up to the newest message of a chat an active member's count there is exactly their own messages |
| Unread.MessageStore.SendMessage | crates/infrastructure/src/repositories/chat.rs:366-447 | the three refusals in order (no active member of an undeleted chat, a block in a private chat, incomplete text), or the message and a row for each active member |
| Unread.MessageStore.DeleteMessage | crates/infrastructure/src/repositories/chat.rs:1027-1053 | only the sender's undeleted message |
| Unread.MessageStore.MarkMessagesRead | migrations/014_message_read_function.sql:8-33 | the new rows and the row count |
| Stories.ListStories | crates/api/src/handlers/stories/handlers.rs:73-115 | the loop's groups are one for each author, in order of first story, each with all the author's stories in order |
| Stories.PushStory | crates/api/src/handlers/stories/handlers.rs:87-112 | one pass of the loop: the story joins its author's group, or opens one at the end |
| Stories.GroupingIsPermutation | crates/api/src/handlers/stories/handlers.rs:84-112 | the groups hold exactly the stories of the list |
| Stories.GroupsStayOrdered | crates/api/src/handlers/stories/handlers.rs:103-112 | each group keeps the order of the list |
| Stories.AuthorsDistinct | crates/api/src/handlers/stories/handlers.rs:87-101 | no author has two groups |
| Stories.UnseenGroupsFirst | crates/infrastructure/src/repositories/stories.rs:312 | for rows in the query's order, groups with an unseen story come before the others |

## Left out

- PhoneIndex.UserStore.RehashPhoneNumbers: no other writer runs during the loop, which reads its rows once at startup; a phone changed in between would be hashed from the old row.
- Prekeys.PrekeyStore.InsertPrekeys: one batch is one step; two batches with a common id that insert at once are not split further.
- Chats.ChatRepository.Delete: its two reads, of the membership and of the owner row, are one step in both models.
- Otp.OtpService.StoreOtp: time is in whole seconds, so the rounding of a key's remaining lifetime to seconds is exact.
- FixedWindow.FixedWindowLimiter.CheckRateLimit: limit and window are fixed for a key, as at each call site.
- Membership checks in front of message listing and key retrieval, and the rate limit and block checks of the key endpoints.
- Refresh tokens and two-factor tokens: a refresh is a login with a fresh session id; token encoding, JWT and HMAC code are unseen libraries.
- The text form of cursors (base64 and JSON); cursors are typed records.
- Names, avatars, join times, `updated_at`, user profiles, chat settings, the chat kinds no method here creates, cascades of deleted rows and row-level security.
- Story visibility (`can_user_view_story` and the query's WHERE clause): one predicate written twice in SQL.
- Reactions, attachments, search, blocks, presence, push delivery, publication of events, metrics and logging.
- The profile cache, which has the shape of the session cache.
- Failing database or Redis calls and clock skew.
