# What the marketplace backend promises, proved

A Dafny model of the parts of this FastAPI backend whose behaviour is decided in code and hard to
see: a claim/run/complete/release protocol over a shared store, a limit on requests in flight, the
redaction of error reports, cursors over changing lists, a warning job over row locks, the
moderation of reports, suspensions and takedowns with its append-only log, the ASGI layers, and
four small algorithms with real specifications.

The whole project: `dafny verify dfyconfig.toml`.

## How to read it

| part | files |
|---|---|
| Idempotency keys | `IdempotencyRecords`, `IdempotencyKeys`, `IdempotencyProtocol`, `IdempotentRoute` |
| Redaction | `RegexSub`, `Redaction`, `RedactionForms` |
| Overload | `LoadShedding`, `PoolFreeze`, `BusyProcess` |
| Paging | `CursorText`, `KeysetPaging` |
| Report deadlines | `ReportClocks`, `ReportQueue`, `ReportTiming`, `WarningRuns` |
| Moderation | `ModerationRows`, `ModerationHistory`, `ModerationDesk`, `ModerationClock` |
| Middleware | `AsgiConduct`, `MiddlewareLayers` |
| Algorithms | `FounderNumbers`, `AttentionOrder`, `HostLinks`, `ProofScore` |

Where the source changes things step by step, a class does too: `RedisIdempotencyStore`,
`LoadSheddingMiddleware`, `WarningJob`, `Session` (the moderation services over one database
session), the four ASGI layers and `Score`. Each method ends in the state a specification function
gives; beside that its contract says outright what it answers and writes, and the theorems are about
that function. Where a coroutine, a request or a transaction can
be interrupted, what everybody else does in between is a parameter of the method: a list of steps
of the same state machine.

Every state machine is total: an event that cannot happen changes nothing. So "for every list of
events" means every interleaving, and every theorem about runs needs no side condition on the list
beyond the ones it states.

## What turned out exact, and what turned out false

- **At most once is conditional, replay soundness is not.** The store's `complete` and `release` do
  not look at whose key they touch, and a GET that finds nothing proceeds without a marker.
  `DisciplineIsExact` says precisely when mutual exclusion survives a step: no run may outlast its
  60-second marker, and no GET may come back empty after a refused SET NX. The comment on the empty
  GET says that nobody holds the key then; `EmptyGetRunsUnmarked` gives the run, with no expiry at
  all, in which two requests work on one key because of it, and `SlowRunReleasesAnothersMarker` the
  run in which one request deletes another's marker.
- **Two callers whose keys passed the check never share a stored key if neither credential nor
  method holds a newline**; the path may. `NewlineInACredentialCollides` shows why the condition is
  there; no credential the route builds (an account's id, a header's value, a client's address) can
  hold one, so the collision is out of reach.
- **Redaction reaches string values, not dictionary keys.** The docstring of `redact` says every
  phone number, email and long number is replaced. Nothing is left anywhere in the result if and
  only if no dictionary key of the value, at any depth, held a match (`NothingLeftWhenKeysClear`);
  `KeysAreNotRedacted` is a phone number that stays.
- **Whether a walk ends.** Whatever is added and dropped meanwhile, n pages end every walk over at
  most N rows if and only if n is at least 1 and n pages hold N rows. While rows are only added behind the others, a
  walk ends if and only if some page's number times the limit reaches the rows there are then. So
  nearest-deadline-first it need not end: a page of later deadlines filed between any two pages
  keeps it going at any limit (`DeadlineFirstWalkMayNeverEnd`). Newest-first, with new rows newer, it
  ends within the pages its starting rows fill, exactly those when none of them drops out.
- **The freeze cannot form under accepted settings, for any number of threads and of uncounted
  users of one connection** (readiness checks, most jobs): `AcceptedNeverFreezes`. The exact condition
  is `FreezesExactly`. Jobs that keep one connection for a lock while they take a second (drafting
  and proof reading) can undo it: with them a process with accepted settings freezes in some run if
  and only if those jobs alone can take every connection, or can make up the connections the limit
  leaves and, with the uncounted users, find every thread taken too (`AcceptedFreezesExactly`).
- **That every request let in can always get a connection is false beside two uncounted users.** A
  request let in can be made to wait if and only if anybody is let in and the places and the
  uncounted users' needs together are more than the connections (`RequestWaitsExactly`). The settings
  check is the case of one such user, which its message gives to the readiness check; but exempt
  readiness checks are not limited, and with RUN_JOBS=true jobs draw on the same pool. At the largest
  limit accepted, beside two of them, a request let in waits in some run, and so does a readiness
  check (`AcceptedRequestCanWait`), against the docstring of the limiter.
- **Deals less repeats is the number of brand-and-creator pairs if and only if no pair has two deals
  tied at its first moment**; otherwise it is more.
- **"The same records always give the same order" holds if and only if no two different items share
  a sort key.** Two of one kind and date that carry none of the seven ids do (`TwoCanShareAKey`);
  that any module gathers two such different items is not shown here.
- **`withhold` passes on a database error exactly when a report-based takedown's report was filed
  later than the server's present time**, and `lift` exactly when the lift would be dated before the
  takedown; no other CHECK of the table can refuse what the code writes, the preserved text's
  size apart. So under a clock that never goes back the only refused inserts
  are a second active takedown of an item and a second open report of it by one person
  (`OnlyDuplicatesAreRefused`).
- **A replay is the original answer, headers included, unless** its content type was a text type
  that named no charset, to which Starlette adds one.
- **A model's pass does not depend on handles or dates**, though both are counted.

## What is a parameter

- SHA-256, wherever it is used: any function, collision-free where a theorem says so.
- Unicode: which characters beyond ASCII are word, digit or space characters.
- Which of its possible ends a regular expression match takes.
- `isoformat` and the printing of UUIDs: printers whose text reads back, is ASCII and holds no `|`.
- Failures of the store, of `send` and of `receive`; expiry; the clock; cancellation.
- A page's limit is at least 1, as every router's query demands; an order's fields are what the
  request's schema lets through; a moderation act starts in a sound state, which `RunIsSound` shows
  every reachable state to be.
- The CORS and rate-limit layers: each answers, or fails, by itself with at most one response start,
  or passes the request on and changes headers as it likes.

## Model

| member | source | states |
|---|---|---|
| IdempotencyRecords.ReplayIsTheOriginalAnswer | app/core/idempotent_route.py:82-104 | storing an answer and rebuilding it gives the original status, body and allow-listed headers and nothing else but the replay mark; header values are the same if and only if the content type is no text type without a charset |
| IdempotencyKeys.KeyByItsCharacters | app/core/idempotency.py:122-129 | a key passes the check if and only if it is 8 to 128 letters, digits, dots, underscores, colons or dashes |
| IdempotencyKeys.StoredKeysMeetOnlyForTheSameScope | app/core/idempotency.py:122-147 | two requests whose keys passed the check share a stored key if and only if caller, method, path and key agree, when credential and method hold no newline |
| IdempotencyKeys.NewlineInACredentialCollides | app/core/idempotency.py:146 | with a newline in the credential, which no caller can send, two different scopes would meet |
| IdempotencyProtocol.ReplaySoundness | app/core/idempotency.py:164-213 | over every interleaving, expiry, fault and cancellation: every stored and every replayed answer is what an endpoint gave for that key and body, below 500, allow-listed headers only; "body changed" and "still running" are said only of a request that really wrote to the key |
| IdempotencyProtocol.AtMostOnce | app/core/idempotent_route.py:225-242 | on a disciplined run at most one request per key is between PROCEED and complete or release, and it holds its own live marker |
| IdempotencyProtocol.DisciplineIsExact | app/core/idempotency.py:168-177 | from a protected state a step keeps exclusion safe from every newcomer if and only if no run outlasts its marker and no GET comes back empty |
| IdempotencyProtocol.OthersKeepTheirMarkers | app/core/idempotency.py:186-213 | on a protected state a step of one request leaves every other run's marker as it was |
| IdempotencyProtocol.FinishTouchesOnlyItsOwnMarker | app/core/idempotency.py:186-213 | a complete or release on a protected state finds its own marker at its key and changes no other entry |
| IdempotencyProtocol.AnswerStandsForADay | app/core/idempotency.py:186-200 | for 24 hours after a complete's SET lands, its reply lost or not, the record stands, nobody gets PROCEED on its key, and a retry gets exactly it with the same body and "body changed" with another; it is told anything else only when its own command met a fault or it was cancelled |
| IdempotencyProtocol.RetryIsTold | app/core/idempotency.py:179-184 | a retry whose commands work is told "body changed", "still running" or given the stored answer, by the record there is, and changes nothing |
| IdempotencyProtocol.FaultyClaimIsUnavailable | app/core/idempotency.py:172-173 | a claim that meets a fault is told the store is unavailable, whether or not its command landed |
| IdempotencyProtocol.FaultFreeRun | app/core/idempotent_route.py:230-242 | where the store works the caller gets the endpoint's own answer, kept for 24 hours if it has a body and is below 500; after any other the key is free |
| IdempotencyProtocol.FaultyFinish | app/core/idempotency.py:186-213 | a complete that fails is told as unavailable, a release that fails is not told at all |
| IdempotencyProtocol.StaleKeyCostsAMinute | app/core/idempotency.py:202-213 | after any run, with every crash and fault, a key that holds no answer and is left alone for 60 seconds lets the next request in |
| IdempotencyProtocol.SlowRunReleasesAnothersMarker | app/core/idempotency.py:202-213 | a run longer than its marker: its release deletes the marker of the request at work |
| IdempotencyProtocol.EmptyGetRunsUnmarked | app/core/idempotency.py:175-177 | the empty-GET branch lets two requests work on one key without any expiry |
| IdempotentRoute.RedisIdempotencyStore.Claim | app/core/idempotency.py:164-184 | SET NX and then GET, with anything in between, is the protocol's steps; a fault is Unavailable, a free key PROCEED with a marker for 60 seconds, and a taken one is told by the record the GET sees: another body, in flight, or the stored answer |
| IdempotentRoute.RedisIdempotencyStore.Complete | app/core/idempotency.py:186-200 | complete is the protocol's finishing step |
| IdempotentRoute.RedisIdempotencyStore.Release | app/core/idempotency.py:202-213 | release is the protocol's finishing step, and never fails |
| IdempotentRoute.RedisIdempotencyStore.RunEndpoint | app/core/idempotent_route.py:230-242 | the endpoint's outcome and then exactly one complete or release, none when cancelled; the caller gets its own answer or error, and Unavailable only when a record could not be kept |
| IdempotentRoute.RedisIdempotencyStore.Handle | app/core/idempotent_route.py:208-242 | the whole handler is a schedule of the protocol: no header or a method other than POST and PATCH runs unguarded, exactly the unusable keys are refused untouched, otherwise it claims, the endpoint's steps follow if and only if the claim left it running, and a retry is given the stored answer, "body changed" or "still running" by the record its GET sees |
| RegexSub.SubReplacesExactlyTheSpans | app/core/error_tracking.py:71-73 | sub cuts out non-overlapping matches left to right, puts the mark there, keeps every other character, and no match starts in what is kept |
| RegexSub.SubIsMadeOf | app/core/error_tracking.py:71-73 | each output character is copied from a place where no match starts or belongs to a mark, and marks stand where a match began and ended |
| RegexSub.LongestIsHonest | app/core/error_tracking.py:72 | every matcher has a choice of ends that is always a match |
| Redaction.PassClears | app/core/error_tracking.py:50-57 | after a pattern's pass nothing in the text matches that pattern in context |
| Redaction.PassKeepsClear | app/core/error_tracking.py:50-57 | a later pass never makes a match of an earlier pattern |
| Redaction.RedactString | app/core/error_tracking.py:68-73 | the loop over the three patterns is the three passes in their order |
| Redaction.RedactedTextIsClear | app/core/error_tracking.py:68-73 | no substring of a redacted text matches any of the three patterns in context |
| Redaction.ClearTextIsUntouched | app/core/error_tracking.py:68-73 | redaction changes a text if and only if something in it matches |
| Redaction.RedactScrubs | app/core/error_tracking.py:68-78 | at every depth of dictionaries and lists no string value keeps a match |
| Redaction.ScrubbedIsUntouched | app/core/error_tracking.py:68-78 | a value with nothing to redact only has its tuples turned to lists |
| Redaction.RedactTwice | app/core/error_tracking.py:68-78 | redacting again changes nothing |
| Redaction.NothingLeftWhenKeysClear | app/core/error_tracking.py:68-78 | no string of the result, value or dictionary key at any depth, holds a match if and only if no key of the input did |
| Redaction.KeysAreNotRedacted | app/core/error_tracking.py:74-75 | a phone number used as a dictionary key stays |
| Redaction.AssumptionsCanBeMet | app/core/error_tracking.py:50-57 | there are character classes and an engine of the kind every theorem above is about |
| RedactionForms.RedactMarksOnlyTexts | app/core/error_tracking.py:68-78 | redaction replaces what the three passes find in each string by its mark and keeps everything else: entries, keys, items, order, at every depth |
| RedactionForms.NothingPersonalIsLeft | app/core/error_tracking.py:47-57 | no address, no free-standing ten-digit phone however spaced and prefixed and no free-standing run of nine digits is left, each form said without the patterns; and a text is changed if and only if it held one |
| RedactionForms.NoPhoneExactly | app/core/error_tracking.py:51-54 | the phone pattern finds nothing in a text if and only if no ten digits stand free in it that begin with 6 to 9, with at most one separator before each of the other nine, after nothing, 0, or 91 or +91 with at most one separator |
| LoadShedding.CountIsTheNumberInside | app/core/load_shedding.py:53-77 | at every suspension point the counter is the number of requests inside the app and lies in 0..max, on returning, raising and cancelled paths |
| LoadShedding.WhatALookDecides | app/core/load_shedding.py:69-77 | a look lets in, sheds or waits exactly as places and the deadline say, and moves nobody else |
| LoadShedding.WaitEndsAtTheDeadline | app/core/load_shedding.py:69-77 | whatever happened since a request came, its first look once the queue time is over ends its wait, with a place if one is free and a 503 if none is |
| LoadShedding.NobodyIsShedEarly | app/core/load_shedding.py:69-77 | a request that finds a place free gets it at once, and whatever happens nobody is shed before its whole queue time is over |
| LoadShedding.ExemptIsNeverHeld | app/core/load_shedding.py:53-56 | a health check is never held, refused or counted |
| LoadShedding.DeadlinesStayNear | app/core/load_shedding.py:71 | nobody's deadline is ever further ahead than the queue time |
| LoadShedding.LoadSheddingMiddleware.TakeAPlace | app/core/load_shedding.py:69-77 | the polling loop is a schedule of looks, with anything during each sleep; it takes a place, at once if one is free, is shed, only past its whole queue time, or still waits for exactly that moment |
| LoadShedding.LoadSheddingMiddleware.Call | app/core/load_shedding.py:53-67 | however the app ends the place is given back; without a place the app does not run, and that only past the whole queue time |
| PoolFreeze.FreezeThreshold | app/core/load_shedding.py:3-15 | requests let in at once can freeze the process if and only if there are at least as many as threads and connections together |
| PoolFreeze.WaitThreshold | app/db/session.py:10-19 | one of them can be made to wait for a connection if and only if there are more of them than connections |
| BusyProcess.NobodyWaitsExactly | app/core/load_shedding.py:47-77 | limiter and pool as one machine, on every run of arrivals, waits, returns, raises and cancellations: nobody ever waits for a connection if and only if there is one for each place and each uncounted user's need |
| BusyProcess.RequestWaitsExactly | app/core/load_shedding.py:10-12 | a request let in can be made to wait for a connection if and only if anybody is let in and places and uncounted needs exceed the connections |
| BusyProcess.CheckWaitsExactly | app/core/load_shedding.py:16-19 | a readiness check can be made to wait if and only if there is one and they exceed them |
| BusyProcess.SettingsCheckIsExact | app/core/config.py:501-511 | the settings are accepted if and only if nobody can ever wait beside one uncounted user, for any number of threads |
| BusyProcess.AcceptedRequestCanWait | app/core/load_shedding.py:10-19 | at the largest limit accepted, beside two uncounted users, a request let in can be made to wait, and so can a readiness check |
| BusyProcess.FreezesExactly | app/core/load_shedding.py:3-15 | some run of the whole process freezes if and only if jobs of two connections can take every connection, or requests with them can and with the uncounted users every thread too |
| BusyProcess.AcceptedNeverFreezes | app/core/load_shedding.py:10-12 | under accepted settings no reachable state is frozen, for any number of threads and of uncounted users of one connection |
| BusyProcess.AcceptedFreezesExactly | app/modules/campaigns/brief_service.py:153-173 | what jobs that hold two connections at once make of that, exactly |
| BusyProcess.NoFreeze | app/core/load_shedding.py:3-15 | wherever no freeze can form, in every reachable state with work under way some step brings it on, each one of finitely many left |
| PoolFreeze.RunStaysWithinPool | app/db/session.py:10-19 | no run of steps holds more threads or connections than there are |
| CursorText.Base64RoundTrip | app/core/pagination.py:49-60 | unpadded base64url reads back for every byte string and every length modulo three |
| CursorText.CursorRoundTrip | app/core/pagination.py:49-63 | decoding an encoded cursor gives the time and the id back |
| CursorText.CursorsTellRowsApart | app/core/pagination.py:49-52 | two rows have the same cursor if and only if they have the same time and id |
| CursorText.CursorIsUrlSafe | app/core/pagination.py:49-52 | a cursor holds only letters, digits, dash and underscore, at six bits a character, without padding |
| CursorText.AsTheStandardHasIt | app/core/pagination.py:52 | the test vectors of section 10 of RFC 4648, and the two symbols of its URL alphabet |
| CursorText.AcceptedCursors | app/core/pagination.py:55-63 | exactly which texts are accepted: ASCII that decodes to a time, one bar and an id |
| CursorText.LoneCharacterIsRefused | app/core/pagination.py:57-63 | a cursor one character past a whole group is refused, not misread |
| KeysetPaging.AfterCursor | app/core/pagination.py:86-90 | the redundant comparison on the time changes nothing |
| KeysetPaging.PageIsTheFirstRows | app/core/pagination.py:93-106 | a page is the first rows after the cursor in order; a next cursor is given exactly when rows were left out, and they all come after it |
| KeysetPaging.WalkIsInOrder | app/modules/admin/admin_service.py:232-249 | whatever changes between pages, the rows given are in list order, so none comes twice |
| KeysetPaging.ListsGoByTime | app/core/pagination.py:66-106 | along every page and every walk the times never rise newest-first and never fall deadline-first, ties by id the same way |
| KeysetPaging.WalkInventsNothing | app/modules/admin/takedown_service.py:319-337 | each row given matched when its own page was read |
| KeysetPaging.WalkGivesEachStableRowOnce | app/core/pagination.py:66-106 | a walk to the null cursor gives every row that matched throughout exactly once |
| KeysetPaging.WalkEndsWithinTheRows | app/core/pagination.py:93-106 | a walk ends within the pages that the rows that ever matched fill |
| KeysetPaging.PagesSufficeExactly | app/core/pagination.py:93-106 | n pages end every walk over at most N rows if and only if n is at least 1 and n times the limit is at least N |
| KeysetPaging.WalkEndsExactlyWhenPagesCatchUp | app/core/pagination.py:66-106 | while rows are only added behind the others a walk ends if and only if some page's number times the limit reaches the rows there are then |
| KeysetPaging.NewestFirstWalkEnds | app/modules/admin/report_service.py:128-144 | newest-first it ends within the pages the rows at its start fill, however many newer ones come |
| KeysetPaging.NewestFirstWalkEndsExactly | app/modules/admin/report_service.py:128-144 | and exactly within those pages when none of the starting rows drops out |
| KeysetPaging.DeadlineFirstWalkMayNeverEnd | app/modules/admin/admin_service.py:238-249 | nearest-deadline-first, with a page of later deadlines filed between any two pages, no number of pages ends it, at any limit |
| ReportClocks.MarkSettles | app/modules/admin/report_clock_service.py:112-121 | a marked report is no longer owed at that moment, gained the mark of its stage and no other, and meets the table's CHECK |
| ReportQueue.MarkedAreSettled | app/modules/admin/report_clock_service.py:73-91 | what is owed after marking the first n is what was owed without them |
| ReportQueue.MarkFirstHandles | app/modules/admin/report_clock_service.py:73-138 | the same, row by row, for any room there is in a run |
| ReportQueue.WarningJob.WarnBatch | app/modules/admin/report_clock_service.py:104-138 | a batch warns of the 50 nearest owed reports, marks exactly them, and tells every active admin of each once |
| ReportQueue.WarningJob.LogWarned | app/modules/admin/report_clock_service.py:146-160 | one log line a warning, and each counter the number of its stage |
| ReportQueue.WarningJob.WarnAdmins | app/modules/admin/report_clock_service.py:141-163 | a lone run handles every row: each warned one was open, due within 30 minutes or late and not yet warned for it, and gets the mark of its stage, each other is untouched and owed nothing unless 1000 were warned; nearest deadlines first, each active admin told of each once, one log line each, the counters their number |
| ReportQueue.LoneRun | app/modules/admin/report_clock_service.py:47-48 | min(n, 1000) are warned, nearest deadlines first, and none is left owed if and only if n is at most 1000 |
| ReportQueue.RunsClearTheBacklog | app/modules/admin/report_clock_service.py:43-48 | k runs at one moment warn about the first k x 1000 owed and leave none if and only if there were no more |
| ReportTiming.ARunClearsEachReport | app/modules/admin/report_clock_service.py:141-163 | with at most 1000 owed a run does to each report what its own clock says |
| ReportTiming.WarnedOnTime | app/modules/admin/report_clock_jobs.py:3-26 | with a run at every five minutes each report left open is warned as due soon by exactly one run in [deadline - 30 min, deadline - 25 min) and as overdue by exactly one in (deadline, deadline + 5 min] |
| WarningRuns.WarnedAtMostOnce | app/modules/admin/report_clock_service.py:104-138 | each report is committed as warned at most once per stage, due-soon only in the half hour up to the deadline, overdue only past it and with due-soon marked, and each warning has one notification per account it told and none besides |
| WarningRuns.AnsweredIsNeverWarned | app/modules/admin/report_clock_service.py:73-138 | an answered report is never warned about again, not even by a run that was under way |
| WarningRuns.ToldTheAdminsOfItsTransaction | app/modules/admin/report_clock_service.py:94-113 | the accounts a committed warning told are the admins active when its own transaction read them |
| ModerationHistory.TakedownsAreSound | alembic/versions/4a2f6982641f_takedowns_one_item_withheld_on_a_legal_.py:188-241 | under the table's constraints, in every reachable state: one active takedown an item, an order due 3 hours after it came and at most 30 days old, a report's takedown due within 7 days, nothing withheld before it was asked for, and the owner told once of the withholding and once of the lift |
| ModerationHistory.ReportsAreSound | app/modules/admin/models/report.py:39-58 | in every reachable state: one open report by a person about an item, each due within 7 days of its filing, and a moment of answer exactly when it is not open |
| ModerationClock.OnlyDuplicatesAreRefused | app/modules/admin/takedown_service.py:166-316 | in every state the services reach under a clock that never goes back no CHECK refuses what they write: a lift goes through, a built takedown is refused if and only if its item has an active one, a built report if and only if its reporter has an open one about that item |
| ModerationHistory.LogTellsTheState | app/modules/admin/admin_service.py:41-60 | replaying the log gives the state: suspensions alternate and stand where the log says, withholds minus lifts are an owner's active takedowns, each closed report has one resolve entry and one notice with its outcome |
| ModerationHistory.RunKeepsPast | app/modules/admin/takedown_service.py:276-316 | log and notices only grow; a takedown changes only by its one lift, a report only by its one answer |
| ModerationHistory.AlternatingLogCounts | app/modules/admin/admin_service.py:186-226 | in an alternating log suspensions exceed restorations by one exactly while suspended |
| ModerationDesk.WithholdMeetsTheChecks | app/modules/admin/takedown_service.py:166-192 | the row built meets every CHECK, for a report if and only if it was not filed later than now |
| ModerationDesk.Session.SuspendAccount | app/modules/admin/admin_service.py:186-211 | each refusal exactly when its condition holds, and refusals change nothing; otherwise suspended with its reason, one log entry naming the admin, the account and the moment, and nothing else changed |
| ModerationDesk.Session.RestoreAccount | app/modules/admin/admin_service.py:214-226 | the same for restoring |
| ModerationDesk.Session.FileReport | app/modules/admin/report_service.py:71-125 | one report and one acknowledgement, or nothing; impersonation and intimate content are due within 2 hours, non-payment within 7 days, every other complaint within 36 hours; the loser of a race is given the winner's open report, and fails only when that was closed meanwhile |
| ModerationDesk.Session.ResolveReport | app/modules/admin/admin_service.py:252-291 | an open report is closed once, with one log entry naming the admin and the moment and one notice of the outcome, and nothing else changed |
| ModerationDesk.Session.Withhold | app/modules/admin/takedown_service.py:195-273 | ReportNotFound, NamesAnotherItem and OrderTimeNotPossible (received after now, or more than 30 days before) each exactly when its condition holds; a report given exists and names the item; an order's takedown is due 3 hours after the order came; the takedown holds text and owner as read, with one log entry and one notice, and the second of two at once is told it is already withheld |
| ModerationDesk.Session.LiftTakedown | app/modules/admin/takedown_service.py:276-316 | an active takedown is lifted once, with one log entry naming the admin and the moment and one notice to the owner, and nothing else changed |
| AsgiConduct.AtMostOneStartLeaves | app/main.py:126-162 | for any route that starts at most one response, at most one start leaves, whatever is refused, shed, failed or cancelled |
| AsgiConduct.EveryStartIsMarked | app/core/security_headers.py:97-116 | every start that leaves carries the request's ID and every security header, with the inside's own value where it set one, and no other header changed |
| AsgiConduct.StartsForbid | app/core/security_headers.py:29-72 | the security headers by name and value, HTTPS only where the site is on HTTPS |
| AsgiConduct.FailureBelowCatch | app/main.py:143-145 | a failure anywhere below the catch, a crash of the rate or body limit included, before a start leaves exactly one start, a 500; a later one, or a cancellation, is passed on with nothing more sent |
| AsgiConduct.RouteFailure | app/core/unexpected_error.py:33-52 | the same said of the route's own failure, when the layers inside let the request through |
| AsgiConduct.DeclaredTooLargeIsRefused | app/core/body_limit.py:76-79 | a declared length over the limit never reaches the app: what leaves is the same for any two routes, and one 413 where nothing outside speaks for itself |
| AsgiConduct.ShedIsRefused | app/core/load_shedding.py:57-63 | a request without a place never reaches the app, whatever length it declared: one 503 that says when to come back |
| AsgiConduct.RouteAnswers | app/main.py:126-162 | otherwise what the route did leaves call by call, only headers changed |
| AsgiConduct.HandedWithinTheLimit | app/core/body_limit.py:81-95 | the app is never handed more than the byte limit in total, however often it reads on |
| AsgiConduct.ReadRefusedExactlyOverTheLimit | app/core/body_limit.py:83-93 | a read is refused if and only if the bytes arrived by then exceed the limit |
| MiddlewareLayers.Serve | app/main.py:126-162 | the layers called in the order they are installed make of any route exactly what the theorems above are about; over the declared limit one 413 with nothing handed on, without a place one 503 |
| MiddlewareLayers.SecurityHeadersMiddleware.SendWithHeaders | app/core/security_headers.py:107-116 | the loop over the headers adds those a start lacks and changes no other |
| MiddlewareLayers.RequestIdMiddleware.Call | app/core/request_id.py:34-59 | the first X-Request-ID is used if it is safe, else a new one, and every start carries it |
| MiddlewareLayers.ResolveRequestId | app/core/request_id.py:21-25 | the result is always short and plain, and the caller's own whenever that is |
| MiddlewareLayers.UnexpectedErrorMiddleware.Call | app/core/unexpected_error.py:33-52 | the flag set by the wrapped send makes the layer catch exactly a failure before any start |
| MiddlewareLayers.BodyLimitMiddleware.Call | app/core/body_limit.py:71-110 | refused on the declared length with one 413 and nothing handed on, whatever the app would do; otherwise the app's own conduct, and the running count hands on at most the limit |
| MiddlewareLayers.BodyLimitMiddleware.DeclaredLength | app/core/body_limit.py:48-60 | the first Content-Length decides, and one that is no number says nothing |
| FounderNumbers.InDays | app/modules/admin/numbers_service.py:94-101 | a moment is in the half-open interval of some days if and only if its Tamil Nadu date is one of them, and a day starts 5 hours 30 minutes before midnight UTC |
| FounderNumbers.PeriodsTile | app/modules/admin/numbers_service.py:286-299 | the two periods are of equal length and cover the last 2 x days days, each moment once |
| FounderNumbers.TotalIsTheWhole | app/modules/admin/numbers_service.py:111-144 | cutting time into periods loses and doubles no deal and no repeat |
| FounderNumbers.RepeatsConserved | app/modules/admin/numbers_service.py:111-144 | deals less repeats is at least the number of pairs, and equal if and only if no pair is tied at its first moment |
| FounderNumbers.RepeatsInACity | app/modules/admin/numbers_service.py:104-144 | in any period and city the deals counted are those agreed in it there, and deals less repeats those of them with no sooner deal anywhere of the same brand and creator |
| AttentionOrder.ByUrgencyIsOrdered | app/core/attention.py:163-188 | the result is a permutation in key order |
| AttentionOrder.ByUrgencyIsStable | app/core/attention.py:188 | items of one key keep their order |
| AttentionOrder.UrgencyMeans | app/core/attention.py:163-188 | new sign-ins first, then the sooner due, undated last, then priority, then the id |
| AttentionOrder.MoreAtStakeFirst | app/core/attention.py:77-109 | of two items due the same day the whole account comes before the money's way, that before a dispute or payment, and that before the day's work |
| AttentionOrder.TieIsTheFirstId | app/core/attention.py:171-187 | the last word is the first id an item has, proof before draft, memo, application, campaign, domain and session |
| AttentionOrder.TextLeqByCharacters | app/core/attention.py:186-188 | ids are compared by the first character they differ in, a beginning before what it begins |
| AttentionOrder.SameRecordsSameOrder | app/core/attention.py:163-188 | every permutation of the items gives one order if and only if no two different items share a key |
| AttentionOrder.TwoCanShareAKey | app/core/attention.py:171-187 | two different items of one key, which come out in the order they came |
| HostLinks.HostAllowedByLabels | app/core/links.py:57-59 | a host is allowed if and only if the labels of a listed name end its own, for every string |
| HostLinks.NameMatchesByLabels | app/core/config.py:319 | the same test for one name, as passkey origins use it |
| HostLinks.AcceptedLinks | app/core/links.py:62-86 | exactly which links are accepted |
| HostLinks.RefusedLinks | app/core/links.py:62-86 | the exact cause of each refusal |
| ProofScore.Score.ScoreOne | scripts/score_proof_reader.py:169-218 | each counter grows by exactly the numbers of its kind |
| ProofScore.Score.ScoreMetrics | scripts/score_proof_reader.py:191-207 | the loop counts right, missed, wrong and invented metrics, each metric once |
| ProofScore.TallyCounts | scripts/score_proof_reader.py:169-223 | what one screenshot adds to each counter: right within 1 or 1% off an abbreviated screen and exactly otherwise, missed, wrong, invented, misjudged, and a wrong handle or date |
| ProofScore.Score.ScoreAll | scripts/score_proof_reader.py:300-315 | one model over the test set: every counter is the sum of what each screenshot adds to it, and it passes if and only if every screen is faultless |
| ProofScore.NothingLostOrCountedTwice | scripts/score_proof_reader.py:169-218 | over a test set right + missed + wrong is the number of expected numbers on screens that did not fail, and invented the readings with no true value |
| ProofScore.PassesExactlyWhenFaultless | scripts/score_proof_reader.py:105-113 | a model passes if and only if every screen was judged right, every number read exactly or within the abbreviation's bound, and none besides |

## Left out

- The pool's timeout on a wait: in `BusyProcess` a wait lasts until a connection comes free or the one who waits is cancelled, so a freeze there is what the timeout would end.
- How many jobs and readiness checks there are at once: the parameters `others` and `pairs` of `BusyProcess`.
- Non-HTTP scopes (websockets, lifespan), which every layer passes through untouched, and the tracing layer.
- The content length of a replayed answer, which Starlette works out from its body.
- The order of response headers and repeated values beyond what a map of name to values holds.
- The text of problem answers; their `X-Request-ID` is overwritten by the outer layer with the same value.
- `with_key_responses`, `_credential` and the OpenAPI text: documentation and a caller's identity.
- A row's other columns: notes, `updated_at`, the tokens ended by a suspension, the campaigns in a brand's preserved text.
- The 20,000-character limit on a takedown's preserved text, which depends on how the text is escaped as JSON.
- Account deletion, visibility of withheld items, deal memos and payments: other modules decide them.
- `figures` over the report queue and the founders' rates, medians and values: one-line sums over the same rows.
- `parse_expected`, prices, tokens and the texts of mistakes in the scorer; it is modelled on what `parse_expected` accepts, and a metric is its place in the list of seven.
- The JSON text of a stored record: a record is kept as the value its text stands for.
- `scrub_event`, which drops four fields before redaction.
- Row locks in `WarningRuns` are held from the read to the commit or abort; a crash is an abort.
- `WarningRuns.Take`'s batch is any set of owed, unlocked rows, of which the query's nearest fifty are one.
- SQL, the ORM and Pydantic: a table is a map of rows, a request what its schema lets through.
