# Verified model of the auth server

A Dafny model of the stateful core of the auth server: its two rate limiters, the SurrealDB connection
pool, one-time passwords and the handler that guards them, the audit worker pool, refresh-token
sessions, passkeys, the single-use registries (WebAuthn challenges, OAuth states, CSRF tokens) and the
hand-written codecs. `dafny verify dfyconfig.toml` checks it. Nothing was executed: everything below is
a statement that Dafny proves about the model.

How it is laid out:

- Code that mutates objects is modelled by classes and methods with loops (`RateLimiter.Allow`,
  `MemoryRateLimiter`, `OTPService.Verify`, `AuthHandler.VerifyOTP`, `Pool.Close`, `AuditRepo`,
  `SessionRepo`, `SessionAuthService`, `CredRepo`, `PasskeyService`, `OAuthService`, `CSRF`, the
  printers and the base64url helpers). Each is proved against a function of the old state, and the
  lemmas are about whole runs of those functions.
- Code whose difficulty is concurrency (`PoolProtocol`, `OtpInterleaving`, `AuditQueue`, `CsrfTokens`,
  `Registry`) is a state machine: a datatype of atomic steps, a guard, a step function, an invariant,
  and runs over arbitrary sequences of steps. A step that is not enabled leaves the state alone, so
  every sequence is a run.
- Instants and durations are integers counting nanoseconds. Clock readings, random values, hash
  functions, dial outcomes, failures of the database driver and answers of the WebAuthn library are
  parameters or part of the step.

Where the code does not do what its comments or its name suggest, the model follows the code:

- `allow` prunes a key's log with the window of the current call. When two rules share a key, a call
  with a shorter window forgets admissions another rule still needs
  (`SlidingWindow.AgreesExactlyWhenNothingForgotten`, `SlidingWindow.ForgettingNeedsTwoWindows`, and with
  the shipped numbers and requests served one after another `SlidingWindow.SharedKeyBreaksTheRule`). With
  a limit that is not positive the denial branch can index an empty log
  (`SlidingWindow.PanicsExactlyWhenLogIsEmpty`).
- An OTP is described as single-use with three attempts. That is exact for calls that do not overlap;
  n overlapping calls make up to n + 2 comparisons and up to n of them succeed, and both bounds are
  reached (`OtpInterleaving.OverlapBound`, `OtpInterleaving.OverlapBoundIsReached`).
- `Close` does not wait for statements in flight, and `reconnect` sends into the channel without reading
  the closed flag. If nobody borrows after `Close`, no schedule sends on the closed channel exactly when
  at that moment no task is between the closed check and the send, inside `reconnect`, or still before
  or in the first try of its statement, whose connection may die
  (`PoolProtocol.CloseIsSafeExactlyWhenQuiet`, and a failing run in
  `PoolProtocol.CloseDuringFirstTryCanPanic`).
- The schema comments allow several passkeys per user; `SaveCredential` keeps one, and a registration
  refused by the unique key-id index has already deleted the user's old one
  (`Passkeys.RegistrationLasts`, and a failing run in `Passkeys.RefusedRegistrationLosesTheOld`).
- `FinishRegistration` takes any pending ceremony, a login one included. The credential comes from a
  registration begun for that user exactly when the ceremony has a handle
  (`Passkeys.RegisteredFromRegistration`, failing run in `Passkeys.LoginCeremonyRegisters`), and restoring
  the ceremony's handle changes the user's exactly when the ceremony has none and the user has one
  (`Passkeys.RestoreChangesNothing`, failing run in `Passkeys.LoginAfterRegistration`).
- The authenticator id comes back as the text of its hexadecimal form (`Passkeys.ShownAsRegistered`), and
  a sign count reads as zero when the driver hands it over in an unexpected number type
  (`Credentials.CountReadsBack`).
- `Create` skips revocation for an empty user id, so such sessions pile up
  (`Sessions.EmptyUserPilesUp`).
- The timestamp prefix of a request id is cut to eight digits, and keeps the order of times only as
  stated by `RequestId.OrderIsKept` and `RequestId.OrderIsLost`.

Assumptions are hypotheses of the lemmas: a clock that does not run backwards, one (limit, window) pair
per key where `Uniform` is required, fresh random values (`Fresh`, `FreshKeys`, `FreshRandoms`), and no
hypothesis at all on the OTP hash.

## Model

| member | source | states |
|---|---|---|
| SlidingWindow.LogSinceHorizon | internal/interfaces/http/middleware/ratelimit.go:46-66 | whatever pairs a key is called with, its log is exactly the admitted instants after the latest cutoff used so far |
| SlidingWindow.AgreesExactlyWhenNothingForgotten | internal/interfaces/http/middleware/ratelimit.go:32-66 | with mixed pairs a call decides like a limiter with full memory, for every limit, if and only if no admission inside its window was pruned earlier |
| SlidingWindow.ForgettingNeedsTwoWindows | internal/interfaces/http/middleware/ratelimit.go:46-56 | calls of one key can forget an admission still inside their window exactly when two different windows share the key, whatever the limits |
| SlidingWindow.SharedKeyBreaksTheRule | internal/interfaces/http/middleware/ratelimit.go:94-182 | the shipped ip rule and the general limit on one key: five requests at once, one without a rule 61 seconds later, and the rule then admits another although the key has more than its ten admissions in the five minutes |
| SlidingWindow.PanicsExactlyWhenLogIsEmpty | internal/interfaces/http/middleware/ratelimit.go:58-61 | the denial branch indexes an empty log exactly for a known key, a limit that is not positive, and no admission after every cutoff used |
| SlidingWindow.LogIsRecentHistory | internal/interfaces/http/middleware/ratelimit.go:46-66 | with one pair per key the pruned log is the part of the whole admission history still inside the window |
| SlidingWindow.DecidesAsReference | internal/interfaces/http/middleware/ratelimit.go:32-66 | every decision equals that of a limiter that never forgets and counts its own admissions |
| SlidingWindow.SameAdmissions | internal/interfaces/http/middleware/ratelimit.go:32-66 | the pruned and the unpruned limiter admit the same calls, interval by interval |
| SlidingWindow.WindowBound | internal/interfaces/http/middleware/ratelimit.go:32-66 | every half-open interval of the window's length, at any real endpoint, holds at most limit admissions |
| SlidingWindow.LimiterIsLegal | internal/interfaces/http/middleware/ratelimit.go:32-66 | the limiter is itself a policy that keeps the limit in every interval |
| SlidingWindow.GreedyOptimal | internal/interfaces/http/middleware/ratelimit.go:32-66 | no policy that keeps the limit in every interval admits more of any prefix of the arrivals |
| SlidingWindow.KthAdmissionNoLater | internal/interfaces/http/middleware/ratelimit.go:32-66 | the k-th admission comes no later than the k-th of any legal policy |
| SlidingWindow.RetryAfterIsExact | internal/interfaces/http/middleware/ratelimit.go:58-61 | a denied caller, alone on the key, is denied with the remaining wait at every earlier time and admitted from then on |
| SlidingWindow.Consult | internal/interfaces/http/middleware/ratelimit.go:46-65 | the prune loop and the answer compute the specified verdict and log |
| SlidingWindow.RateLimiter.Allow | internal/interfaces/http/middleware/ratelimit.go:32-66 | the verdict is the one the key's whole traffic determines, and other keys are untouched |
| RetryAfter.DecimalReadsBack | internal/interfaces/http/middleware/ratelimit.go:129-141 | decimal notation read back gives the number, without leading zeros |
| RetryAfter.Itoa | internal/interfaces/http/middleware/ratelimit.go:129-141 | the ten-byte buffer loop prints every number below 10^10 and stays in bounds |
| RetryAfter.HeaderFits | internal/interfaces/http/middleware/ratelimit.go:103-104 | for every Duration the seconds fit the buffer, exceed the wait, and by at most one second |
| RetryAfter.Header | internal/interfaces/http/middleware/ratelimit.go:101-119 | the header is a numeral (RFC 9110 section 10.2.3) that reads back as those seconds |
| RetryAfter.HeaderIsEnough | internal/interfaces/http/middleware/ratelimit.go:101-119 | coming back after the announced seconds is admitted, more than a second earlier is denied |
| PoolProtocol.InvStep | internal/adapters/persistence/surrealdb/pool.go:92-236 | every step keeps each connection in at most one place, closed at most once, and open exactly while it is somewhere |
| PoolProtocol.NamespaceSelection | internal/adapters/persistence/surrealdb/pool.go:131-205 | under every interleaving each statement, first try or retry, runs on an open connection owned by its task alone and switched to the target the task asked for |
| PoolProtocol.JobsAreAsked | internal/adapters/persistence/surrealdb/pool.go:131-205 | a task exists exactly if it was begun, and works for the API and target it was begun with |
| PoolProtocol.ExecutesAtMost | internal/adapters/persistence/surrealdb/pool.go:131-205 | in any run a CreateRecord executes its statement at most once and a Query at most twice |
| PoolProtocol.RetriesAreQueries | internal/adapters/persistence/surrealdb/pool.go:148-168 | a statement executed on a retry belongs to a Query whose first try found its connection dead and which then closed that connection |
| PoolProtocol.AfterReconnectWaits | internal/adapters/persistence/surrealdb/pool.go:148-198 | out of reconnect, whether it succeeded or failed, a Query stands in line for its second try until it takes a connection or is cancelled, and a CreateRecord is done |
| PoolProtocol.ConservedStep | internal/adapters/persistence/surrealdb/pool.go:92-236 | every step keeps the slot count, and loses one slot exactly on a failed reconnect |
| PoolProtocol.Conservation | internal/adapters/persistence/surrealdb/pool.go:52-120 | before Close, idle + held + rebuilding + lost = maxConns, and lost counts the failed reconnects |
| PoolProtocol.ReturningNeverBlocks | internal/adapters/persistence/surrealdb/pool.go:101-120 | every send into the channel finds room |
| PoolProtocol.BlockedBorrowersHoldNothing | internal/adapters/persistence/surrealdb/pool.go:92-99 | waiting borrowers hold nothing, and with an empty channel every slot not lost is with a task that can step |
| PoolProtocol.SlotIsFreedOrLost | internal/adapters/persistence/surrealdb/pool.go:101-120 | in an open pool a task gives up its slot only to the channel, or loses it in a failed reconnect |
| PoolProtocol.BorrowerIsServed | internal/adapters/persistence/surrealdb/pool.go:92-120 | while a slot is left, a waiting borrower can take a connection after at most twelve steps of one other task |
| PoolProtocol.RankFalls | internal/adapters/persistence/surrealdb/pool.go:131-205 | every step of a task lowers its rank and touches no other task |
| PoolProtocol.TasksTerminate | internal/adapters/persistence/surrealdb/pool.go:131-205 | a task takes at most twelve steps in any run |
| PoolProtocol.CloseLeaksNothing | internal/adapters/persistence/surrealdb/pool.go:216-236 | after a Close with no task at risk, and the end of all holders, every connection ever opened was closed exactly once, whichever died in use |
| PoolProtocol.CloseIsSafeExactlyWhenQuiet | internal/adapters/persistence/surrealdb/pool.go:101-175 | if nobody borrows after Close, no schedule sends on the closed channel if and only if, when Close is called, no task is between check and send, inside reconnect, or before the end of its first try |
| PoolProtocol.CloseDuringFirstTryCanPanic | internal/adapters/persistence/surrealdb/pool.go:112-151 | a run of a new pool that ends in a send on the closed channel |
| PoolProtocol.PanickedLeaks | internal/adapters/persistence/surrealdb/pool.go:109-119 | a task that did send on the closed channel leaves its connection open |
| ConnectionPool.Driver.Connect | internal/adapters/persistence/surrealdb/pool.go:73-90 | a connection whose sign-in or namespace selection fails is closed once |
| ConnectionPool.Pool.Close | internal/adapters/persistence/surrealdb/pool.go:216-236 | the drain loop closes exactly the connections in the channel, each once; a second Close does nothing |
| ConnectionPool.Pool.Fill | internal/adapters/persistence/surrealdb/pool.go:61-68 | the fill loop ends in the protocol's initial state, or in a state where everything opened was closed once |
| ConnectionPool.NewPool | internal/adapters/persistence/surrealdb/pool.go:45-71 | a pool comes out exactly when the endpoint is set and every dial succeeds; otherwise nothing stays open |
| FixedWindow.TwiceTheLimit | internal/adapters/ratelimit/memory.go:33-93 | without Reset every half-open interval of the window's length holds at most 2 * MaxAttempts admissions, peeks included |
| FixedWindow.PermanentQuota | internal/adapters/ratelimit/memory.go:84-93 | with Window 0 at most MaxAttempts are ever admitted, and the counter is exactly the number admitted |
| FixedWindow.BucketIsHistory | internal/adapters/ratelimit/memory.go:75-93 | the bucket of a fresh key is the window running, found from the operations alone, and the number of calls admitted since it began |
| FixedWindow.AllowedExactlyUnderTheLimit | internal/adapters/ratelimit/memory.go:31-46 | on a fresh key a call is admitted exactly when fewer than MaxAttempts calls have been admitted since its window began |
| FixedWindow.FreshWindowAdmits | internal/adapters/ratelimit/memory.go:84-93 | from any state, a call a full window after the previous operation is admitted |
| FixedWindow.RemainingIsExact | internal/adapters/ratelimit/memory.go:56-73 | GetRemaining answers n: exactly the next n Allow calls at that instant succeed |
| FixedWindow.MemoryRateLimiter.Allow | internal/adapters/ratelimit/memory.go:31-46 | answer and new entry of one call; no other key changes |
| FixedWindow.MemoryRateLimiter.GetOrCreate | internal/adapters/ratelimit/memory.go:75-82 | the bucket is found or starts now with no attempts |
| FixedWindow.MemoryRateLimiter.RollWindow | internal/adapters/ratelimit/memory.go:84-93 | an elapsed window starts over; a permanent quota never does |
| FixedWindow.MemoryRateLimiter.GetRemaining | internal/adapters/ratelimit/memory.go:56-73 | answer and rolled entry; no other key changes |
| Otp.RecordIsHistory | internal/core/identity/otp_service.go:52-126 | the stored record is a function of the events since the user's last Send |
| Otp.VerifyIsHistory | internal/core/identity/otp_service.go:87-126 | Verify compares exactly while the last code sent is open, that is at most three minutes old and presented fewer than three times, always in time and wrongly, and is true exactly when it is open and matches |
| Otp.SuccessNeedsNewSend | internal/core/identity/otp_service.go:123-125 | between two successes of a user there is a Send |
| Otp.ThreeComparisons | internal/core/identity/otp_service.go:106-121 | at most three comparisons are made against one sent code |
| Otp.OTPStore.IncrementAttempts | internal/core/identity/store.go:31-32 | counts on an existing record only |
| Otp.OTPService.Send | internal/core/identity/otp_service.go:52-85 | the code is stored, for three minutes, whether or not delivery succeeds |
| Otp.OTPService.Verify | internal/core/identity/otp_service.go:87-126 | the store calls produce the answer and the record of the history specification |
| OtpInterleaving.InvStep | internal/core/identity/otp_service.go:89-126 | every store call of any of n overlapping Verify calls keeps the bookkeeping of passed, counted and compared calls per sent code |
| OtpInterleaving.OverlapBound | internal/core/identity/otp_service.go:89-126 | with at most n overlapping calls every sent code is compared at most n + 2 times and accepted at most n times |
| OtpInterleaving.OverlapBoundIsReached | internal/core/identity/otp_service.go:89-126 | for every n >= 1 a run of n overlapping calls makes exactly n + 2 comparisons, n of them successful |
| OtpInterleaving.AloneIsAtomic | internal/core/identity/otp_service.go:89-126 | the store calls of a Verify that no other overlaps leave the record, and give the comparison and the success, of the atomic Verify |
| VerifyHandler.OthersDoNotMatter | internal/interfaces/http/handlers/auth_handler.go:161-202 | other users and other key prefixes leave the user's counter, and unless they send a code the record, unchanged |
| VerifyHandler.CounterIsOps | internal/interfaces/http/handlers/auth_handler.go:175-202 | in a segment without success the failure counter is that of the fixed-window limiter on the user's own attempts |
| VerifyHandler.ComparisonsAreAdmissions | internal/interfaces/http/handlers/auth_handler.go:175-187 | comparisons never exceed the limiter's admissions |
| VerifyHandler.TenComparisons | internal/interfaces/http/handlers/auth_handler.go:175-202 | at most ten comparisons for a user in any half-open ten minutes of a segment without success, however many codes are sent |
| VerifyHandler.TenComparisonsInAnySegment | internal/interfaces/http/handlers/auth_handler.go:175-202 | the same for every segment of every run of a fresh process |
| VerifyHandler.RecordsAreHistory | internal/interfaces/http/handlers/auth_handler.go:142-187 | the stored records are those of the OTP service on the sends and attempts that the limiter lets through |
| VerifyHandler.AnswersAreHistory | internal/interfaces/http/handlers/auth_handler.go:161-202 | every answer of a run of a fresh process: bad request exactly for an incomplete one, too many exactly when the limiter refuses, verified exactly when it lets a complete one through whose code matches the last code sent while that is open |
| VerifyHandler.SuccessClears | internal/interfaces/http/handlers/auth_handler.go:199-202 | after a success both counters and the code of the user are gone |
| VerifyHandler.SendCounterIsOps | internal/interfaces/http/handlers/auth_handler.go:93-103 | the send counter of an address is that of the fixed-window limiter on the sends to it |
| VerifyHandler.TenSends | internal/interfaces/http/handlers/auth_handler.go:93-146 | codes are stored for one address at most ten times in any half-open ten minutes without a reset |
| VerifyHandler.AuthHandler.VerifyOTP | internal/interfaces/http/handlers/auth_handler.go:161-202 | limiter, verification and resets: reply and whole new state |
| VerifyHandler.AuthHandler.SendOTP | internal/interfaces/http/handlers/auth_handler.go:93-146 | a code is stored exactly when the send counter allows it, and reported sent when it is also delivered |
| AuditQueue.InvStep | internal/adapters/persistence/surrealdb/audit_repo.go:46-91 | every step keeps the queue in order and within 1024, every event in one place, and workers from leaving early |
| AuditQueue.NothingLostOrRepeated | internal/adapters/persistence/surrealdb/audit_repo.go:73-91 | dequeued events followed by the queue are the accepted ones in order; each accepted event is written, in one worker's hands or queued, exactly once |
| AuditQueue.AcceptedAreTaken | internal/adapters/persistence/surrealdb/audit_repo.go:73-84 | the accepted events are, in order, those of the calls before Shutdown that find room and whose select takes the send |
| AuditQueue.OutcomesAre | internal/adapters/persistence/surrealdb/audit_repo.go:73-84 | a caller is told accepted exactly when its event is taken, dropped exactly when an open queue is full, and an ended context exactly when the send is not taken |
| AuditQueue.WorkIsConserved | internal/adapters/persistence/surrealdb/audit_repo.go:46-91 | worker steps taken plus steps left equal five plus two per accepted event, at any time of any run |
| AuditQueue.SomeWorkerCanStep | internal/adapters/persistence/surrealdb/audit_repo.go:86-91 | after Shutdown, while work is left, some worker can step |
| AuditQueue.ShutdownWritesEverything | internal/adapters/persistence/surrealdb/audit_repo.go:57-70 | after Shutdown exactly Rank more worker steps follow, and when all workers have exited every accepted event was written exactly once |
| AuditQueue.ClosedForGood | internal/adapters/persistence/surrealdb/audit_repo.go:57-84 | nothing is accepted after Shutdown |
| AuditQueue.PanicsExactlyAfterShutdown | internal/adapters/persistence/surrealdb/audit_repo.go:73-84 | a producer panics exactly when Shutdown came first and select takes the send |
| AuditQueue.AuditRepo.Start | internal/adapters/persistence/surrealdb/audit_repo.go:46-55 | five idle workers the first time, nothing afterwards |
| AuditQueue.AuditRepo.LogSecurityEvent | internal/adapters/persistence/surrealdb/audit_repo.go:73-84 | exactly when an event is accepted, dropped, given up or panics; an accepted one is the last in the queue, any other changes nothing |
| AuditQueue.AuditRepo.Shutdown | internal/adapters/persistence/surrealdb/audit_repo.go:57-70 | closes the queue once and returns when the workers, stepping in any order, have exited and written every accepted event exactly once |
| AuditQueue.AuditRepo.RunWorker | internal/adapters/persistence/surrealdb/audit_repo.go:86-91 | the worker loop writes the queue in order, then exits if it is closed and waits if it is not |
| Sessions.OneSessionPerUser | internal/adapters/persistence/surrealdb/session_repo.go:24-46 | in every reachable state each nonempty user id has at most one session |
| Sessions.EmptyUserPilesUp | internal/adapters/persistence/surrealdb/session_repo.go:29-32 | for the empty user id two sessions coexist |
| Sessions.HashesAreUnique | internal/core/identity/token_service.go:51-69 | no two sessions share a token hash |
| Sessions.PresentedAtMostOnce | internal/core/identity/token_service.go:71-91 | once issued, a token is good for one presentation: whatever came of it, failures included, no later one is accepted |
| Sessions.AcceptedAtMostOnce | internal/core/identity/token_service.go:71-91 | over a whole run every refresh token is accepted at most once |
| Sessions.LivesUntilEnded | internal/core/identity/token_service.go:51-99 | a session stays exactly until a new issue to its user, its own presentation, a revocation or a cleanup after expiry |
| Sessions.StoredIsLatest | internal/core/identity/token_service.go:51-99 | the table holds exactly the latest live sessions of the history |
| Sessions.RotateIsHistory | internal/core/identity/token_service.go:71-91 | Rotate succeeds exactly for the latest token issued to an existing user and not ended since |
| Sessions.UsersAreLast | internal/core/identity/token_service.go:83-89 | the users a rotation is checked against are those of the last change |
| Sessions.ChainKeepsOwner | internal/core/identity/token_service.go:71-91 | a new session has the event's token and expiry and belongs to the user its rotation chain was first issued to |
| Sessions.PresentationEndsAll | internal/core/identity/token_service.go:77-81 | a presentation that finds a session ends all sessions of its user, the empty id included, but for the one it issues |
| Sessions.SessionRepo.Create | internal/adapters/persistence/surrealdb/session_repo.go:24-46 | revokes the user's sessions, then inserts |
| Sessions.SessionRepo.FindByTokenHash | internal/adapters/persistence/surrealdb/session_repo.go:48-81 | some row with the hash, or none if there is none |
| Sessions.SessionRepo.RevokeByTokenHash | internal/adapters/persistence/surrealdb/session_repo.go:95-105 | deletes exactly the rows with the hash |
| Sessions.SessionRepo.CleanupExpired | internal/adapters/persistence/surrealdb/session_repo.go:107-117 | deletes exactly the rows that expired before now |
| Sessions.SessionAuthService.IssueSession | internal/core/identity/token_service.go:51-69 | the step of the specification |
| Sessions.SessionAuthService.Rotate | internal/core/identity/token_service.go:71-91 | find, revoke, check the user, issue, for whichever row the store returns; with distinct hashes the step of the specification |
| Sessions.SessionAuthService.RevokeAllForUser | internal/core/identity/token_service.go:93-99 | the step of the specification |
| Base64Url.BytesOfSextets | web/static/js/passkey.js:227-236 | regrouping bytes into six-bit groups and back loses nothing |
| Base64Url.SextetsKeepBits | web/static/js/passkey.js:267-274 | bit j of the k-th character's value is bit 6k + j of the bytes, with zeros behind their end (RFC 4648 section 4) |
| Base64Url.Tables | web/static/js/passkey.js:227-274 | the two alphabets are those of RFC 4648 sections 4 and 5 |
| Base64Url.SextetsOfBytes | web/static/js/passkey.js:227-236 | exactly the canonical groups (possible length, no stray bits) come from bytes |
| Base64Url.ReadRawIsInverse | internal/adapters/persistence/surrealdb/cred_repo.go:188-198 | the unpadded URL form reads back as the bytes |
| Base64Url.ReadRawSkipsBreaks | internal/adapters/persistence/surrealdb/cred_repo.go:188-198 | the Go decoder ignores line breaks |
| Base64Url.RawIsPlain | web/static/js/passkey.js:267-274 | the encoded form has no '+', '/', '=' or white space |
| Base64Url.EncodersAgree | web/static/js/passkey.js:267-274 | the browser's encoder writes the unpadded form of RFC 4648 section 5 that the Go store uses |
| Base64Url.JsRoundTrip | web/static/js/passkey.js:227-274 | for every byte sequence the browser's decoder inverts its encoder |
| Base64Url.AtobOfBtoa | web/static/js/passkey.js:227-274 | the platform's atob decodes what its btoa writes, which is padded to a multiple of four |
| Base64Url.AtobOfUnpadded | web/static/js/passkey.js:227-236 | atob takes strings without padding unless one character is left over |
| Base64Url.AtobSkipsSpaces | web/static/js/passkey.js:227-236 | atob ignores white space wherever it stands |
| Base64Url.ReadUrlChars | internal/adapters/persistence/surrealdb/cred_repo.go:188-198 | Go reads every string of the URL alphabet unless one character is left over |
| Base64Url.JsReadsWhatGoReads | web/static/js/passkey.js:227-236 | on strings of the URL alphabet the browser and Go decode alike, failures included, and encoding gives the string back exactly when it is canonical |
| Base64Url.ArrayBufferToBase64url | web/static/js/passkey.js:267-274 | the loop and the replacements produce the unpadded form |
| Base64Url.Base64urlToArrayBuffer | web/static/js/passkey.js:227-236 | the padding loop ends, after at most two characters on encoder output, and the bytes are the decoded ones |
| Handles.ParseRecoversTenant | internal/core/identity/user.go:213-231 | the parse recovers tenant and random bytes exactly for nonempty tenants without a colon |
| Handles.ParseSplitsAtFirstColon | internal/core/identity/user.go:223-231 | the split is at the first colon, and an empty side is refused |
| Handles.HandlesAreDistinct | internal/core/identity/user.go:213-221 | different tenants or random bytes give different handles |
| RequestId.PrintedValue | internal/interfaces/http/middleware/request_id.go:162-188 | exactly width characters, standing for the number or for its leading digits |
| RequestId.HexTable | internal/interfaces/http/middleware/request_id.go:162-163 | the digits are 0 to 9 and a to f |
| RequestId.OrderIsKept | internal/interfaces/http/middleware/request_id.go:152-188 | string order is time order for times with equally many digits, or when the earlier has fewer digits than the width |
| RequestId.OrderIsLost | internal/interfaces/http/middleware/request_id.go:152-188 | in every other pair of digit counts some later time prints first |
| RequestId.PrintHex | internal/interfaces/http/middleware/request_id.go:162-176 | the sixteen-byte buffer loop prints every int64 |
| RequestId.PrintPadded | internal/interfaces/http/middleware/request_id.go:178-188 | cuts to the width or fills up on the left |
| Registry.LiveIsIssuedMinusSpent | internal/core/identity/passkey_service.go:431-446 | an entry is there exactly when the last operation on its key stored it, with that data |
| Registry.LiveKeys | internal/core/identity/passkey_service.go:431-446 | with fresh keys the live keys are the issued ones less the taken ones |
| Registry.RedeemedOncePerIssue | internal/core/identity/passkey_service.go:437-446 | between two redemptions of a key it was issued again; a fresh key is redeemed at most once |
| OAuthStates.CompletionIsHistory | internal/core/identity/oauth_service.go:124-143 | CompleteAuth passes exactly for a state issued at most ten minutes before and unused since |
| OAuthStates.CompletedOnce | internal/core/identity/oauth_service.go:131-143 | a state is completed at most once, and not after a late attempt |
| OAuthStates.OAuthService.BeginAuth | internal/core/identity/oauth_service.go:101-122 | stores the state for a known provider only |
| OAuthStates.OAuthService.CompleteAuth | internal/core/identity/oauth_service.go:124-143 | unknown provider, unknown state, expiry and success, and what each leaves |
| CsrfTokens.InvStep | internal/interfaces/http/middleware/csrf.go:45-113 | every locked section keeps live = issued - spent and the token counts |
| CsrfTokens.TokensAreConserved | internal/interfaces/http/middleware/csrf.go:45-113 | live, in-flight and mismatched tokens together equal the GETs answered; admitted unsafe requests never exceed the tokens issued |
| CsrfTokens.RedeemedOnce | internal/interfaces/http/middleware/csrf.go:82-98 | no token is redeemed twice, mismatches included |
| CsrfTokens.OnlyMatchesGoOn | internal/interfaces/http/middleware/csrf.go:82-104 | the requests admitted or about to be are exactly those whose live token equals their cookie, and the mismatches are the others that used a token up |
| CsrfTokens.CSRF.CheckToken | internal/interfaces/http/middleware/csrf.go:64-113 | admitted exactly with a live token that equals the cookie; a mismatch uses the token up |
| CsrfTokens.CSRF.ServeHTTP | internal/interfaces/http/middleware/csrf.go:27-116 | which requests are skipped, get a token, or are checked, with reply and all tokens afterwards |
| Credentials.RowRoundTrip | internal/adapters/persistence/surrealdb/cred_repo.go:62-88 | a credential survives encode, store and decode unchanged, for a driver that hands over counts as int64 |
| Credentials.CountReadsBack | internal/adapters/persistence/surrealdb/cred_repo.go:201-208 | a sign count reads back exactly when it comes in one of the three known number types, or is zero |
| Credentials.SaveRegisters | internal/adapters/persistence/surrealdb/cred_repo.go:62-88 | DELETE then CREATE under the unique index replaces the user's credential, or loses it when the key id is another user's |
| Credentials.CountCounts | internal/adapters/persistence/surrealdb/cred_repo.go:174-185 | the update sets the count of exactly that user's credential with that key id |
| Credentials.KidsAreUnique | internal/adapters/persistence/surrealdb/cred_repo.go:114-136 | no two rows share a key id |
| Credentials.LookupThroughEncoding | internal/adapters/persistence/surrealdb/cred_repo.go:90-136 | lookup by raw key id gives the owner's credential unchanged, and by user exactly that one |
| Credentials.CredRepo.SaveCredential | internal/adapters/persistence/surrealdb/cred_repo.go:62-88 | the two statements, and exactly when the second one fails |
| Credentials.CredRepo.FindCredentialsByUserID | internal/adapters/persistence/surrealdb/cred_repo.go:90-112 | the row loop lists exactly the user's credentials |
| Credentials.CredRepo.FindCredentialByKID | internal/adapters/persistence/surrealdb/cred_repo.go:114-136 | the credential with the key id, if any |
| Credentials.CredRepo.UpdateSignCount | internal/adapters/persistence/surrealdb/cred_repo.go:174-185 | the new table |
| Credentials.CredRepo.FindHandleByUserID | internal/adapters/persistence/surrealdb/cred_repo.go:39-60 | the stored handle, or none |
| Passkeys.HandlesAlwaysAgree | internal/core/identity/passkey_service.go:78-111 | in every reachable state a pending registration's handle is its user's stored one |
| Passkeys.HandleIsStable | internal/core/identity/passkey_service.go:163-237 | once assigned, a user's handle never changes |
| Passkeys.HandleNamesFirstTenant | internal/core/identity/passkey_service.go:97-104 | a stored handle was made by the user's first registration, and a parse recovers that tenant exactly when it is nonempty and colon-free |
| Passkeys.HandleNamesOneUser | internal/core/identity/passkey_service.go:154-161 | with fresh random bytes no two users share a handle |
| Passkeys.RestoreChangesNothing | internal/core/identity/passkey_service.go:286-307 | the restore in FinishRegistration keeps the rebuilt user's handle for a registration ceremony, and changes it exactly for a login ceremony of a user with a handle |
| Passkeys.CeremonyIsSingleUse | internal/core/identity/passkey_service.go:276-446 | a challenge finishes at most one ceremony, of either kind, per issue |
| Passkeys.TableIsKeyring | internal/core/identity/passkey_service.go:276-429 | in every reachable state the encoded table holds exactly one credential per registered user, the last registered with the last confirmed count |
| Passkeys.UsersAreKnown | internal/core/identity/passkey_service.go:251-274 | every ceremony and every credential of a user with an id belongs to a user who has a handle |
| Passkeys.DiscoverableLogin | internal/core/identity/passkey_service.go:390-409 | a registered raw key id resolves to its owner with exactly the owner's credential and the stored handle, which every user with an id has |
| Passkeys.NamedLogin | internal/core/identity/passkey_service.go:373-387 | a login by email resolves to the user the email leads to with exactly that user's credential, and to no one without one |
| Passkeys.LoginCounts | internal/core/identity/passkey_service.go:363-429 | a login that comes to a user, with a confirmed credential and count, sets exactly that count and uses the ceremony up |
| Passkeys.CeremonyStays | internal/core/identity/passkey_service.go:431-446 | a pending ceremony stays as it is until its challenge is used again |
| Passkeys.EmailLoginCounts | internal/core/identity/passkey_service.go:339-388 | from BeginLogin to FinishLogin: the user is found with the credential and exactly that user's count is set |
| Passkeys.DiscoverableLoginCounts | internal/core/identity/passkey_service.go:319-429 | from BeginLoginDiscoverable to FinishLogin: the raw key id leads to its owner and exactly the owner's count is set |
| Passkeys.RegistrationLasts | internal/core/identity/passkey_service.go:276-317 | a registration takes exactly when no other user has the key id, and lasts until the user's next one; a refused one leaves no credential |
| Passkeys.RefusedRegistrationLosesTheOld | internal/adapters/persistence/surrealdb/cred_repo.go:78-87 | a run in which a user with a credential registers another user's key id and ends with none |
| Passkeys.CeremonyOrigin | internal/core/identity/passkey_service.go:431-446 | a pending ceremony was stored by the last event that stored one under its challenge, and has a handle exactly if that event began a registration, of the same user |
| Passkeys.RegisteredFromRegistration | internal/core/identity/passkey_service.go:276-314 | a credential is registered under a challenge issued to begin a registration of its user exactly when the ceremony has a handle |
| Passkeys.LoginAfterRegistration | internal/core/identity/passkey_service.go:339-361 | a run whose pending login ceremony has no handle while its user has one |
| Passkeys.LoginCeremonyRegisters | internal/core/identity/passkey_service.go:276-314 | that login ceremony finishes a registration and replaces the credential |
| Passkeys.ShownAsRegistered | internal/core/identity/passkey_service.go:133-147 | the library is shown what was registered, but for the authenticator id, which is kept only if it is empty |
| Passkeys.ResolutionIsUnique | internal/core/identity/passkey_service.go:390-417 | with distinct handles the lookups of a login have one outcome |
| Passkeys.PasskeyService.StoreSession | internal/core/identity/passkey_service.go:431-435 | the registry's store operation |
| Passkeys.PasskeyService.TakeSession | internal/core/identity/passkey_service.go:437-446 | the registry's take operation |
| Passkeys.PasskeyService.FindOrCreateHandle | internal/core/identity/passkey_service.go:84-104 | the stored handle, or a new one that is stored |
| Passkeys.PasskeyService.BeginRegistration | internal/core/identity/passkey_service.go:163-274 | the step of the specification |
| Passkeys.PasskeyService.FinishRegistration | internal/core/identity/passkey_service.go:276-317 | the step of the specification, the handle handed to the library, and success exactly when the credential is stored |
| Passkeys.PasskeyService.BeginLogin | internal/core/identity/passkey_service.go:339-361 | the step of the specification; begins exactly for a user with credentials |
| Passkeys.PasskeyService.BeginLoginDiscoverable | internal/core/identity/passkey_service.go:319-337 | the step of the specification |
| Passkeys.PasskeyService.ResolveLogin | internal/core/identity/passkey_service.go:373-417 | by email, by key id, or else by handle, where the store may return any user with it: user, handle and credentials |
| Passkeys.PasskeyService.FinishLogin | internal/core/identity/passkey_service.go:363-429 | the ceremony is used up, the resolved user is returned on a validated assertion and that user's count is updated; with distinct handles the step of the specification |
| Passkeys.WebAuthnCreds | internal/core/identity/passkey_service.go:455-472 | element by element and in order, each as registered but for the authenticator id |

## Left out

- Windows and buckets are values in their maps, not shared pointers; the source never keeps one outside its lock.
- Mutexes themselves: a locked section is one atomic step, and the object methods are proved for one caller at a time.
- The rule-matching loop of the rate-limit middleware (prefixes, methods, key functions) and the default rules other than the shared ip key: easy branches around the limiter.
- SlidingWindow.RetryAfterIsExact: `allow` reads the clock under its lock, so one reading stands for a call; the float64 rounding of `Seconds()` is taken as an exact floor.
- SlidingWindow.WindowBound: needs one (limit, window) pair per key and a limit of at least one, as mounted; other cases are the subject of the lemmas on shared keys and on the empty log.
- PoolProtocol.CloseLeaksNothing: borrowing after Close is excluded, there and in PoolProtocol.CloseIsSafeExactlyWhenQuiet; a receive from the closed channel returns a nil connection, which the source does not guard.
- PoolProtocol.NamespaceSelection: statements, results and the text test for dead connections are a free choice of each step.
- Otp.OTPService.Verify: store errors other than a missing record, the log line that slices the user hash to eight characters, and a missing store are not modelled; Save resets attempts to zero as the port promises.
- OtpInterleaving.OverlapBound: increments are atomic store calls; expired rows are removed only by Verify.
- The SurrealDB OTP adapter, which may not read the attempt count back in every number type: the port contract is used instead.
- VerifyHandler.AuthHandler.VerifyOTP: user lookup, session issue, cookies, security log and rendering after the resets, and an unset limiter, are not modelled.
- VerifyHandler.AuthHandler.SendOTP: form checks, tenant resolution and user creation come before or between the modelled steps and are not modelled; the send counter is keyed by email while the reset uses the user hash, so no replenishing of the send quota is claimed.
- FixedWindow.RemainingIsExact: GetRemaining may roll the window and shift later ones, so only the same-instant meaning is claimed.
- Generation of codes, tokens, states and handles: random values are parameters.
- AuditQueue.ShutdownWritesEverything: written means handed to the writer and returned from it; what the database does with the event, a nil pool and the five-second timeout are not modelled.
- AuditQueue.AuditRepo.Shutdown: producers that call while it waits are the subject of the run lemmas, not of the method; so are workers beside each other for AuditQueue.AuditRepo.RunWorker.
- Sessions.RotateIsHistory: `Rotate` never reads the expiry, so an expired session rotates until it is cleaned up; tokens appear as hashes, distinct by hypothesis; store errors and unset stores are not modelled; the sessions table is one table, while the source has one per tenant namespace taken from the request.
- Access tokens, roles, permissions and tenant defaults of a token pair.
- Base64Url.ReadRawIsInverse: decoding errors are one case; the partial bytes Go returns beside an error are not modelled.
- Handles.ParseRecoversTenant: strings are sequences of characters; the colon is one byte in UTF-8, so splitting bytes or characters is the same.
- CsrfTokens.CSRF.ServeHTTP: trimming of white space is done before the modelled comparison, and the token map is never pruned, as in the source; methods other than GET, HEAD, POST, PUT and DELETE pass unchecked, as in the source.
- Passkeys.DiscoverableLogin: attestation and assertion checks of the WebAuthn library are a free choice of the event; transports are not preserved by the adapter and are not modelled; nothing is claimed of the tenant of a login by email.
- Passkeys.TableIsKeyring: Begin and Finish calls are atomic and store calls succeed; the tenant namespace a table lives in and SQL text are not modelled.
- Credentials.RowRoundTrip: the number type of a count is fixed there; Credentials.CountReadsBack says what the others do.
- Passkeys.PasskeyService.FinishLogin: needs the unique key-id index, which `Credentials.KidsAreUnique` provides.
- AES-GCM, SHA-256, Argon2, JWT, SMTP, OAuth provider calls, configuration, HTTP rendering and browser scripts other than the two codec helpers.
