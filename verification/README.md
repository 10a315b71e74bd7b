# user-core, modelled and proved in Dafny

`user-core` holds identities: accounts and their sessions, phone lines, civil identities, the
programs that open access for dependents, and the erasure of persons. This project models its
stateful core as Dafny programs and proves what that core is for. It verifies as a whole with
`dafny verify dfyconfig.toml`.

The source is TypeScript over PostgreSQL functions. The TypeScript is modelled branch by branch:
objects whose methods change state are classes proved against functions on values, loops are
loops, pure code is functions. Each database function a service calls is modelled from the text of
its migration under `db/schema`, as one committed transaction; guards and triggers that can refuse
a write are part of that function. Clocks, random draws, network answers and whatever other
sessions commit between two statements are parameters, so every theorem holds for all of them.

| file | what it models |
|---|---|
| `Sessions`, `SessionHistories`, `SessionTerms`, `SessionService`, `SessionConcurrency`, `SessionSerialization`, `SessionOrder` | refresh tokens: one chain per session, serial histories, the terms of tokens and sessions, the service, interleaved transactions under the session lock, and a serial order of the requests for each interleaving |
| `LoginThrottle`, `ClientAddress`, `ProgramAuth`, `SocketBudget`, `Lockout` | the fixed-window throttle and its users; the capped exponential lock |
| `VerifiedAddress`, `Outbox`, `OutboxRuns`, `OutboxTurns`, `OutboxLeases` | the single point that reads a phone back; the leased outbox, drained by one worker and by many that crash, the two as one model, and what its leases are worth |
| `HmacRotation` | the re-hash of every active claim, and one line held by one person across all rotations |
| `Erasure`, `ErasureHistories`, `ErasureService`, `ErasureScheduler` | the erasure register, its walls, its facade and its sweep |
| `Digits`, `Calendar`, `BirthDate`, `Backups` | one Gregorian calendar (ECMA-262, section 21.4.1), birth dates, ages, dump names and retention |
| `Keyrings`, `SealedTokens`, `CivilIdentity` | keyring assembly, dotted encrypted tokens, sealed identities |
| `Migrations`, `MigrationRuns` | the migration runner, alone and with others under the advisory lock |
| `DependentAccess`, `DependentCalls` | one dependent per program reference while the reference keys rotate, attempt by attempt and call by call |
| `Wrappers`, `Arithmetic`, `Characters` | Option and Result; minima and capped doubling waits; digits and white space |

HMAC-SHA256, AES-256-GCM, HKDF (section 2 of RFC 5869), base64url (section 5 of RFC 4648), argon2
and JSON are function parameters. What is assumed of them is written as a predicate beside the
theorems that need it (`Sealing`, `Authentic`, `Faithful`, `SaltMatters`, `Injective`, `Decrypts`).

## Results that are not plain successes

- **Dotted key identifiers.** A key id holding a `.` makes every token written under it unreadable
  for ever; nothing in the keyring forbids one. The round trip holds exactly for dot-free ids
  (`TokenRoundTripIff`, `IdentityRoundTripIff`).
- **What grace gives.** The header of `src/auth/session.service.ts` (lines 37 and 40-43) says the grace
  window returns the successor already issued and never issues a token. The code at 104-122 rotates
  that successor and issues a new one; the model follows the code, and shows that this still leaves
  one ACTIVE token and can happen once (`GraceAtMostOnce`).
- **Empty keyrings.** A JSON `{}` assembles with an active identifier that names nothing; the
  active key exists exactly when the object is not empty (`ActiveKeyExistsIff`).
- **revokeAll and concurrent logins.** A `revokeAll` that waits for locks works on the sessions its
  statement saw when it started. When no login of the account falls between its start and its
  commit, it is a `revokeAll` at its commit (`SweepWithoutLoginIsRevokeAll`); when one does, the order
  of commits is no history of `revokeAll`s (`OvertakenSweep`). Some serial order of the requests
  always exists all the same: such a `revokeAll` stands before the logins it did not see
  (`SomeSerialOrder`). That theorem takes the identifiers and tokens drawn by logins to be new, as the
  model does for the tokens drawn by refreshes.
- **Blocked immediate erasure.** When a person becomes a last responsible between the demand and its
  execution, the answer is SOLE_RESPONSIBLE but the demand stays in flight with its deadline past:
  it can no longer be retracted, and the sweep will execute it as soon as the wall allows
  (`RacedImmediate`, `BlockedImmediateIsForGood`). If the sweep completes it first, the caller gets
  an error although the erasure succeeded.
- **The year wall of an attachment.** `src/persons/responsibilities.service.ts:120-123` calls the
  facade strictly harder than the wall. That holds exactly when the database is not in a later year
  than the service, or is one year ahead on the service's 31 December; so a database at most one
  calendar day ahead never speaks (`AttachFacadeImpliesWallIff`, `AttachWallIsSilent`). The
  emancipation facade implies its wall exactly when the database is in no earlier year.
- **Overlapping reference epochs.** Two first clicks of one reference that look up before either
  commits create two dependents exactly when their active keys differ, because the advisory lock is
  taken under the active pair (`OverlappingClicksForkIff`). `db/schema/024` relies on deployments
  not overlapping. `src/programs/reference-hmac.ts:20` still states the rule that 024 replaced.
- **Sends and leases.** Not crashing is not enough for an event to be accepted at most once: a worker
  that has not written its verdict when its lease runs out lets another one send the event again
  (`ExpiredLeaseSendsTwice`). A held event can be taken, and sent, again exactly when its holder's lease
  is over (`TakenAgainIff`, `SentAgainIff`); while everything happens within the leases then open and
  nobody crashes, it is accepted at most once (`TimelyRunsSendOnce`). The lease starts when the batch is
  claimed, so it has to outlast the handling of the whole batch. In general every extra accepted send
  is a crash, a verdict come too late, or one not written yet (`ExtraSendsAreAccounted`).
- **Migrations that wrap themselves.** Such a file takes effect exactly once unless a runner
  vanishes between its effect and its record (`ExactlyOnceIff`, `CrashInWindow`).
- **Dump names.** Names read back exactly from the year 100 on, since two-digit years are read as
  19xx (`DumpNameRoundTripIff`); order by name is order by instant for all four-digit years.
- **A window always admits its first call**, so a throttle configured below 1 behaves as 1; the
  bounds are stated with that effective cap.

## Model

| member | source | states |
|---|---|---|
| SessionHistories.AlwaysOneChain | src/auth/session.service.ts:132-206 | In every state reached by refreshes, logouts, revoke-alls, logins and deactivations, each living session's tokens form one linear replaced_by chain whose tail is its only ACTIVE token, dead sessions hold only REVOKED tokens, and no token outlives its session |
| SessionHistories.GraceSuccessorIsTail | src/auth/session.service.ts:104-122 | Under a GRACE verdict the successor is the ACTIVE tail of the presented token's own session |
| SessionHistories.VerdictByPosition | db/schema/004_sessions.sql:335-385 | In a living session the verdict is the token's place in the chain: the tail is USABLE until it expires, the one before it GRACE and older ones STALE until their own grace ends, then REPLAY |
| SessionHistories.ReplayEndsSession | src/auth/session.service.ts:104-147 | A REPLAY, and nothing else, ends its session with all its tokens and touches no other; STALE, DEAD and UNKNOWN write nothing |
| SessionHistories.RotateSucceeds | src/auth/session.service.ts:160-206 | Rotating the ACTIVE token of a living unexpired session under an unused draw meets no guard of the database |
| SessionHistories.RefreshNeverRaises | src/auth/session.service.ts:98-131 | The post-lock verdict is enough: what is rotated is always the ACTIVE tail of the presented token's living session, and the refresh never ends in a database exception |
| SessionHistories.RefreshUnderUsedDraw | src/auth/session.service.ts:160-206 | A refresh whose drawn value already names a row is rolled back whole |
| SessionHistories.ApplyWellFormed | db/schema/004_sessions.sql:120-284 | Each operation keeps the chain invariant |
| SessionHistories.ApplyAges | db/schema/004_sessions.sql:235-284 | Each operation only ages rows: none disappears, none returns to ACTIVE, no successor link is re-pointed, no revoked session revives |
| SessionHistories.UsableAtMostOnce | src/auth/session.service.ts:98-131 | One token value is answered with a new token under USABLE at most once, over any history |
| SessionHistories.GraceAtMostOnce | src/auth/session.service.ts:98-131 | One token value is answered under GRACE at most once, because that answer consumes the successor for ever |
| SessionHistories.AtMostTwoUses | src/auth/session.service.ts:98-131 | Over any history one token value is worth at most two answers, one USABLE and one GRACE, and none under any other verdict |
| SessionHistories.RevokedForGood | src/auth/session.service.ts:132-142 | Once a session is revoked none of its tokens is ever answered with a token again |
| SessionTerms.RefreshRenews | src/auth/session.service.ts:160-206 | A served refresh writes two rows in full: the one drawn, ACTIVE until the smaller of now + the refresh TTL and the session's deadline, and the one retired, in grace for one grace window and chained to it |
| SessionTerms.LoginOpens | src/auth/auth.service.ts:140-177 | A login is served exactly for an active account and new draws; its session ends one session TTL after now, its first token after the smaller of the two TTLs |
| SessionTerms.IdleTokenExpires | src/auth/session.service.ts:98-158 | Over any history, a token nobody has used or revoked is USABLE while neither one refresh TTL since its birth nor its session's deadline has passed, and refused from then on, with nothing written |
| SessionTerms.GraceEndsOnTime | src/auth/session.service.ts:104-147 | Over any history, a retired token of a session within its deadline is a replay exactly once one grace window has passed since it was retired |
| SessionTerms.WorthNothing | db/schema/004_sessions.sql:335-385 | UNKNOWN exactly without a row; DEAD with a revoked session, a passed deadline or an inactive account |
| SessionTerms.ReplayEnds | src/auth/session.service.ts:132-147 | A replay ends its session and all its tokens, row by row, and no other |
| SessionTerms.LogoutEnds | src/auth/session.service.ts:209-222 | A logout ends exactly the session named when it is alive and the account's own; otherwise it changes nothing |
| SessionTerms.RevokeAllEnds | src/auth/session.service.ts:224-231 | revokeAll ends exactly the living sessions of the account, with their tokens, and answers their number |
| SessionTerms.DeactivationEnds | db/schema/004_sessions.sql:176-195 | Deactivating an account ends exactly its living sessions |
| SessionTables.SessionService.Rotate | src/auth/session.service.ts:160-206 | The statements retire, insert and chain, and end in the rotation of the tables or in the guard's refusal |
| SessionTables.SessionService.Refresh | src/auth/session.service.ts:72-158 | A refresh leaves the tables and the answer of the refresh transaction on values |
| SessionTables.SessionService.Logout | src/auth/session.service.ts:209-222 | Revokes the account's own living session and all its tokens, or answers that there is none |
| SessionTables.SessionService.RevokeAll | src/auth/session.service.ts:224-231 | Revokes every living session of the account and counts them |
| SessionTables.SessionService.OpenSession | src/auth/auth.service.ts:140-177 | A login's session is born with one ACTIVE token that does not outlive it, or nothing is written |
| SessionConcurrency.RefreshIsLocal | src/auth/session.service.ts:81-96 | A refresh reads and writes only the rows its session lock protects, so it does the same on any two states that agree on them |
| SessionConcurrency.StepKeepsInv | src/auth/session.service.ts:81-131 | Every interleaved step keeps: the committed tables are the replay of the commits, and each transaction in flight has written what it would write running alone now |
| SessionConcurrency.Serializable | src/auth/session.service.ts:81-158 | Any interleaving of refreshes, logouts, revoke-alls, logins and crashes gives the tables and answers of the log of commits replayed one by one, each revoke-all with the sessions its statement saw, with the chain invariant and no database exception for any refresh |
| SessionConcurrency.AtMostTwoConcurrentUses | src/auth/session.service.ts:98-131 | Over any interleaved run one token value is answered at most once USABLE and at most once GRACE |
| SessionConcurrency.RevokedForGoodUnderConcurrency | src/auth/session.service.ts:132-142 | From a committed state where a session is revoked no later commit serves its tokens, whatever was in flight |
| SessionConcurrency.SweepIsRevokeAllIff | src/auth/session.service.ts:224-231 | A revokeAll that waited equals one run at its commit exactly when no living session was opened after its statement started |
| SessionSerialization.SweepWithoutLoginIsRevokeAll | src/auth/session.service.ts:224-231 | In any run where no login of the account falls between a revokeAll's start and its commit, its tables and its answer are those of revokeAll at the place of the commit |
| SessionSerialization.OvertakenSweep | src/auth/session.service.ts:224-231 | A login between a revokeAll's start and its commit: the requests in the order of commits, revoking all that lives, do not give the answers that were given |
| SessionOrder.SomeSerialOrder | src/auth/session.service.ts:72-231 | Whatever the interleaving, as long as no login's draw was taken, the tables and all answers are those of the same requests served one at a time in some order, every revokeAll then revoking all that lives |
| SessionOrder.SweepInOrder | src/auth/session.service.ts:224-231 | A revokeAll that missed some sessions, placed before all that was done with them, leaves the same tables and every request the same answer |
| LoginThrottles.LoginThrottle.Allow | src/auth/login-throttle.ts:26-31 | Consumes both counters whatever the first answers; true only when both allow |
| LoginThrottles.LoginThrottle.AllowAddress | src/auth/login-throttle.ts:39-41 | Consumes the address counter alone |
| LoginThrottles.LoginThrottle.AllowByKey | src/auth/login-throttle.ts:49-51 | Consumes the caller's own key, in a family apart |
| LoginThrottles.LoginThrottle.Consume | src/auth/login-throttle.ts:53-70 | One attempt on the counters, swept first past the threshold |
| LoginThrottles.LoginThrottle.SweepExpired | src/auth/login-throttle.ts:56-62 | The in-place sweep leaves exactly the counters whose window is open |
| LoginThrottles.SweepIsInvisible | src/auth/login-throttle.ts:53-70 | One swept attempt answers as an unswept one, and the maps stay in step, even when the sweep deletes the key being consumed |
| LoginThrottles.SweptRefinesNeverSwept | src/auth/login-throttle.ts:53-70 | Under a clock that never goes back, the throttle answers every sequence of attempts as one that never forgets a counter |
| LoginThrottles.AtMostCapPerWindow | src/auth/login-throttle.ts:53-70 | In the open window exactly min(count, cap) attempts were admitted |
| LoginThrottles.AtMostTwiceTheCap | src/auth/login-throttle.ts:53-70 | Any half-open interval of one window length admits at most twice the cap on one key |
| LoginThrottles.CountersNeverInterfere | src/auth/login-throttle.ts:26-51 | What a key is answered depends on the attempts on that key alone |
| LoginThrottles.KeyFamiliesApart | src/auth/login-throttle.ts:26-51 | `ip:`, `id:` and `k:` keys never coincide, whatever follows the prefix |
| LoginThrottles.AddressBudget | src/auth/login-throttle.ts:26-41 | Any mix of allow and allowAddress of one address is admitted at most twice the cap in any half-open window |
| LoginThrottles.AnsweredIff | src/auth/login-throttle.ts:26-51 | After any calls, allow is true exactly when the never-swept counters of the address and of the identifier both admit, allowAddress and allowByKey exactly when their one counter does |
| LoginThrottles.IdentifierBudget | src/auth/login-throttle.ts:26-31 | One identifier, tried from any addresses, is admitted at most twice the cap in any half-open window |
| LoginThrottles.KeyBudget | src/auth/login-throttle.ts:26-51 | So is any key, whatever calls touch it |
| ClientAddresses.ProxyAddr | src/client-address/client-address.ts:167-178 | The walk from the socket leftwards stops at the nearest hop that is not trusted, or at the farthest |
| ClientAddresses.NormalizedOnce | src/client-address/client-address.ts:147-149 | A normalised address is its own normal form: one client, one spelling |
| ClientAddresses.ClientAddress.Of | src/client-address/client-address.ts:167-178 | The charged address, and at most one signal raised, only on an armed public surface |
| ClientAddresses.ClientAddress.Watch | src/client-address/client-address.ts:180-187 | Which topology raises which signal |
| ClientAddresses.ClientAddress.Emit | src/client-address/client-address.ts:189-200 | One signal per signature for the life of the process |
| ClientAddresses.UndeclaredSocketFixesAddress | src/client-address/client-address.ts:167-178 | Behind an undeclared socket no header changes the address charged |
| ClientAddresses.ChargedAddressIsVouchedFor | src/client-address/client-address.ts:167-178 | The address charged is the socket's, or an IP literal every nearer hop of which is a trusted proxy |
| ProgramTokens.ProgramAuthService.Token | src/programs/program-auth.service.ts:67-146 | One exchange: budget first, then window, candidate key and signature, then the replay register |
| ProgramTokens.ProgramAuthService.InsertAssertion | db/schema/013_program_client_assertions.sql:40-65 | The unique insert: false exactly when the pair was already there |
| ProgramTokens.ReplayIsNotRepresentable | src/programs/program-auth.service.ts:126-140 | Over any run an assertion identifier of a client obtains at most one token, and is in the register exactly when it did |
| ProgramTokens.OneBudgetForBothForms | src/programs/program-auth.service.ts:67-85 | Readable and malformed assertions of one address share one budget of at most twice the cap per half-open window |
| ProgramTokens.IssuerBudget | src/programs/program-auth.service.ts:67-85 | One announced issuer, from any addresses, is served at most twice the cap in any half-open window |
| SocketBudgets.ForgedHeadersBuyNothing | src/programs/program-auth.service.ts:67-85 | One undeclared socket, with any forwarded headers and any assertions, is served at most twice the cap per half-open window |
| Lockouts.AuthService.Login | src/auth/auth.service.ts:51-87 | Who is logged in and whether the secret must be changed, what the secret becomes, and that each of the two branches after the throttle calls the verification exactly once |
| Lockouts.AuthService.RegisterFailure | src/auth/auth.service.ts:107-136 | The failure is counted, and from the threshold on the capped exponential lock is set unless the guard refuses it |
| Lockouts.LockAfterFailures | src/auth/auth.service.ts:107-136 | After n failures in a row the counter is n; below T no lock is set; from T on the secret is hidden until min(base * 2^(n-T), cap) after the n-th failure and no longer |
| Lockouts.BackoffIsWait | src/auth/auth.service.ts:117-121 | The lock's length is min(base, cap) at the threshold and doubles with each further failure up to the cap |
| Lockouts.FailuresAreSpacedOut | src/auth/auth.service.ts:107-136 | The n-th failure against the real hash starts at least the sum over j < n-T of min(base * 2^j, cap) after the T-th one |
| Lockouts.BoundIsLinearOnceCapped | src/auth/auth.service.ts:118-123 | Once the cap is reached each further failure costs the whole cap |
| Lockouts.FutureLockNeverRecedes | db/schema/003_account_secrets.sql:55-100 | Over any interleaving of concurrent logins a lock still in the future never recedes |
| Lockouts.EveryFailureIsHonoured | src/auth/auth.service.ts:107-136 | Each failure past the threshold, written or refused by the guard, leaves the secret unreadable until at least its own term |
| VerifiedAddresses.ColumnsResolveIff | src/phone/verified-address.ts:56-105 | A living claim whose fingerprint was built for one phone and whose value for another resolves exactly when they are the same phone |
| VerifiedAddresses.NormalFormIsFixed | src/phone/phone-columns.ts:38-41 | A normalised phone is its own normal form |
| VerifiedAddresses.SpellingsAgree | src/phone/phone-columns.ts:38-41 | A separator anywhere changes nothing: two spellings of a line have one normal form |
| VerifiedAddresses.PlainPhoneIff | src/phone/phone-columns.ts:38-41 | Without separators a phone is accepted, as it stands, exactly when it is a plus, a digit from 1 to 9 and 7 to 14 more |
| Outboxes.OutboxPublisher.Drain | src/outbox/publisher.ts:71-142 | A drain leases its batch, handles each event in order and reports; an error of the policy lookup, the address reads, the send, or an outbox statement, applied or not, stops it exactly there |
| Outboxes.OutboxPublisher.HandleBatch | src/outbox/publisher.ts:86-139 | The loop of a drain: store, report and sends are those of the handled prefix, up to the error that stopped it |
| Outboxes.OutboxPublisher.HandleEvent | src/outbox/publisher.ts:86-138 | One event: deposit, silence, send and publish, or send and fail, any step of which may throw, with exactly one send when a channel and an address exist and both reads went through |
| Outboxes.HandledSettles | src/outbox/publisher.ts:86-138 | A handled pending event is published, or has one more failure with its code and a next date min(base * 2^attempts, cap) later, dead at the maximum, as its counter says; it leaves a note exactly when the policy and the account allow, and touches no other event |
| Outboxes.ThrownSettles | src/outbox/publisher.ts:118-138 | An event at which an error stopped the drain has its whole verdict, row and note, or is pending as it was |
| Outboxes.TurnDeserves | src/outbox/publisher.ts:86-138 | The counter a turn deserves: published exactly when a target exists and the send was accepted, or none exists and a note was left in an account; dead exactly when not so at the last attempt; silent exactly when nothing could be sent nor left; stopped exactly by an error it meets |
| Outboxes.DrainDeserves | src/outbox/publisher.ts:71-142 | A drain goes through its batch exactly when no turn is stopped; each event then has the status its own turn deserves, and the report counts as published those reached |
| Arithmetic.DoublesToTheCap | src/outbox/publisher.ts:191-196 | The wait is positive, doubles with each failure up to the cap, and never shrinks |
| Outboxes.ReportIsTheTruth | src/outbox/publisher.ts:71-142 | Every undisturbed drain, one that no error stops and whose events no other worker settles meanwhile, satisfies claimed = published + retried + failed, each counter being the number of its events in that status |
| Outboxes.StopIsLocal | src/outbox/publisher.ts:86-138 | A drain an error stopped has settled the events before, touched none after, and left the one it met settled or as it was |
| Outboxes.HandedOnce | src/outbox/publisher.ts:95-125 | Within a drain no event is sent twice; those sent are exactly the ones with a resolved address and an allowed channel whose reads went through, each to that address by the first channel |
| Outboxes.LeaseKeepsOthersAway | db/schema/018_claims_to_person.sql:438-458 | A claimed event is due again exactly when its lease is over, and nothing else of the queue moves |
| OutboxTurns.PlanForIs | src/outbox/publisher.ts:86-95 | What a worker plans after its two reads is what the turn with that policy and that address has: a target, a note, or silence |
| OutboxTurns.TurnIsRun | src/outbox/publisher.ts:86-138 | A turn of a drain that nothing stops is a stretch of a run of the worker that planned the event: same rows and notes, same verdict recorded, a send exactly when there is a target |
| OutboxRuns.StepKeepsInv | src/outbox/publisher.ts:71-142 | Every step of many workers keeps the accounting of each event |
| OutboxRuns.EventLife | src/outbox/publisher.ts:71-142 | Whatever crashes and expired leases: an event is FAILED exactly at maxAttempts recorded failures, PUBLISHED exactly at one recorded publication, never both; every send ended in a verdict, a crash, a late verdict, or is waiting |
| OutboxRuns.ExtraSendsAreAccounted | src/outbox/publisher.ts:118-138 | Every accepted send of an event beyond the first is a crash, a late verdict, or one still to be written |
| OutboxRuns.SettledIsForEver | db/schema/018_claims_to_person.sql:157-200 | PUBLISHED and FAILED rows never change again |
| OutboxLeases.TimelyRunsSendOnce | src/outbox/publisher.ts:71-142 | In any run without crashes, under a clock that never goes back, where every worker is done with its events before their leases are over, an event is sent at most maxAttempts times and accepted at most once |
| OutboxLeases.TakenAgainIff | db/schema/018_claims_to_person.sql:438-458 | An event a worker holds can be claimed by another exactly when its lease is over |
| OutboxLeases.SentAgainIff | src/outbox/publisher.ts:86-131 | An event a worker holds, whose line resolves and whose policy lists a channel, can be accepted once more exactly when its lease is over |
| OutboxLeases.ExpiredLeaseSendsTwice | src/outbox/publisher.ts:71-142 | Two workers one lease apart, no crash and a rightful address: the event is accepted twice |
| OutboxRuns.SendsAreWitnessed | src/outbox/publisher.ts:86-131 | Over all runs in which lines change hands, every send went to a phone whose fingerprint is that of a claim found ACTIVE for this event, by the first channel of its policy |
| OutboxRuns.SendsReachTheirPhone | src/phone/verified-address.ts:94-105 | Over all runs, when fingerprints tell phones apart, the phone written to is the one whose fingerprint the claim carries |
| OutboxRuns.SilenceIsNeverBroken | src/outbox/publisher.ts:153-174 | An event whose policy lists no channel is never sent |
| OutboxRuns.RevokedLineIsNeverWrittenTo | src/outbox/publisher.ts:182-189 | Once its line is taken back, an event that no worker had already resolved is never sent again |
| HmacRotations.RotationScript.Rotate | scripts/rotate-phone-hmac.ts:53-145 | Succeeds exactly when the triggers are the known ones, every stale claim resolves and re-derives, and no two lines meet; then the table and the reference are switched; any failure leaves both as they were |
| HmacRotations.RotationScript.RehashAll | scripts/rotate-phone-hmac.ts:105-126 | The in-place loop over any order of claims, uniqueness of (key, fingerprint) holding at each turn |
| HmacRotations.RotationScript.RehashOne | scripts/rotate-phone-hmac.ts:106-126 | One turn: resolve, derive under the target, write; a turn that fails proves the rotation impossible |
| HmacRotations.StepDecides | scripts/rotate-phone-hmac.ts:105-126 | A step that cannot be taken dooms the rotation whatever the order of the claims |
| HmacRotations.RotationPreservesMeaning | scripts/rotate-phone-hmac.ts:105-137 | After commit each re-hashed claim is under the target key and resolves to the same phone; every other row, PENDING and REVOKED included, is unchanged |
| HmacRotations.SecondRunRewritesNothing | scripts/rotate-phone-hmac.ts:70-78 | A second run finds nothing to rewrite |
| HmacRotations.DoKeepsSound | db/schema/006_phone_claims.sql:128-215 | Declarations, activations, revocations, erasures, manual switches and rotations keep: ACTIVE claims are honest, under the reference key, and unique |
| HmacRotations.OneLineOneHolder | db/schema/025_hmac_rotation_wall.sql:36-55 | Over every life of the registry, under any keyrings, two ACTIVE claims never hold the same line |
| HmacRotations.ActsOnOneClaim | db/schema/006_phone_claims.sql:128-215 | What a declaration, an activation and a revocation leave of their claim, when each is refused, and that no other claim moves |
| HmacRotations.ActsOnTheRegistry | db/schema/025_hmac_rotation_wall.sql:36-55 | An erasure revokes exactly its person's claims; the reference is switched exactly when every ACTIVE claim is under the new key |
| HmacRotations.RotationNeedsBothKeys | scripts/rotate-phone-hmac.ts:105-126 | In a sound registry the rotation succeeds exactly when the triggers are known and, if any claim is stale, the keyring holds both the reference key and the target |
| Erasures.DoKeepsGood | db/schema/026_person_erasures.sql:184-256 | Every transaction keeps the register's invariant |
| Erasures.StaysDestroyed | db/schema/026_person_erasures.sql:276-335 | No ordinary act gives an erased person an identity, a profile, a line, a grant, an account or a dependent again |
| ErasureHistories.Lifecycle | db/schema/026_person_erasures.sql:115-256 | Over every run: at most one demand in flight per person; RETRACTED only before the deadline, COMPLETED only at or after it; one notice at most per demand; a COMPLETED demand is its person's last and nothing of them is left |
| ErasureHistories.RunAdvances | db/schema/026_person_erasures.sql:184-256 | A demand's content never changes, a closed demand is frozen, a notice is set once |
| ErasureHistories.WallIffSole | db/schema/017_person_responsibilities.sql:255-273 | The orphan wall at the commit fires exactly when the courtesy predicate calls the person a sole responsible |
| ErasureHistories.ExecutedUnlessSoleResponsible | src/persons/erasure.service.ts:215-234 | A due demand is executed, or blocked with nothing changed exactly when its person is a sole responsible at that moment |
| ErasureHistories.OnlyCompletionDestroys | db/schema/028_erase_person.sql:50-108 | Only the completion of a due demand of that person removes an identity or redraws a salt |
| ErasureHistories.ExecutionTouchesOnlyItsPerson | db/schema/033_erase_person_cuts_grants.sql:55-160 | Row by row: an execution blanks its person's identity, salt, accounts and lines under the values drawn, ends their grants and the links in which they are the responsible, completes that demand, and leaves every other row as it was; refused, it leaves all of them |
| ErasureHistories.OthersAreSafe | db/schema/033_erase_person_cuts_grants.sql:55-160 | Executing one person's demand leaves every other person's row, accounts, lines, grants and links as responsible as they were |
| ErasureHistories.DemandsHaveTheirActor | db/schema/026_person_erasures.sql:386-505 | A demand is born only of the person's own active account, or of active staff, at once, for someone who cannot act alone; never twice, never for an erased person or a sole responsible |
| ErasureHistories.SelfDemandIff | db/schema/026_person_erasures.sql:386-450 | A person's own demand is accepted exactly when the account is active and they are neither erased, nor already asking, nor a sole responsible; each other verdict has its condition |
| ErasureHistories.OnlyThePersonRetracts | db/schema/026_person_erasures.sql:511-545 | A demand becomes RETRACTED only by its person's own active account, before the deadline, and nothing else changes |
| ErasureHistories.RetractedForGood | src/persons/erasure.service.ts:114-135 | A retraction that was granted holds for ever: that demand is never executed |
| ErasureHistories.DueIsOnlyCompleted | src/persons/erasure.service.ts:114-135 | Past its deadline a demand can only stay in flight or be completed |
| ErasureHistories.RetractableIsTheTruth | src/persons/erasure.service.ts:138-165 | The status offers a retraction exactly when one would be granted at that instant |
| ErasureServices.ErasureService.RequestSelf | src/persons/erasure.service.ts:68-112 | One call: the budget, the demand, and for IMMEDIATE its execution in a second transaction after whatever others committed |
| ErasureServices.ErasureService.RetractSelf | src/persons/erasure.service.ts:114-135 | One call: the budget, then the retraction's verdict |
| ErasureServices.ErasureService.EraseByStaff | src/persons/erasure.service.ts:167-212 | One call: the budget, the person, the staff demand and its execution after whatever others committed |
| ErasureServices.DelayedIsForAFullWindow | src/persons/erasure.service.ts:83-91 | A delayed demand is registered for one full retraction window, whatever commits before it is read back |
| ErasureServices.ImmediateIsImmediate | src/persons/erasure.service.ts:83-91 | Undisturbed, an accepted immediate demand is carried out and the person destroyed |
| ErasureServices.RacedImmediate | src/persons/erasure.service.ts:215-234 | Disturbed: an error exactly when someone else completed it first, SOLE_RESPONSIBLE exactly when the person became one; then nothing was destroyed |
| ErasureServices.StaffErasure | src/persons/erasure.service.ts:167-234 | Staff are told COMPLETED exactly when the demand was accepted and, at its execution, still in flight with its person no sole responsible, and then the person is destroyed; an error exactly when someone else completed it first or the person does not exist; otherwise nothing was destroyed |
| ErasureServices.SelfRefused | src/persons/erasure.service.ts:68-112 | What a person is told of a demand that is not accepted, each answer with its condition, and that nothing is written |
| ErasureServices.StaffRefused | src/persons/erasure.service.ts:167-212 | What staff are told of a demand that is not accepted, each answer with its condition, and that nothing is written |
| ErasureServices.BlockedImmediateIsForGood | src/persons/erasure.service.ts:215-234 | A demand blocked that way can never be retracted, whatever commits afterwards |
| ErasureSchedulers.ErasureScheduler.Tick | src/persons/erasure-scheduler.ts:41-105 | A tick is the notice sweep followed by the execution sweep over what the first left |
| ErasureSchedulers.ErasureScheduler.NoticeAll | src/persons/erasure-scheduler.ts:61-69 | The first loop, which a breakdown stops with the notices given before it and none after |
| ErasureSchedulers.ErasureScheduler.ExecuteAll | src/persons/erasure-scheduler.ts:76-103 | The second loop, which neither walls nor breakdowns stop |
| ErasureSchedulers.SweepCountsBreakdowns | src/persons/erasure-scheduler.ts:76-103 | Whatever commits in between, every breakdown is counted and stops nothing, and no call is counted twice |
| ErasureSchedulers.SelectedIffDue | src/persons/erasure-scheduler.ts:48-75 | A sweep selects exactly the demands its call would act on at that instant |
| ErasureSchedulers.SelectIsExact | src/persons/erasure-scheduler.ts:48-75 | A selection holds each wanted demand once and nothing else |
| ErasureSchedulers.Select | src/persons/erasure-scheduler.ts:48-75 | A selection is ordered by deadline |
| ErasureSchedulers.QuietNoticeSweep | src/persons/erasure-scheduler.ts:41-69 | Undisturbed, everyone whose notice is due is told, and counted |
| ErasureSchedulers.QuietTick | src/persons/erasure-scheduler.ts:41-105 | Undisturbed, every due demand is completed and counted as executed, or as it was and counted as blocked; none is counted as failed |
| Calendars.YearsFollow | src/crypto/person-identity.ts:162-166 | Years have 365 or 366 days as the leap rule says (ECMA-262, section 21.4.1) |
| Calendars.CivilOfDayNumber | src/crypto/person-identity.ts:162-166 | Numbering the days of the calendar and reading them back is the identity on real days |
| Calendars.CivilOfIsReal | src/crypto/person-identity.ts:162-166 | Every day number is a real day |
| Calendars.NumbersAreOrder | src/crypto/person-identity.ts:167-169 | Day numbers order as calendar days do |
| Calendars.IsoOrder | src/crypto/person-identity.ts:167-169 | The order of date strings is the order of dates |
| BirthDates.ReserialisesIffReal | src/crypto/person-identity.ts:162-166 | A shaped string re-serialises to itself exactly when it names a real day, whichever way the engine treats 31 February |
| BirthDates.BirthDateAcceptedIff | src/crypto/person-identity.ts:159-173 | The check accepts a string exactly when it is the date of a real Gregorian day from 1900-01-01 to today |
| BirthDates.RefusalsSay | src/crypto/person-identity.ts:159-173 | Each refusal of a shaped date has its condition: off the calendar, after today, before 1900 |
| BirthDates.AgeIsUnique | src/persons/responsibilities.service.ts:248-257 | The age is the one k whose anniversary has come while the next has not |
| BirthDates.AgeNeverDecreases | src/persons/responsibilities.service.ts:248-257 | The age never decreases with today and is the difference of years or one less |
| BirthDates.AgeInDays | src/persons/emancipation.service.ts:309-318 | Being at least k is having reached the day number of the k-th anniversary |
| BirthDates.AttachFacadeImpliesWallIff | src/persons/responsibilities.service.ts:80-86 | The facade implies the year wall for every birth date exactly when the database is in no later year, or one ahead on 31 December |
| BirthDates.AttachWallIsSilent | src/persons/responsibilities.service.ts:120-123 | A database at most one calendar day ahead never refuses what the facade let through |
| BirthDates.EmancipationFacadeImpliesWallIff | src/persons/emancipation.service.ts:85-92 | The facade of an emancipation implies its wall exactly when the database is in no earlier year |
| Backups.DumpNameRoundTripIff | scripts/backup-db.ts:34-47 | A dump name reads back as its instant floored to the second, exactly from the year 100 on |
| Backups.NameOrderIsTimeOrder | scripts/backup-db.ts:34-38 | Names order, and coincide, as instants do to the second |
| Backups.BackupDirectory.RunBackup | scripts/backup-db.ts:93-138 | A successful run leaves the new dump and every name that is unrecognised or at most R days old, and reports the others; a failed or empty dump leaves nothing under its name; a bad R touches nothing |
| Backups.BackupDirectory.Prune | scripts/backup-db.ts:124-135 | The in-place loop, in any order of the listing, removes exactly the outdated names but the new one, and lists each once |
| Backups.StrangersAreSafe | scripts/backup-db.ts:124-135 | Over any runs a name this script does not recognise is never deleted nor made |
| Backups.SparedDumpsLive | scripts/backup-db.ts:124-135 | Over any runs a dump lives while no run finds it older than R nor fails under its very name |
| Backups.RetentionIsBounded | scripts/backup-db.ts:124-135 | After a successful run, whatever ran before, every recognised dump is at most R days old, the new one is there, and only older ones were taken away |
| Keyrings.Assembler.ParseKeyring | src/crypto/keyring.ts:105-154 | The keys before the first faulty one are kept, and a violation is added exactly when a key or the active identifier is faulty |
| Keyrings.Assembler.CollisionViolations | src/crypto/keyring.ts:161-198 | The nested loop lists every pair of equal keys, in order |
| Keyrings.Assembler.Assemble | src/crypto/keyring.ts:277-302 | Assembles exactly when all four keyrings are well formed and all keys differ in value; otherwise every violation is listed |
| Keyrings.NoCollisionIff | src/crypto/keyring.ts:161-198 | No violation is found exactly when all keys, of one keyring or of two, differ in value |
| Keyrings.ActiveKeyExistsIff | src/crypto/keyring.ts:147-151 | An assembled keyring has its active key exactly when its JSON object was not empty |
| Keyrings.KeyIsItsOwn | src/crypto/keyring.ts:105-154 | Each key of a well-formed object is looked up in its keyring as its own bytes |
| Keyrings.EmptyKeyringsAssemble | src/crypto/keyring.ts:147-151 | Empty objects assemble, with no active key |
| Keyrings.KeyringsShareNoSecret | src/crypto/keyring.ts:277-302 | In an assembly no two keys, of one keyring or of any two of the four, share their bytes; all have at least 32 bytes, and encryption keys exactly 32 |
| SealedTokens.SplitJoin | src/crypto/aes-gcm.ts:35-47 | Splitting a joined token gives back its parts when none has a dot |
| SealedTokens.TokenRoundTripIff | src/crypto/aes-gcm.ts:29-92 | A token opens to its plaintext under every later keyring that keeps the writing key, and names that key, exactly when the key identifier has no dot |
| SealedTokens.ReplacedKeyOpensNothing | src/crypto/aes-gcm.ts:74-86 | Under another material for the same identifier a token does not open |
| SealedTokens.RenamedKeyOpensNothing | src/crypto/aes-gcm.ts:29-47 | The key identifier is sealed with the text: renamed, a token does not open, even when the new name holds the same key |
| SealedTokens.OnlyWellFormedOpens | src/crypto/aes-gcm.ts:49-92 | What opens has the version, five parts, a key the keyring holds, a 12-byte IV and a 16-byte tag |
| CivilIdentities.ValidHasShape | src/crypto/person-identity.ts:129-173 | What validation accepts has the shape a reader asks for and a year of birth the base accepts |
| CivilIdentities.ValidIff | src/crypto/person-identity.ts:129-173 | An identity is valid exactly with one to eight legible names of at most 80 characters, such a display name, and a real date of birth from 1900 to today |
| CivilIdentities.RefusedBeforeSealing | src/crypto/person-identity.ts:188-230 | Salts are of 32 bytes for writing and reading; an identity is sealed exactly when it is valid and the keyring has its active key |
| CivilIdentities.IdentityRoundTripIff | src/crypto/person-identity.ts:188-278 | Each valid identity is read back as itself, with its own year, through every later keyring that keeps the writing key, exactly when that key's identifier has no dot |
| CivilIdentities.ServedYearIsStored | src/crypto/person-identity.ts:222-278 | Whatever the blob and the keys, an identity whose year is not the stored one is never served |
| CivilIdentities.StoredYearIsOfBirth | src/crypto/person-identity.ts:175-215 | The year stored in clear is the year of the real day the identity was born on |
| CivilIdentities.ServedDayIsOfStoredYear | src/crypto/person-identity.ts:222-278 | An identity served as born on a real day was stored under that day's year |
| CivilIdentities.ServedIsTheBlob | src/crypto/person-identity.ts:222-278 | What is served is what the sealed blob holds, of version 1 and whole |
| CivilIdentities.ReplacedKeyServesNothing | src/crypto/person-identity.ts:88-113 | Under another key of the keyring for the same identifier the blob is never served |
| CivilIdentities.DestroyedSaltDestroysIdentity | src/crypto/person-identity.ts:88-113 | Under any other salt the blob is never served again, whatever the keyring |
| Migrations.NormalizeUndoesCheckout | scripts/migrate.ts:38-40 | A full CRLF checkout normalises back to the content, whatever it holds |
| Migrations.NormalizeUndoesMixedCheckout | scripts/migrate.ts:38-40 | So does any partial one of a content that holds no CRLF |
| Migrations.AssertUniquePrefixes | scripts/migrate.ts:60-69 | Passes exactly when all numbers differ; otherwise names the first file whose number was seen |
| Migrations.SortedIsNumeric | scripts/migrate.ts:71-77 | Sorted names with unique numbers are in the order of their numbers |
| Migrations.LeadingCommentsDecideNothing | scripts/migrate.ts:50-56 | Comment and blank lines in front do not change whether a file wraps itself |
| Migrations.SelfTransactionalIff | scripts/migrate.ts:50-56 | A file wraps itself exactly when the first of its lines that is neither blank nor a comment opens with the word BEGIN in either case |
| Migrations.LinesAreLines | scripts/migrate.ts:50-56 | Those lines hold no line feed, and joined by line feeds they are the text |
| Migrations.Migrator.RunMigrations | scripts/migrate.ts:79-144 | One undisturbed run over the files, against what was applied when it looked |
| Migrations.UpToDateIff | scripts/migrate.ts:95-136 | A run ends up to date exactly when no seen file changed and no content failed, and then every file is recorded under its own checksum; records are only added |
| Migrations.EffectsUpToFirstFault | scripts/migrate.ts:95-136 | A run takes effect for the unseen files before the first it cannot pass, each once and in order |
| Migrations.RecordsUpToFirstFault | scripts/migrate.ts:95-136 | It records exactly those, each under its own checksum |
| Migrations.AnswerIsFirstFault | scripts/migrate.ts:102-136 | It is up to date when it passes every file; otherwise it names the first it cannot pass, and whether it changed or failed |
| MigrationRuns.StepKeepsCurrent | scripts/migrate.ts:83-95 | Under the lock a runner's picture of the applied files stays true |
| MigrationRuns.EveryRunIsAccounted | scripts/migrate.ts:79-144 | With any runners and crashes, effects are records plus abandoned plus pending ones; a finished runner has every file recorded as it has it; a refused one met a changed file |
| MigrationRuns.WrappedExactlyOnce | scripts/migrate.ts:123-136 | A file wrapped in every checkout takes effect exactly once, and exactly when it is recorded |
| MigrationRuns.LockPreventsCollisions | scripts/migrate.ts:83-84 | No runner ever finds the file it is applying recorded by another meanwhile |
| MigrationRuns.RecordsAreForEver | scripts/migrate.ts:102-112 | A record, once made, is never changed by any run |
| MigrationRuns.ExactlyOnceIff | scripts/migrate.ts:113-121 | Effect and record agree exactly when no runner vanished, or stands, between them |
| MigrationRuns.CrashInWindow | scripts/migrate.ts:113-121 | A crash in that window leaves the file unrecorded, for the next runner to apply again |
| MigrationRuns.RunnerIsTheLoop | scripts/migrate.ts:95-136 | A runner nothing stops, among others, is the loop: same end, same effects, same records |
| DependentAccesses.HashReferenceUnderAll | src/programs/reference-hmac.ts:48-59 | Two parallel arrays with the fingerprint of the reference under every key |
| DependentAccesses.DependentAccessService.OpenAccess | src/programs/dependent-access.service.ts:52-143 | Refuses a bad phone or identity first, then draws again only on a taken identifier, at most five times |
| DependentAccesses.LookUpMeans | db/schema/024_reference_rotation_idempotency.sql:116-122 | The lookup finds a person exactly when the reference is recorded under some key of the keyring |
| DependentAccesses.BornIff | db/schema/024_reference_rotation_idempotency.sql:144-152 | A dependent is born exactly when the gates are passed, the draw is free, and no key of the keyring knows the reference |
| DependentAccesses.RefusalIff | src/programs/dependent-access.service.ts:114-133 | Each refusal is told exactly for its reason: not offered, not granted, of age, past the cap |
| DependentAccesses.FirstClickIff | src/programs/dependent-access.service.ts:114-141 | A first click is accepted under the identifier drawn exactly when it and its row are free, and collides exactly when the identifier is taken |
| DependentAccesses.LaterClickIff | db/schema/024_reference_rotation_idempotency.sql:124-166 | A later click is accepted with the identifier on record, unless the dependent is erased and the grant would have to be reopened; nothing but that grant moves |
| DependentAccesses.OneDependentPerReference | db/schema/024_reference_rotation_idempotency.sql:110-166 | Over any run of single attempts and other acts, while the active key changes and earlier active keys are kept, one reference gives birth to at most one dependent and every accepted attempt answers the same identifier |
| DependentCalls.CallIsItsLastAttempt | src/programs/dependent-access.service.ts:84-142 | A call is at most five attempts, all but the last of them collisions that wrote nothing; it answers what the last one decided, and throws exactly when the database refused that one or all five collided |
| DependentCalls.CallsAreRuns | src/programs/dependent-access.service.ts:84-142 | Any sequence of calls, with anything committing between and during them, is a run of attempts: same tables, and every accepted reply is an answer of the run |
| DependentCalls.OneDependentOverCalls | src/programs/dependent-access.service.ts:78-142 | Whatever identifiers collide and force new draws, and whatever else commits, while earlier active keys are kept one reference gives birth to at most one dependent and every accepted call answers the same identifier |
| DependentAccesses.ClickAndGrant | db/schema/024_reference_rotation_idempotency.sql:154-166 | An accepted click passed every gate and leaves one grant open, unless the family closed it; any other verdict changes nothing |
| DependentAccesses.FamilyClosureHolds | db/schema/024_reference_rotation_idempotency.sql:154-166 | A grant the family closed is never reopened, however often the program clicks |
| DependentAccesses.OverlappingClicksForkIff | db/schema/024_reference_rotation_idempotency.sql:110-122 | Two first clicks that look up before either commits fork exactly when their active keys differ |
| DependentAccesses.DroppedKeyForks | src/programs/reference-hmac.ts:39-47 | A keyring that dropped the key of the first click gives birth to a second dependent |

## Left out

- The SQL is modelled from its text, one function per transaction; the SQL itself is not executed nor verified. Row-level locking inside a transaction is modelled for sessions and migrations, elsewhere by taking each database function as atomic.
- HTTP controllers, the application wiring, health checks, Sentry and the simulators: wiring and I/O.
- Cryptographic algorithms, random sources, JSON and base64: parameters with stated hypotheses.
- Profiles, the catalogue, program grants, invitations and the proof-code flow of a phone line: their decisions are database verdicts that the services translate.
- The emancipation flow beyond its age facade: its two functions are revoked from the service by `db/schema/031`.
- The redraw loop of `attach` in `src/persons/responsibilities.service.ts`: the same loop as `DependentAccessService.OpenAccess`, which is modelled.
- CIDR compilation of trusted proxies: the trust predicate is an arbitrary function.
- Child processes and streams of the backup: a dump succeeds, fails or is empty; a retention that is not a whole number has no counterpart, since R is an integer here.
- `SessionTables.SessionService.Refresh`: the throttle call in front of it is not repeated; it is the one modelled in `LoginThrottle`. The check for null columns in a verdict cannot fail on referential tables and is left to that fact.
- Tokens are keyed by their hash; the access token's `jti` and signature are not modelled.
- `Outboxes.OutboxPublisher.Drain`: the batch is the rows the claim returned; their selection order and the batch size are not modelled, nor an error of the claim itself, which leaves nothing to handle.
- `Erasures.StaysDestroyed`: speaks of what the erased person holds as a responsible; links in which they are the dependent stay open, as in the source. The age wall on new links is not part of the erasure model, which therefore allows more.
- `SessionOrder.SomeSerialOrder`: the order it gives need not follow real time between requests that touch different sessions.
- `ErasureSchedulers.QuietTick`: exact counts are stated for a tick that nothing disturbs; `ErasureScheduler.Tick` itself is proved for any disturbance.
- `CivilIdentities.IdentityRoundTripIff`: name lengths count characters, not UTF-16 units.
- `Lockouts.FailuresAreSpacedOut`: one secret per account; the view that hides locked or expired secrets is its predicate.
