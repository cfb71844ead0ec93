# smirkly-auth: a verified model of its concurrent core

smirkly-auth is an authentication service (C++ use cases over PostgreSQL statements). This
project models its concurrent core and its byte-level algorithms in Dafny 4.11, and proves
what the service relies on over every run, for any number of requests and workers.

Run `dafny verify dfyconfig.toml` to check all files.

## What is modelled

* **Rate limiter** (`RateLimiter`, `LimiterProtocol`, `LimiterDeadlock`). The three-scope
  sliding window: advisory locks taken key by key in sorted order, then one count and
  conditional insert, then commit or abort, for any number of transactions. The main results
  are the window bound on every run although rows commit out of timestamp order, mutual
  exclusion, and the exact class of lock-key hashes for which the lock phase cannot deadlock.
* **Sessions** (`Sessions`, `SessionProtocol`, `SessionTheorems`). Requests read outside any
  transaction and commit later. On every run each token family is one chain of replacements,
  has at most one unrevoked session, and a family that was ended stays ended, even for
  refreshes that read their session before.
* **Email outbox** (`RetryPolicy`, `Outbox`, `OutboxProtocol`, `OutboxTheorems`,
  `OutboxClocks`, `OutboxProgress`, `OutboxWorker`, `OutboxRefinement`). Leases, crashes,
  reclaims, stale reports, lost commits and clocks that step back; a bound on the number of
  claims; the exact conditions under which leases overlap or a pending job becomes
  unclaimable; and a proof that what the worker's code does in claiming a batch and in
  processing a job, from the claim to the last report, are steps of the protocol.
* **One-time tokens** (`OneTimeTokens`, `TokenProtocol`, `TokenGuesses`). Password resets and
  email verification codes: superseding under a lock with uncommitted writes and row locks,
  confirmation from a stale read, and the count of wrong guesses.
* **Byte-level algorithms** (`Cidr`, `ForwardedFor`, `Base64Url`, `Smtp`). CIDR matching
  against the arithmetic meaning of a prefix, the walk over the forwarded chain, unpadded
  base64url (section 5 of RFC 4648) with a decoder, and the CRLF normaliser (section 2.3 of
  RFC 5322) with the checker that guards it.

`Runs` holds the induction over runs that the four protocols share; `Powers` and `Common`
are helpers.

## What the code turned out to do

Six promises hold only under a condition, and the condition is proved to be exact.

* Locking sorted keys prevents deadlock if the keys are locked, but what is locked is their
  64-bit hash. `LimiterDeadlock.DeadlockFreeExactly`: no run deadlocks if and only if all
  attempts share their first lock, or no two locks are ever taken in both orders. A hash
  without collisions qualifies; `LimiterDeadlock.LengthHashDeadlocks` shows one that does not.
* A worker reads the clock again when it reports a failure, and that clock may have stepped
  back. `OutboxClocks.LeasesDisjointExactly`: with at least three attempts, leases on one job
  stay disjoint if and only if clocks step back by at most the delay after the second attempt.
  `OutboxClocks.DefaultDrift`: four seconds with the default configuration, and not five.
* The claim compares attempts with `max_attempts` cast to 32 bits, the retry policy with the
  full value. `OutboxProgress.NeverStrandsExactly`: no pending job is ever unclaimable if and
  only if `max_attempts` is at most 2^31 - 1, or the delay of the last claimable attempt
  overflows, so that no defined execution gets there.
* The retry exponent is capped at 30. `RetryPolicy.DelayIsExponentialExactly`: the delay is
  min(base * 2^(n-1), max) for every attempt n if and only if max is at most base * 2^30 and
  that product fits in 64 bits. `RetryPolicy.DelayDefinedExactly` and
  `RetryPolicy.DelaysFitExactly` say when the signed product is defined at all.
* A longer X-Forwarded-For header leaves the client address alone if it parses. One malformed
  entry discards the whole header. `ForwardedFor.PrependedAnswer` gives the answer for
  everything that may stand in front, `ForwardedFor.PrependingHarmlessExactly` the condition,
  and `ForwardedFor.LeadingCommaMovesTheAnswer` one header that moves the answer.
* The body normaliser pairs every line feed but passes a bare carriage return, which section
  2.3 of RFC 5322 forbids. `Smtp.MessagePairedExactly`: a message has CR and LF only as pairs
  if and only if every CR of its body is followed by LF; `Smtp.BareCrPasses` is an input.

## Assumptions

* A committed transaction is one atomic step. The exceptions are the limiter and the token
  request, which are modelled statement by statement. For sessions this assumes more than the
  code asks for: transactions are opened with default options
  (src/auth/infra/db/pg/transactions/postgres_transaction_manager.cpp:15), and under read
  committed an UPDATE of a family that races an uncommitted rotation does not see the
  replacement row. That row would survive the reuse detection, so
  `SessionTheorems.RevocationIsFinal` and what it rests on hold of serialisable executions.
* Generated ids and leases are new. Token hashing is a function, and verifying a token
  compares hashes.
* A count made after the limiter's locks are taken sees every row committed before.
* No clock is assumed to be monotone or shared. Where a result depends on how far a worker's
  clock falls behind its own claim, that distance is part of the statement.
* An execution that computes an overflowing delay has no meaning in C++ and is no run.
* Configuration is fixed during a run.
* NULL user and ip columns of attempts are the empty string. Ip texts are canonical, `lower`
  is ASCII lower-casing, and text is ordered lexicographically.
* Parsing one address is an abstract function from text to a version, 16 bytes and a
  canonical text; `ForwardedFor.HeadersMatterExactly` uses that the empty text is none
  (src/auth/infra/http/request_meta_extractor.cpp:57).
* `EVP_EncodeBlock` is padded base64 (section 4 of RFC 4648).
* The date and the random part of a Message-ID contain no CR or LF.

## Model

| member | source | states |
|---|---|---|
| `RateLimiter.ScopesAreTheMatchingOnes` | sql/auth/write/sign_in_attempts/sign_in_attempts_lock_scopes.sql:4-15 | an attempt locks exactly the scopes whose counts its row can change |
| `RateLimiter.LockKeysAreSorted` | sql/auth/write/sign_in_attempts/sign_in_attempts_lock_scopes.sql:3-17 | the keys of one attempt are distinct and their text order is always identifier, ip, user |
| `RateLimiter.KeysAreDistinct` | sql/auth/write/sign_in_attempts/sign_in_attempts_lock_scopes.sql:4-14 | two scopes have the same lock key if and only if they are the same scope |
| `RateLimiter.CaseDoesNotMatter` | sql/auth/write/sign_in_attempts/sign_in_attempts_try_record.sql:4 | two identifiers share a scope if and only if they differ at most in the case of letters |
| `RateLimiter.PreCheckAgreesWithInsert` | src/auth/services/usecases/authentication_service.cpp:92-103 | on the same rows the pre-check refuses exactly when the binding insert would |
| `RateLimiter.AdmitsEveryScope` | sql/auth/write/sign_in_attempts/sign_in_attempts_try_record.sql:33-36 | the insert goes ahead if and only if every limited scope of the attempt is below its limit |
| `RateLimiter.AdmittedExactly` | sql/auth/write/sign_in_attempts/sign_in_attempts_try_record.sql:1-37 | said of the rows themselves: an attempt is admitted if and only if each limited column has fewer recent rows than its limit |
| `RateLimiter.AdmittedKeepsWindowBound` | sql/auth/write/sign_in_attempts/sign_in_attempts_try_record.sql:1-37 | adding an admitted attempt keeps every closed window of every limited scope within its limit, whatever the timestamp order |
| `RateLimiter.AttemptTable.TryRecord` | sql/auth/write/sign_in_attempts/sign_in_attempts_try_record.sql:1-37 | one scan decides admission exactly, appends the row only then, and keeps the window bound |
| `LimiterProtocol.LocksInvPreserved` | sql/auth/write/sign_in_attempts/sign_in_attempts_lock_scopes.sql:1-17 | every step keeps that a transaction owns exactly the locks it has taken |
| `LimiterProtocol.MutualExclusion` | sql/auth/write/sign_in_attempts/sign_in_attempts_lock_scopes.sql:1-17 | where locks are owned as they were taken, two transactions past their lock phase share no scope |
| `LimiterProtocol.CountsNeverOverlap` | sql/auth/write/sign_in_attempts/sign_in_attempts_lock_scopes.sql:1-17 | on every run two transactions between their count and their commit never share a scope |
| `LimiterProtocol.CommitKeepsOtherCounts` | sql/auth/write/sign_in_attempts/sign_in_attempts_try_record.sql:1-37 | a commit cannot invalidate the counts another uncommitted attempt was admitted on |
| `LimiterProtocol.InvPreserved` | src/auth/services/usecases/authentication_service.cpp:105-115 | every lock, count, insert, commit and abort step keeps ownership, pending admissions and the window bound |
| `LimiterProtocol.WindowBoundOnEveryRun` | sql/auth/write/sign_in_attempts/sign_in_attempts_try_record.sql:1-37 | on every run each closed interval of one window length holds at most `limit` committed attempts per limited scope |
| `LimiterProtocol.AtMostLimitInAnyWindow` | sql/auth/write/sign_in_attempts/sign_in_attempts_try_record.sql:1-37 | the same bound as numbers of rows of one identifier in any case, one user or one address |
| `LimiterProtocol.CommittedGrows` | sql/auth/write/sign_in_attempts/sign_in_attempts_try_record.sql:20-33 | on every run recorded attempts stay recorded, in their order |
| `LimiterProtocol.CommittedWereBegun` | src/auth/services/usecases/authentication_service.cpp:105-115 | on every run each recorded attempt is exactly one that some transaction was begun with |
| `LimiterProtocol.RecordIsStep` | sql/auth/write/sign_in_attempts/sign_in_attempts_try_record.sql:1-37 | the statement on the store is the record step, and its commit adds exactly the new row |
| `LimiterDeadlock.GoodHashHasNoDeadlock` | sql/auth/write/sign_in_attempts/sign_in_attempts_lock_scopes.sql:1-17 | with a shared first lock or a consistent order no set of transactions waits in a circle |
| `LimiterDeadlock.BadHashDeadlocks` | sql/auth/write/sign_in_attempts/sign_in_attempts_lock_scopes.sql:1-17 | any other hash reaches a state in which two transactions wait for each other |
| `LimiterDeadlock.DeadlockFreeExactly` | sql/auth/write/sign_in_attempts/sign_in_attempts_lock_scopes.sql:1-17 | no run deadlocks if and only if the hash is of one of the two harmless kinds |
| `LimiterDeadlock.CollisionFreeHashNeverDeadlocks` | sql/auth/write/sign_in_attempts/sign_in_attempts_lock_scopes.sql:1-17 | an injective lock-key hash never deadlocks |
| `LimiterDeadlock.SomeTransactionCanStep` | sql/auth/write/sign_in_attempts/sign_in_attempts_lock_scopes.sql:1-17 | without deadlock some open transaction can always acquire, record or commit |
| `LimiterDeadlock.LengthHashDeadlocks` | sql/auth/write/sign_in_attempts/sign_in_attempts_lock_scopes.sql:1 | a concrete colliding hash for which sorted keys do deadlock |
| `Sessions.SessionTable.RevokeByTokenFamily` | sql/auth/write/sessions/sessions_revoke_by_token_family.sql:1-5 | row by row: the unrevoked rows of the user's family get revoked_at, every other row is unchanged |
| `Sessions.SessionTable.RevokeAllByUserId` | sql/auth/write/sessions/sessions_revoke_all_by_user_id.sql:1-4 | row by row: the user's unrevoked rows get revoked_at, every other row, other users' included, is unchanged |
| `Sessions.SessionTable.RevokeByUserId` | sql/auth/write/sessions/sessions_revoke_by_user_id.sql:1-6 | revokes one owned unrevoked row and reports whether it did |
| `Sessions.SessionTable.RevokeAndReplace` | sql/auth/write/sessions/sessions_revoke_and_replace.sql:1-6 | succeeds exactly on an unrevoked row, which it revokes and links |
| `Sessions.SessionTable.Touch` | sql/auth/write/sessions/sessions_update_last_used.sql:1-4 | moves last_used_at of an unrevoked row forward only |
| `Sessions.SessionTable.CommitRotation` | src/auth/services/usecases/authentication_service.cpp:212-219 | inserts the replacement and revokes the old row together, or leaves the table as it was |
| `Sessions.SessionTable.SignIn` | src/auth/services/factories/session_factory.cpp:6-26 | column by column the one row a sign-in adds, and no other change |
| `Sessions.SessionTable.Authenticate` | src/auth/services/usecases/authentication_service.cpp:229-267 | the access decision with all its errors, that only a due touch writes, and that a granted session was used within the threshold |
| `Sessions.SessionTable.RevokeSession` | src/auth/services/usecases/session_service.cpp:19-36 | missing and foreign sessions are refused untouched; otherwise the session ends up revoked and nothing else changes |
| `Sessions.SessionTable.Refresh` | src/auth/services/usecases/authentication_service.cpp:157-227 | the whole use case on a read that may be stale: when exactly it rotates, every column of the replacement, that the new token then works exactly until it expires, and that a lost race and every error leave the table alone |
| `Sessions.RefreshDecidedExactly` | src/auth/services/usecases/authentication_service.cpp:160-200 | each answer to a refresh as a condition on the row it finds |
| `Sessions.AccessDecidedExactly` | src/auth/services/usecases/authentication_service.cpp:232-262 | each answer to an access token as a condition on the row it finds |
| `SessionProtocol.CommitEvolves` | src/auth/services/usecases/authentication_service.cpp:212-219 | no transaction deletes a row, rewrites a fixed column, or undoes a revocation or replacement |
| `SessionProtocol.ChainedRotate` | src/auth/services/usecases/authentication_service.cpp:202-219 | a rotation extends its family's chain at the end and leaves every other chain alone |
| `SessionProtocol.CommitKeepsChains` | src/auth/services/usecases/authentication_service.cpp:140-147 | every transaction keeps every family one chain, however stale its read |
| `SessionProtocol.ReadPhaseOk` | src/auth/services/usecases/authentication_service.cpp:165-210 | what a read decides to do refers to an existing row of the same family, user and device, under ids nobody else has |
| `SessionProtocol.StepKeepsInv` | src/auth/services/usecases/authentication_service.cpp:67-273 | every read, commit and drop keeps the chains and the soundness of all pending transactions |
| `SessionProtocol.InvHolds` | src/auth/services/usecases/authentication_service.cpp:67-273 | that invariant holds in every state of every run |
| `SessionTheorems.RunTransaction` | src/auth/services/usecases/authentication_service.cpp:140-219 | the statements on the store carry out exactly the commit step of the protocol |
| `SessionTheorems.RunRequest` | src/auth/services/usecases/authentication_service.cpp:67-273 | each use case run on the store does what the read and commit steps do for its request |
| `SessionTheorems.CommitFrame` | sql/auth/write/sessions/sessions_revoke_all_by_user_id.sql:1-4 | a transaction changes only unrevoked rows it is aimed at, and in them only what it is for |
| `SessionTheorems.CommitInserts` | src/auth/services/usecases/authentication_service.cpp:140-219 | a transaction inserts at most its own new row, a rotation only next to the unrevoked row it replaces |
| `SessionTheorems.RevokedOnlyByAim` | src/auth/services/usecases/authentication_service.cpp:181-219 | on every run a session is revoked only by a committed transaction aimed at it, its family or its user |
| `SessionTheorems.FamilyIsOneChain` | src/auth/services/usecases/authentication_service.cpp:202-219 | on every run the sessions of a family are exactly the elements of one chain of one user and device, all but the last revoked |
| `SessionTheorems.AtMostOneLiveSession` | src/auth/services/usecases/authentication_service.cpp:202-219 | a family has one user, one device and at most one unrevoked session |
| `SessionTheorems.ListingHasOnePerFamily` | sql/auth/read/sessions/sessions_select_active_by_user_id.sql:14-18 | the active listing never shows two sessions of one family |
| `SessionTheorems.RowsEvolve` | sql/auth/write/sessions/sessions_revoke_and_replace.sql:1-6 | over any stretch of a run rows persist and revocation and replacement are written once |
| `SessionTheorems.RotatedAtMostOnce` | src/auth/services/usecases/authentication_service.cpp:215-218 | a replaced session keeps its replacement for ever and can never be rotated again |
| `SessionTheorems.ReplayIsAlwaysDetected` | src/auth/services/usecases/authentication_service.cpp:181-190 | a refresh token whose session is revoked is answered as reuse at every later time |
| `SessionTheorems.TokenWorksWhileLive` | src/auth/services/usecases/authentication_service.cpp:181-219 | on every run the holder of a refresh token is granted a refresh exactly while its session is unrevoked and unexpired, and is caught exactly once it is revoked |
| `SessionTheorems.RotationsAreEarned` | src/auth/services/usecases/authentication_service.cpp:194-219 | on every run a rotating transaction was requested with the refresh token of the session it replaces, before that session expired |
| `SessionTheorems.CommitKeepsDead` | src/auth/services/usecases/authentication_service.cpp:212-219 | no transaction revives a family whose sessions are all revoked |
| `SessionTheorems.DeadFamilyStaysDead` | src/auth/services/usecases/authentication_service.cpp:181-219 | that holds over any stretch of a run |
| `SessionTheorems.FamilyRevocationKills` | src/auth/services/usecases/authentication_service.cpp:184-189 | reuse detection leaves no unrevoked session in the family, including ones created after its read |
| `SessionTheorems.UserRevocationKills` | src/auth/services/usecases/password_service.cpp:79-82 | revoking by user, as a password change and a confirmed reset do, ends every family the user has at the commit |
| `SessionTheorems.RevocationIsFinal` | src/auth/services/usecases/authentication_service.cpp:181-219 | after reuse detection, revoke-all, a password change or a reset no session of an ended family can be refreshed or used in any later state |
| `RetryPolicy.ParseConfig` | src/auth/config/auth_dynamic_config.cpp:133-154 | accepts exactly the values within their bounds, with defaults, and what it accepts is well formed |
| `RetryPolicy.DelayDefinedExactly` | src/auth/infra/workers/email_outbox_retry_policy.cpp:12-19 | the delay is defined for every attempt if and only if base * 2^30 fits in 64 bits |
| `RetryPolicy.DelayBounds` | src/auth/infra/workers/email_outbox_retry_policy.cpp:12-19 | a defined delay lies in [base, max] and never shrinks with the attempt |
| `RetryPolicy.DelayIsExponentialExactly` | src/auth/infra/workers/email_outbox_retry_policy.cpp:12-19 | it is the uncapped exponential schedule for every attempt if and only if max is at most base * 2^30 and that fits in 64 bits |
| `RetryPolicy.DelaysFitExactly` | src/auth/infra/workers/email_outbox_processor.cpp:157-168 | every delay the worker may have to compute is defined if and only if that of the last retried attempt is |
| `RetryPolicy.ToInt32` | src/auth/infra/db/pg/repositories/postgres_email_outbox_repository.cpp:54-55 | the 32-bit cast keeps a size exactly when it is at most 2^31 - 1 and never enlarges it |
| `Outbox.SelectCandidates` | sql/auth/read/email_outbox/email_outbox_claim_batch.sql:1-15 | the candidates are eligible, unlocked, distinct, in order, at most the limit, and nothing that comes first is left out |
| `Outbox.OutboxTable.ClaimBatch` | sql/auth/read/email_outbox/email_outbox_claim_batch.sql:1-39 | exactly the first candidates by due and creation time are claimed, all other rows stay, and each entry shows its row's address, template, payload and new attempt number; in no promised order |
| `Outbox.ClaimTableColumns` | sql/auth/read/email_outbox/email_outbox_claim_batch.sql:16-25 | column by column what a claim writes and what it keeps |
| `Outbox.OutboxTable.MarkSent` | sql/auth/write/email_outbox/email_outbox_mark_sent.sql:1-12 | writes the sent row exactly when the lease is current, and reports whether it was |
| `Outbox.OutboxTable.Reschedule` | sql/auth/write/email_outbox/email_outbox_reschedule.sql:1-12 | returns the row to pending exactly when the lease is current |
| `Outbox.OutboxTable.MarkDead` | sql/auth/write/email_outbox/email_outbox_mark_dead.sql:1-12 | writes the dead row exactly when the lease is current |
| `OutboxProtocol.HolderKnowsAttempts` | src/auth/infra/workers/email_outbox_processor.cpp:127-170 | the holder of the current lease knows the row's attempt count |
| `OutboxProtocol.ClaimKeepsInv` | sql/auth/read/email_outbox/email_outbox_claim_batch.sql:1-25 | a claim, also of an expired lease, keeps the CHECK, the attempt limit and that no attempt is claimed twice |
| `OutboxProtocol.StepKeepsInv` | src/auth/infra/workers/email_outbox_processor.cpp:85-199 | so does every enqueue, send, report, lost commit and crash |
| `OutboxProtocol.InvHolds` | src/auth/infra/workers/email_outbox_processor.cpp:60-200 | the invariant holds in every state of every run |
| `OutboxTheorems.RowsAreSafe` | migrations/0011_add_email_outbox_lease.up.sql:10-23 | on every run: the CHECK holds, finished rows have no payload, attempts stay within the limit, pending rows have one left, and a job is sent at most once per attempt |
| `OutboxTheorems.CurrentHolderIsUnique` | src/auth/infra/workers/email_outbox_processor.cpp:127-170 | of all tickets for a job at most one holds the current lease, and it carries the latest attempt |
| `OutboxProtocol.TicketUsable` | src/auth/infra/workers/email_outbox_processor.cpp:85-126 | in every reachable state every outstanding ticket names an existing job, so no worker step is blocked by the bookkeeping |
| `OutboxTheorems.LeaseInvHolds` | sql/auth/read/email_outbox/email_outbox_claim_batch.sql:6-11 | on every run whose clocks stepped back by no more than the second delay, an unreleased older lease has run out before the job is available again |
| `OutboxTheorems.LeasesDoNotOverlap` | migrations/0011_add_email_outbox_lease.up.sql:10-23 | on such runs the later of two leases on a job begins only after the earlier one has run out or was released by its holder |
| `OutboxClocks.OverlappingRun` | src/auth/infra/workers/email_outbox_processor.cpp:149-167 | for any larger step back, a run that ends with two overlapping leases |
| `OutboxClocks.LeasesDisjointExactly` | src/auth/infra/workers/email_outbox_processor.cpp:149-167 | leases stay disjoint within a drift if and only if it is at most the delay after the second attempt, or fewer than three attempts can be claimed or that delay is undefined |
| `OutboxClocks.DefaultDrift` | src/auth/infra/workers/email_outbox_retry_policy.cpp:12-19 | with the default configuration four seconds are safe and five are not |
| `OutboxTheorems.RowsEvolve` | sql/auth/write/email_outbox/email_outbox_mark_dead.sql:1-12 | sent and dead rows never change again, the payload survives until then, attempts only grow |
| `OutboxTheorems.ContentsSurvive` | sql/auth/write/email_outbox/email_outbox_insert.sql:1-2 | on every run a job keeps the address and template it was enqueued with, and its payload until it is sent or dead |
| `OutboxTheorems.WhatIsSentWasEnqueued` | sql/auth/read/email_outbox/email_outbox_claim_batch.sql:26-34 | on every run what a worker finds in a batch is what some request had enqueued |
| `OutboxTheorems.RetryWaitsForBackoff` | src/auth/infra/workers/email_outbox_processor.cpp:164-167 | on every run the attempt after a retryable failure is not claimed before the failure time plus a delay between base and maximum |
| `OutboxProgress.PotentialStep` | sql/auth/read/email_outbox/email_outbox_claim_batch.sql:1-25 | each claimed row uses up one unit of the attempts left over all jobs; nothing but a new job adds any |
| `OutboxProgress.ClaimsAreBounded` | sql/auth/read/email_outbox/email_outbox_claim_batch.sql:1-25 | claims made plus attempts left never exceed jobs times max_attempts, on every run |
| `OutboxProgress.AgreeingLimitsNeverStrand` | src/auth/infra/workers/email_outbox_retry_policy.cpp:7-10 | where the two limits agree every pending job of every reachable state can be claimed at some time |
| `OutboxProgress.FailTimes` | src/auth/infra/workers/email_outbox_processor.cpp:144-170 | a job can be brought to any number of failed attempts that both limits allow and whose delay is defined |
| `OutboxProgress.NeverStrandsExactly` | src/auth/infra/db/pg/repositories/postgres_email_outbox_repository.cpp:54-55 | no pending job is ever unclaimable if and only if max_attempts survives the 32-bit cast or the delay of the last claimable attempt is undefined |
| `OutboxWorker.TalliesAddUp` | src/auth/infra/workers/email_outbox_processor.cpp:85-199 | every job of a batch has exactly one of the five outcomes |
| `OutboxWorker.OutcomeExactly` | src/auth/infra/workers/email_outbox_processor.cpp:93-198 | the outcome and the row's fate for every combination of template, payload, send result, exception and lease |
| `OutboxWorker.Worker.PersistFailure` | src/auth/infra/workers/email_outbox_processor.cpp:144-194 | the catch block's outcome, the table it leaves, and that exactly that outcome's counter rises by one |
| `OutboxWorker.Worker.Process` | src/auth/infra/workers/email_outbox_processor.cpp:93-198 | on every path through the nested failures one counter rises by one and the table is the one that outcome means; both templates can be sent, other templates and payloads are dead, delivery errors are as they say, everything else is retried |
| `OutboxWorker.Worker.Tick` | src/auth/infra/workers/email_outbox_processor.cpp:60-200 | a disabled worker does nothing, a failed claim counts one claim error, otherwise the counters rise by the tallies of the batch and together by its size |
| `OutboxRefinement.BatchIsSteps` | sql/auth/read/email_outbox/email_outbox_claim_batch.sql:16-25 | claiming a batch in one statement is a run of single claims |
| `OutboxRefinement.ClaimBatchIsRun` | src/auth/infra/workers/email_outbox_processor.cpp:70-73 | ClaimBatch leads from a reachable table to a reachable table with an unsent ticket for every job of the batch |
| `OutboxRefinement.SendIsStep` | src/auth/infra/workers/email_outbox_processor.cpp:93-125 | sending, or failing to read the payload or template, is a step from the unsent ticket to the phase the catch block will see |
| `OutboxRefinement.ThrowIsStep` | src/auth/infra/workers/email_outbox_processor.cpp:127-151 | a success report that throws, applied or not, is a step to a retryable failure |
| `OutboxRefinement.LastIsStep` | src/auth/infra/workers/email_outbox_processor.cpp:127-194 | the last transaction, also one that throws after its write was applied, is a step that leaves the worker's table and spends the ticket |
| `OutboxRefinement.ProcessIsRun` | src/auth/infra/workers/email_outbox_processor.cpp:93-198 | from the unsent ticket to the last report processing a job is a run of the protocol, with any steps of other workers in between, and spends only its own ticket |
| `OutboxRefinement.ResultLostExactly` | src/auth/infra/workers/email_outbox_processor.cpp:127-178 | in every reachable state a result is lost if and only if the job was finished, put back or attempted again since, and then no row changes |
| `OneTimeTokens.TokenTable.FindActiveByUserId` | sql/auth/read/password_resets/password_resets_find_active_by_user_id.sql:12-18 | finds a newest open token of the user, or nothing exactly when there is none |
| `OneTimeTokens.TokenTable.MarkActiveUsedByUserId` | sql/auth/write/password_resets/password_resets_mark_active_used_by_user_id.sql:1-4 | the row-by-row update uses up exactly the user's unused tokens |
| `OneTimeTokens.TokenTable.MarkUsed` | sql/auth/write/password_resets/password_resets_mark_used.sql:1-7 | consumes exactly an open token and reports whether it did |
| `OneTimeTokens.TokenTable.IncrementAttempts` | sql/auth/write/password_resets/password_resets_increment_attempts.sql:1-7 | counts a wrong guess on an open token only |
| `OneTimeTokens.TokenTable.Issue` | src/auth/services/usecases/password_service.cpp:108-120 | after superseding and inserting the new token is the user's only unused one, and the unique index still holds |
| `TokenProtocol.LockPreventsConflict` | migrations/0010_create_password_resets.up.sql:19-21 | an insert under the user's lock never meets the unique index, counting committed and uncommitted rows |
| `TokenProtocol.CommitRequestKeepsInv` | src/auth/services/usecases/password_service.cpp:98-127 | committing a request keeps the invariant and leaves its token as the user's only unused one |
| `TokenProtocol.StepKeepsInv` | src/auth/services/usecases/password_service.cpp:85-198 | every sign-up, request, abort, lookup and confirmation step keeps the lock, index, row and history invariants |
| `TokenProtocol.InvHolds` | src/auth/services/usecases/password_service.cpp:85-198 | they hold in every state of every run |
| `TokenProtocol.ConfirmTransaction` | src/auth/services/usecases/password_service.cpp:174-197 | the statements of a confirmation are exactly the commit step, and act exactly when it does |
| `TokenProtocol.RequestTransaction` | src/auth/services/usecases/password_service.cpp:108-127 | the two statements of a request leave exactly the table of its commit step |
| `TokenProtocol.IndexIsNeverViolated` | migrations/0010_create_password_resets.up.sql:19-21 | on every run the index holds of the committed rows and refuses no insert |
| `TokenProtocol.NewestIsTheOnlyUnused` | src/auth/services/usecases/password_service.cpp:108-127 | on every run a committing request leaves its token as the only unused one |
| `TokenProtocol.TokensActOnce` | src/auth/services/usecases/password_service.cpp:189-197 | each token changes an account at most once, and only its own user's |
| `TokenProtocol.UseIsAccountedFor` | src/auth/services/usecases/identity_service.cpp:172-179 | the tokens that acted are exactly the used ones that were not superseded; counters stay within the maximum |
| `TokenProtocol.RunOpens` | src/auth/services/usecases/password_service.cpp:167-197 | over any stretch of a run, a token that acts was unused and not exhausted at the start of it |
| `TokenProtocol.ClosedTokenNeverActs` | src/auth/services/usecases/password_service.cpp:167-197 | a used, superseded or exhausted token never acts afterwards, even through an earlier lookup |
| `TokenProtocol.EffectsAreEarned` | src/auth/services/usecases/password_service.cpp:174-197 | on every run each account change was asked for with a code that hashes to the consumed token, at a time before it expired |
| `TokenGuesses.MissIsCounted` | src/auth/services/usecases/password_service.cpp:175-180 | a committed wrong code raises exactly the counter of its open token by one, and changes nothing otherwise |
| `TokenGuesses.CounterIsMisses` | sql/auth/write/password_resets/password_resets_increment_attempts.sql:1-7 | on every run each counter is the number of wrong codes committed against its token while it was open |
| `TokenGuesses.GuessedOutTokenNeverActs` | src/auth/services/usecases/password_service.cpp:167-197 | on every run a token with the maximum of counted misses never acts again |
| `TokenGuesses.MissesWereWrong` | src/auth/services/usecases/password_service.cpp:175-180 | on every run only codes that do not match the token are counted against it |
| `TokenGuesses.RightCodeActs` | src/auth/services/usecases/password_service.cpp:167-197 | the right code of an open token, undisturbed, changes the account and uses the token up |
| `TokenGuesses.InsertMakes` | src/auth/services/usecases/password_service.cpp:111-120 | a request's insert goes through and its row has the user, the given hash, an own lifetime and no guesses |
| `TokenGuesses.SignUpCodeActs` | src/auth/services/usecases/identity_service.cpp:104-117 | the code a sign-up stored acts when presented in time |
| `TokenGuesses.RequestedCodeActs` | src/auth/services/usecases/password_service.cpp:108-127 | the code a request stored acts when presented in time, whatever else is in flight |
| `Cidr.MaskIsDivision` | src/auth/infra/http/request_meta_extractor.cpp:133-134 | comparing masked bytes is comparing their quotients by a power of two |
| `Cidr.PrefixValue` | src/auth/infra/http/request_meta_extractor.cpp:120-127 | the leading bytes are the quotient of the big-endian value by the weight of the rest |
| `Cidr.BytewiseIsSameNetwork` | src/auth/infra/http/request_meta_extractor.cpp:117-135 | full bytes and leading bits agree if and only if the values agree after division by 2^(128-p) |
| `Cidr.PrefixMatches` | src/auth/infra/http/request_meta_extractor.cpp:117-135 | the loop and mask decide exactly that, for every prefix length |
| `Cidr.LongerImpliesShorter` | src/auth/infra/http/request_meta_extractor.cpp:117-135 | a match on a longer prefix is a match on every shorter one |
| `Cidr.ShortestAndLongest` | src/auth/infra/http/request_meta_extractor.cpp:117-135 | prefix 0 matches everything, prefix 128 only the address itself |
| `ForwardedFor.IsTrustedProxy` | src/auth/infra/http/request_meta_extractor.cpp:203-210 | true exactly when some configured network of the same version contains the address |
| `ForwardedFor.Trim` | src/auth/infra/http/request_meta_extractor.cpp:35-45 | cuts off only blanks, leaves none at either end, and is empty exactly when the text is blank |
| `ForwardedFor.ParseForwardedFor` | src/auth/infra/http/request_meta_extractor.cpp:137-163 | the comma loop parses exactly the comma-separated entries, and fails as a whole if one fails or the header is blank |
| `ForwardedFor.ParseAllJoined` | src/auth/infra/http/request_meta_extractor.cpp:144-160 | parsing a joined list joins the parsed parts; one malformed entry spoils the whole |
| `ForwardedFor.SingleEntry` | src/auth/infra/http/request_meta_extractor.cpp:137-155 | a header without a comma is one entry, or none if it is blank or malformed |
| `ForwardedFor.ChosenEntry` | src/auth/infra/http/request_meta_extractor.cpp:240-246 | the chosen entry has only trusted ones after it and is untrusted, or is the first if all are trusted |
| `ForwardedFor.WalkBack` | src/auth/infra/http/request_meta_extractor.cpp:238-246 | the backward loop computes that choice |
| `ForwardedFor.Extract` | src/auth/infra/http/request_meta_extractor.cpp:225-257 | computes the client address on every branch: none for an unparseable peer, the peer if untrusted, X-Real-IP or the peer without a usable chain |
| `ForwardedFor.TrustedPeerAnswer` | src/auth/infra/http/request_meta_extractor.cpp:225-257 | behind a trusted peer the answer is the rightmost untrusted header entry, or the first entry if all are trusted |
| `ForwardedFor.PrependingChangesNothing` | src/auth/infra/http/request_meta_extractor.cpp:137-257 | once an entry is untrusted, entries in front that parse leave the answer unchanged |
| `ForwardedFor.PrependedAnswer` | src/auth/infra/http/request_meta_extractor.cpp:137-257 | the answer behind a trusted peer for everything put in front: a malformed entry falls back to X-Real-IP or the peer, parseable ones decide only if the rest is all trusted |
| `ForwardedFor.PrependingHarmlessExactly` | src/auth/infra/http/request_meta_extractor.cpp:137-257 | behind an untrusted entry the answer is unchanged if and only if what is in front parses or the fallback reads the same |
| `ForwardedFor.LeadingCommaMovesTheAnswer` | src/auth/infra/http/request_meta_extractor.cpp:150-153 | one concrete header with an empty first entry whose answer differs |
| `ForwardedFor.HeadersMatterExactly` | src/auth/infra/http/request_meta_extractor.cpp:225-257 | some headers change the answer if and only if the peer is trusted and any other address can be named |
| `Base64Url.DecodeInvertsEncode` | src/auth/infra/security/token/random_token_generator.cpp:14-44 | a text decodes to bytes if and only if it is their encoding |
| `Base64Url.EncodeLength` | src/auth/infra/security/token/random_token_generator.cpp:14-44 | n bytes become ceil(4n/3) characters |
| `Base64Url.EncodeByValue` | src/auth/infra/security/token/random_token_generator.cpp:14-44 | without bit operations: each group is the four base-64 digits of its big-endian value, the rest filled with zero bits |
| `Base64Url.Base64UrlNoPadding` | src/auth/infra/security/token/random_token_generator.cpp:14-44 | the index loop computes the encoding for every length |
| `Base64Url.TranslatedPadding` | src/auth/infra/security/jwt/jwt_cpp_token_provider.cpp:63-73 | translated padded base64 is the unpadded encoding, free of '=', followed by its padding |
| `Base64Url.Base64UrlEncode` | src/auth/infra/security/jwt/jwt_cpp_token_provider.cpp:47-76 | pad, translate and strip yields the same encoding as the hand-written loop |
| `Smtp.LooksLikeCrLfText` | src/auth/infra/messaging/smtp/curl_smtp_client.cpp:37-44 | accepts exactly the texts whose every line feed follows a carriage return |
| `Smtp.NormalizeBody` | src/auth/infra/messaging/smtp/smtp_email_sender.cpp:97-105 | the index loop computes the normal form |
| `Smtp.NormalizeIsCrlf` | src/auth/infra/messaging/smtp/smtp_email_sender.cpp:97-105 | every normalised text passes the check |
| `Smtp.NormalizeFixpoints` | src/auth/infra/messaging/smtp/smtp_email_sender.cpp:97-105 | normalising changes nothing if and only if the text already passes the check |
| `Smtp.NormalizeIdempotent` | src/auth/infra/messaging/smtp/smtp_email_sender.cpp:97-105 | normalising twice is normalising once |
| `Smtp.NormalizeKeepsLines` | src/auth/infra/messaging/smtp/smtp_email_sender.cpp:97-105 | normalising changes no logical line |
| `Smtp.NormalizeKeepsCr` | src/auth/infra/messaging/smtp/smtp_email_sender.cpp:97-105 | normalising neither adds nor repairs a bare carriage return |
| `Smtp.BareCrPasses` | src/auth/infra/messaging/smtp/curl_smtp_client.cpp:37-44 | one text with a bare carriage return that the checker accepts and the normaliser leaves alone |
| `Smtp.FormatMailbox` | src/auth/infra/messaging/smtp/smtp_email_sender.cpp:63-76 | the display name is used exactly when it is non-empty and all its characters are plain |
| `Smtp.DomainAfterAt` | src/auth/infra/messaging/smtp/smtp_email_sender.cpp:20-25 | the domain is what follows the first '@', with localhost for an empty or missing one |
| `Smtp.BuildPlaintextRfc822` | src/auth/infra/messaging/smtp/smtp_email_sender.cpp:78-110 | builds the nine header lines, the normalised body and a closing line end |
| `Smtp.MessageIsWellFormed` | src/auth/infra/messaging/smtp/smtp_email_sender.cpp:78-140 | behind the guard every message passes the check and its logical lines are the headers, the body's lines and one empty line |
| `Smtp.MessageFields` | src/auth/infra/messaging/smtp/smtp_email_sender.cpp:86-95 | which line of a guarded message says what, and that the body follows |
| `Smtp.MessagePairedExactly` | src/auth/infra/messaging/smtp/smtp_email_sender.cpp:78-110 | a guarded message has CR and LF only as pairs if and only if every CR of its body is followed by LF |
| `Smtp.Submit` | src/auth/infra/messaging/smtp/curl_smtp_client.cpp:149-169 | the client submits exactly when it has host, username, password, a recipient and a non-empty CRLF payload |
| `Smtp.SendPlaintext` | src/auth/infra/messaging/smtp/smtp_email_sender.cpp:119-140 | submits exactly the guarded messages of a configured client; the payload check never refuses one |
| `Smtp.Upload.ReadCallback` | src/auth/infra/messaging/smtp/curl_smtp_client.cpp:49-65 | hands over the next piece, as long as the wrapping product of the sizes allows, and advances past it |
| `Smtp.Transfer` | src/auth/infra/messaging/smtp/curl_smtp_client.cpp:54-65 | called until it returns nothing, the callback delivers the payload from its start, and all of it unless some product of sizes wraps to zero |

## Left out

- HTTP handlers, JSON, error mapping, health checks, metrics timing and logging: plumbing around the modelled logic.
- JWT signing and parsing, Argon2id, HMAC, random bytes and the mail transfer itself: foreign code, taken as functions or as outcomes.
- Text parsing of addresses and CIDR strings: one address is parsed by an abstract function.
- PostgreSQL isolation below the atomic transaction, for sessions, outbox reports and confirmations.
- Replica reads, user lookups, validators, device rows and the soft deletion of users.
- Delivery of every job: a worker that crashes on the last permitted attempt leaves a processing row that is never claimed again.
- Sign-ins that verified an old password before a change and insert after it: only the families that exist at the commit are ended.
- The password-reset and verification limiters: the same statements as the sign-in limiter under other key prefixes, so they would only repeat its members. The sign-up limiter has a single ip scope.
- Outbox.OutboxTable.ClaimBatch: promises no order of the returned batch, because UPDATE .. RETURNING gives none; the order of `Outbox.SelectCandidates` decides only which rows are claimed.
- OutboxWorker.Worker.Tick: assumes `DelaysFit`, that no delay below max_attempts overflows, because computing one is undefined in C++. It says nothing of the final table, which other workers change in between; `OutboxRefinement.ClaimBatchIsRun` and `OutboxRefinement.ProcessIsRun` do.
- OutboxWorker.Worker.Process: assumes `Computable`, that the delay this job needs, if it needs one, does not overflow.
- OutboxWorker.Worker.PersistFailure: the same assumption for the failure it writes.
- TokenProtocol.UseIsAccountedFor: bounds the stored counter of wrong guesses, not the number of guesses compared, which can run ahead of it because looking up and counting are separate steps.
- OneTimeTokens.TokenTable.IncrementAttempts: the last_attempt_at column, which no statement reads, is not modelled.
- RateLimiter.AttemptTable.TryRecord: the user agent column, which no decision reads, is not modelled.
- Smtp.Upload.ReadCallback: positions replace pointers.
