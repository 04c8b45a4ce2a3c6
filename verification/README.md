# Learnault API: a Dafny model of its protocols and arithmetic

The API coordinates several processes through shared database rows: wallet provisioning, the
transactional outbox, queue leases, refresh-token rotation and account deletion all race with
themselves.  This project models those protocols and the exact arithmetic beside them, and proves
what they keep in every interleaving.

## How the model is made

Each protocol is a state with the rows it touches, a set of actions, a total function `Apply` for
one action and `Run` for a sequence of them.  One action is one database transaction, one single
conditional statement, or one uninterrupted stretch of in-process code, so a sequence of actions is
one interleaving of workers, crashes, lost replies, late commits, expired leases, redeliveries and the
clock.  Theorems quantify over all sequences; their invariants are proved one action at a time.

Beside each protocol a class holds the rows as fields and updates them in place with the branches
and loops of the source.  Its methods are proved to take exactly the steps of the protocol
(`View() == Apply(old(View()), ...)`, or `Run` of a returned schedule), so the theorems are about
the code's own shape.  What a step function computes is itself pinned down by laws over several
calls that do not mention it: when a lease or a retry runs out, who is served first, what a caller
is told, which columns and log entries a history leaves.  Ghost fields of those classes stand for calls that are suspended at an
`await`.

Tokens, ids and generated keypairs are values never used before.  Clock readings, replies of
foreign services and handler outcomes are parameters, so they are arbitrary.

| Files | Part |
|---|---|
| `wallet_repository.dfy`, `wallet_protocol.dfy`, `wallet_safety.dfy`, `wallet_timing.dfy`, `wallet_rows.dfy`, `wallet_service.dfy` | wallet provisioning: tables, protocol, theorems, when jobs are claimed again, columns and audit log, objects |
| `kms_store.dfy` | the in-memory key store with its await |
| `user_created.dfy` | the handler of redelivered UserCreated events |
| `outbox_protocol.dfy`, `outbox_safety.dfy`, `outbox_timing.dfy`, `outbox_service.dfy` | transactional outbox, job leases, handler registry; when jobs are handed out |
| `queue_lease.dfy`, `scheduler.dfy` | queue leases with their heartbeat; timers and ticks of the job runner |
| `refresh_tokens.dfy`, `refresh_token_safety.dfy` | refresh-token rotation |
| `account_deletion.dfy`, `account_deletion_safety.dfy`, `account_deletion_timing.dfy`, `account_lifecycle.dfy` | deletion requests, sweeps and cancellation; the cooling-off period |
| `ledger.dfy`, `money.dfy`, `rewards.dfy` | reward ledger, stroop strings, bonuses |
| `offline_sync.dfy`, `offline_sync_safety.dfy` | reconciliation of offline events |
| `archive.dfy`, `rate_limiter.dfy`, `image_dimensions.dfy` | query rewriting, fixed-window limiter, image headers |

## Where the code does not do what it promises

The code was kept as it is; the lemmas named here pin down when each of these happens.

- A deletion request whose sweep dies between claim and outcome is never picked up again
  (`ProcessingEndsExactlyWhenHeld`, `CrashOrphans`), although the comment at
  src/services/account-lifecycle.service.ts:164-168 calls crash re-runs safe.
- The finalizing transaction of a deletion does not ask for the status that it overwrites.  One that
  commits after its sweep has heard an error completes a request that was cancelled or failed
  meanwhile (`DecidedIsFinalExactlyWhenNoneInTransit`, `CancellationIsOverridden`) or finalizes one
  again (`FinalizedAgainExactlyWhenOpen`, `FinalizedOnceButForLateCommits`).
- Sweeps that overlap decide about failing by a stale attempt count, so a request can use up its
  attempts and then wait for ever without having failed (`AbandonedExactlyWhenSpent`,
  `OverlapAbandons`).
- A runner restarted while a tick outlived the shutdown deadline drives that queue twice
  (`RestartIsSafeExactlyWhenDrained`).
- Two claims for one user and module that overlap at the payment are both paid.  As long as no later
  claim for the pair overlaps with another, a claim is safe exactly when it was alone
  (`ClaimIsSafeExactlyWhenAlone`, `PaidAtMostOnceExactlyWhen`); against any later claims only a pair
  is safe that was rewarded once and has no claim in flight (`NeverPaidTwiceExactlyWhen`).
- Two overlapping deliveries of one UserCreated event can both ask for provisioning, with the same
  two answers (`AskingIsSafeExactlyWhenAlone`, `AsksOnceExactlyWhen`; `NeverAsksTwiceExactlyWhenAnswered`).
- A user may set any address that no other user has, so also the stored key of a wallet that is not
  ACTIVE yet, whose finalization then fails for as long as that user keeps it
  (`KeyTakenExactlyWhenAddressed`, `RecoveryActivates`).
- `pendingWithdrawals` keeps completed withdrawals (`PendingWithdrawalsKeepCompleted`).
- A long streak makes a reward fail although its capped bonus would fit (`StreakBonusIsCapped`).
- Progress versions are looked up by substring of the payload: a module is hidden by any other whose
  payload has its name in it, be it in the other's name, in the fixed text or in a number
  (`StaleMeansOwnExactlyWhen`, `WhatHides`), and a name that JSON escapes may not find itself, so
  that its versions go back (`NeverBackExactlyWhenFound`).  Plain names of one length, as UUIDs are,
  keep the documented rule (`StaleMeansOwnModule`).
- Two sync requests that update one score at the same time can leave the lower score
  (`OverlapKeepsJoinExactlyWhen`).
- The image reader skips neither the fill bytes that ITU-T T.81 section B.1.1.2 allows nor markers
  that stand alone (`FillByteIsNotSkipped`, `StandaloneMarkerIsNotSkipped`).
- A revocation does not stop a rotation that has claimed its token and not yet minted the next
  (`RevocationIsFinalExactlyWhenNoneInFlight`).
- A logout everywhere reads the open sessions and revokes them in a second step, so a login between
  the two stays open (`LoginDuringLogoutAllSurvives`).
- Replaying a published event makes it pending with all its jobs completed
  (`ReplayAgreesExactlyWhenUnpublished`).
- The in-memory key store awaits a hook between its check and its write, so overlapping stores of
  one wallet can write two keys: as long as no later store overlaps with another, exactly when two
  are under way or one is behind a key (`KeyIsWrittenOnceExactlyWhenAlone`, `WritesOnceExactlyWhen`),
  and against any later stores unless the one key is there (`NeverWritesTwiceExactlyWhen`).
- An interval as long as the rate limiter's window can admit `2 * max - 1` requests and no more
  (`SlidingBound`, `SlidingBoundIsReached`).

## Model

| member | source | states |
|---|---|---|
| WalletSafety.ProvisioningIsSafe | src/jobs/wallet-provisioning.handler.ts:65-124 | in every interleaving of workers, crashes, expired leases, requeues and lost replies at most one key is stored per wallet, an ACTIVE wallet carries exactly that key and reference, every `completed` result reports it, no two ACTIVE wallets share a key, a user has at most one wallet, and no two users share an address |
| WalletSafety.RowsAgreeAndFollowTheMap | src/types/wallet-provisioning.types.ts:17-26 | in every reachable state wallet and job statuses are coupled (COMPLETED iff ACTIVE, DEAD_LETTER iff FAILED), and the next step moves each status along an edge of the transition map or not at all |
| WalletSafety.KeysAndActiveWalletsEndure | src/services/wallet-provisioning.repository.ts:178-248 | no continuation replaces a stored key, changes an ACTIVE wallet row or moves a wallet to another user |
| WalletSafety.SupersededForever | src/services/wallet-provisioning.repository.ts:128-176 | a lease token that no job holds any more is never held again |
| WalletSafety.DisplacedWorkerChangesNothing | src/services/wallet-provisioning.repository.ts:189-191 | at any time after losing its lease, a worker's complete finalizes nothing and its failure report leaves the database as it is |
| WalletSafety.RecoveryActivates | src/services/wallet-provisioning.repository.ts:53-77 | from every reachable state a requeue and one undisturbed call bring a wallet that is not ACTIVE, of an eligible user, to ACTIVE with the key already stored if there is one, exactly when no other user has that key as address |
| WalletSafety.NothingIsStuck | src/services/wallet-provisioning.repository.ts:53-77 | from every reachable state some continuation makes the wallet of an eligible user ACTIVE, if need be one in which another user gives up the key as address |
| WalletSafety.AddressIsKeyUntilChanged | src/services/wallet-provisioning.repository.ts:218-221 | in every run without a change or erasure of a user's address, the user of an ACTIVE wallet has its key as address |
| WalletProtocol.StepKeepsInv | src/jobs/wallet-provisioning.handler.ts:65-158 | the invariant over database, key store, suspended calls, messages in transit and results is kept by every single step |
| WalletProtocol.KeyTakenExactlyWhenAddressed | src/services/wallet-provisioning.repository.ts:206-221 | of the unique indexes only the one on addresses can reject a finalization with the wallet's own stored key, exactly when another user has that key as address |
| WalletRepository.ReserveKeepsTables | src/services/wallet-provisioning.repository.ts:42-91 | reserving keeps rows coupled and one wallet per user, reopens only FAILED wallets, and never touches an ACTIVE one |
| WalletRepository.ClaimKeepsTables | src/services/wallet-provisioning.repository.ts:128-176 | claiming keeps the tables valid: PROCESSING with a fresh token goes with PROVISIONING |
| WalletRepository.CompleteKeepsTables | src/services/wallet-provisioning.repository.ts:178-248 | finalizing keeps the tables valid and moves along the map |
| WalletRepository.FailureKeepsTables | src/services/wallet-provisioning.repository.ts:250-292 | recording a failure keeps the tables valid: retry goes with RETRYABLE, terminal with FAILED |
| WalletTiming.ClaimedAgainExactlyWhenLeaseRanOut | src/services/wallet-provisioning.repository.ts:312-325 | after a claim at t0 with lease l, a claim at t of the row as it then stands succeeds exactly when t0 + l < t |
| WalletTiming.RetriedExactlyWhenDue | src/services/wallet-provisioning.repository.ts:250-292 | after a recorded failure the job can be claimed exactly from the scheduled retry on, and never after a terminal one |
| WalletTiming.RequestedExactlyFromThen | src/services/wallet-provisioning.repository.ts:42-91 | after an eligible request at t0 the job can be claimed exactly from t0 on, unless the wallet was ACTIVE |
| WalletTiming.FinalizedIsNeverClaimed | src/services/wallet-provisioning.repository.ts:178-248 | a finalized job is never claimed |
| WalletTiming.BackoffDoubles | src/jobs/wallet-provisioning.handler.ts:126-158 | the failure of attempt n is retried exactly from the base delay doubled n - 1 times on, and never once the attempts are used up |
| WalletTiming.LostStoreStillArrives | src/jobs/wallet-provisioning.handler.ts:86-106 | a store whose reply was lost can still take effect after its call is gone, and then leaves any key stored before |
| WalletTiming.LostCompletionStillArrives | src/jobs/wallet-provisioning.handler.ts:108-124 | a finalization whose reply was lost can still activate the wallet under the same lease |
| WalletTiming.LostFailureStillArrives | src/jobs/wallet-provisioning.handler.ts:140-153 | a failure report that was lost can still schedule its retry, or give up, under the same lease |
| WalletRows.ColumnsTell | src/services/wallet-provisioning.repository.ts:42-292 | in every reachable state leases, dates, failure codes and attempt counts agree with the statuses of wallet and job, and every job has eight attempts |
| WalletRows.AuditTellsTheStory | src/services/wallet-provisioning.repository.ts:70-91 | in every reachable state the audit log has one reservation per wallet, one entry per counted attempt, one completion exactly if ACTIVE, one failure more than requeues exactly if FAILED, each naming the owner |
| WalletRows.WritesAreStamped | src/services/wallet-provisioning.repository.ts:42-292 | every write of a wallet row is stamped with its moment, and an activation dated with it in both rows |
| WalletRows.FailureIsNoted | src/services/wallet-provisioning.repository.ts:250-292 | a failure reported under the current lease leaves its code in both rows; any other changes nothing |
| WalletRows.CompletionAnswers | src/services/wallet-provisioning.repository.ts:178-221 | a finalization with the stored key leaves an ACTIVE wallet alone, fails for any token but the current one and for a key that another user has as address, and otherwise activates the wallet |
| WalletRows.RequestMakesOneWallet | src/services/wallet-provisioning.repository.ts:42-91 | a request of an eligible user without a wallet adds exactly one reserved wallet in the network asked for and leaves all others alone |
| WalletService.ProvisioningRepository.ReserveEligibleWallet | src/services/wallet-provisioning.repository.ts:42-91 | takes exactly the reserve step, succeeds exactly for eligible users, refuses the others with the first unmet condition, and reuses the user's wallet |
| WalletService.ProvisioningRepository.ClaimCandidate | src/services/wallet-provisioning.repository.ts:128-176 | claims exactly when the job is claimable now, with a fresh token and counted attempt; otherwise nothing changes |
| WalletService.ProvisioningRepository.ClaimNext | src/services/wallet-provisioning.repository.ts:97-111 | over a candidate list that may be stale, claims the first that is still claimable, and none exactly when none is |
| WalletService.ProvisioningRepository.Complete | src/services/wallet-provisioning.repository.ts:178-248 | succeeds exactly when finalized now or ACTIVE before, and every refusal leaves all rows as they were |
| WalletService.ProvisioningRepository.RecordFailure | src/services/wallet-provisioning.repository.ts:250-292 | takes exactly the failure step, guarded by the lease |
| WalletService.ProvisioningRepository.UpdateWalletAddress | src/services/user-account.service.ts:115-166 | an address that another user has is a conflict, the own one is unchanged, any other one is written, and refusals change nothing |
| WalletService.ProvisioningRepository.EraseWalletAddress | src/services/account-lifecycle.service.ts:238-250 | finalizing a deletion takes the address away and touches no other row |
| WalletService.EnvelopeKms.StoreStellarSecret | src/services/kms/kms-secret-store.ts:34-42 | as the interface demands: the first key stored under an idempotency key is kept and returned ever after |
| KmsStore.StoresApartWriteOnce | src/services/kms/in-memory-envelope-kms.ts:48-84 | stores of the in-memory implementation that do not overlap write at most one key per wallet |
| KmsStore.WritesOnceExactlyWhen | src/services/kms/in-memory-envelope-kms.ts:48-84 | from any reachable state, in all continuations in which no store of the wallet begins while another is under way: at most one key is ever written exactly when the keys written and the stores under way are together at most one |
| KmsStore.KeyIsWrittenOnceExactlyWhenAlone | src/services/kms/in-memory-envelope-kms.ts:48-84 | a store that found no entry stays the only one ever to write for its wallet, in those continuations, exactly when none has been written since and no other store of the wallet is under way |
| KmsStore.NeverWritesTwiceExactlyWhen | src/services/kms/in-memory-envelope-kms.ts:48-84 | in all continuations without exception at most one key is written exactly when one has been and no store is under way |
| KmsStore.NewOverlapWritesTwice | src/services/kms/in-memory-envelope-kms.ts:48-84 | two stores of a wallet without a key that begin now and overlap write two |
| KmsStore.BothWrite | src/services/kms/in-memory-envelope-kms.ts:48-84 | two suspended stores of one wallet both write, and the second key replaces the first |
| KmsStore.InMemoryEnvelopeKms.BeginStore | src/services/kms/in-memory-envelope-kms.ts:48-54 | an entry that is there is the answer; otherwise the call is suspended at its hook |
| KmsStore.InMemoryEnvelopeKms.FinishStore | src/services/kms/in-memory-envelope-kms.ts:56-84 | after the hook the entry is written without looking again |
| WalletService.ProvisioningHandler.HandleClaimed | src/jobs/wallet-provisioning.handler.ts:65-124 | whatever the environment answers, one call takes only protocol steps, ends, and reports exactly one result, the one that answers and rows determine: completed with the stored key, or the code of what failed, as a retry or for good |
| WalletService.ProvisioningHandler.ObtainMaterial | src/jobs/wallet-provisioning.handler.ts:75-106 | lookup, generate, store and repair lookup end with the key stored before, else the one just generated, else the code of the step that failed |
| WalletService.ProvisioningHandler.Fail | src/jobs/wallet-provisioning.handler.ts:126-158 | the failure is recorded with the scheduled retry, or terminally once attempts are used up, and one result is reported |
| WalletService.ProvisioningHandler.Execute | src/jobs/wallet-provisioning.handler.ts:65-158 | any schedule of steps carried out on the objects is that run of the protocol and keeps its invariant |
| UserCreated.ResultsAgree | src/jobs/user-created.handler.ts:39-75 | however often events are redelivered, all results of an event name the same wallet, users share none, and each result is backed by a request |
| UserCreated.RedeliveryAsksOnce | src/jobs/user-created.handler.ts:44-69 | if deliveries of one event do not overlap, however those of others do, it asks for provisioning at most once, through any crashes |
| UserCreated.AsksOnceExactlyWhen | src/jobs/user-created.handler.ts:44-69 | from any reachable state, in all continuations in which no delivery of the event starts while another is under way: at most one request is ever made exactly when one has been and no delivery is about to ask, or none has and at most one delivery is under way |
| UserCreated.AskingIsSafeExactlyWhenAlone | src/jobs/user-created.handler.ts:44-69 | a delivery that found no request is safe from a second one, in those continuations, exactly when nobody has asked since and no other delivery of the event is under way |
| UserCreated.NeverAsksTwiceExactlyWhenAnswered | src/jobs/user-created.handler.ts:44-69 | in all continuations without exception at most one request is made exactly when one has been and no delivery is about to ask |
| UserCreated.NewOverlapAsksTwice | src/jobs/user-created.handler.ts:44-69 | two deliveries of an event nobody has asked for that start now and overlap ask twice |
| UserCreated.UserCreatedHandler.Handle | src/jobs/user-created.handler.ts:39-75 | an undisturbed delivery asks exactly if nobody asked for this event before, and reports the user's wallet |
| OutboxSafety.EventsAgreeWithJobs | src/lib/transactions/job-lease.service.ts:184-206 | in every reachable state an event with jobs is PUBLISHED iff all are COMPLETED, DEAD_LETTER iff some job is, else PENDING; one job per event and handler name |
| OutboxSafety.LeasesAreExclusive | src/lib/transactions/job-lease.service.ts:62-140 | a job holds a token exactly while LEASED, and no two jobs hold the same token |
| OutboxSafety.SupersededTokenChangesNothing | src/lib/transactions/job-lease.service.ts:163-182 | once superseded, a token completes or fails nothing at any later time |
| OutboxSafety.CompletedIsAbsorbing | src/lib/transactions/job-lease.service.ts:156-182 | a completed job row is never written again and no job changes its event or handler |
| OutboxSafety.CompletedAtMostOnce | src/lib/transactions/job-lease.service.ts:156-182 | in any run COMPLETED is entered at most once per job |
| OutboxSafety.RetryBudget | src/lib/transactions/job-lease.service.ts:252-289 | `attempt` stays below the budget, a job is dead-lettered exactly on the failure that uses it up, and the delays so far sum to the geometric series of the backoff |
| OutboxSafety.GeometricClosedForm | src/lib/transactions/job-lease.service.ts:274 | (m - 1)(m + ... + m^n) = m^(n+1) - m for every real multiplier |
| OutboxSafety.OutcomesLowerTheMeasure | src/workers/outbox-relay.ts:126-144 | every recorded dispatch outcome strictly lowers the failures that are left; only fan-out and replay can raise them |
| OutboxSafety.OutcomesAreBounded | src/workers/outbox-relay.ts:126-144 | a run records at most as many outcomes as the work it started with and was given |
| OutboxSafety.HandlersForSelects | src/lib/transactions/handler-registry.ts:58-60 | a lookup returns exactly the handlers registered for the type and version |
| OutboxSafety.HandlersForUnique | src/lib/transactions/handler-registry.ts:41-56 | with unique names in the registry, a fan-out never addresses one name twice |
| OutboxSafety.StepKeepsInv | src/lib/transactions/job-lease.service.ts:62-317 | each transaction of relay, lease service and registry keeps the two-table invariant and never reissues a token |
| OutboxSafety.KeyCompletesOneJob | src/lib/transactions/job-lease.service.ts:156-182 | an idempotency key that completed a job completes no other one, ever |
| OutboxTiming.RetryWaitsForBackoff | src/lib/transactions/job-lease.service.ts:252-289 | after a failure at t0 that is not the last, the job is given to nobody before t0 plus its backoff, and from then on to whoever asks if it is the only one of its type |
| OutboxTiming.LastFailureIsFinal | src/lib/transactions/job-lease.service.ts:252-270 | after its last failure nobody is given the job |
| OutboxTiming.CompletionIsFinal | src/lib/transactions/job-lease.service.ts:156-182 | nor after its completion |
| OutboxTiming.LeaseProtectsUntilRunOut | src/lib/transactions/job-lease.service.ts:62-140 | after a lease at t0 for l the job is given to another worker, and recovered, at t exactly when t0 + l < t |
| OutboxTiming.RecoveredIsGiven | src/lib/transactions/job-lease.service.ts:301-317 | a job recovered from an abandoned lease is given to the next worker that asks |
| OutboxTiming.OldestComesFirst | src/lib/transactions/job-lease.service.ts:70-92 | no waiting job of the type is older than the one given, and an abandoned one is given only if none waits, the longest abandoned first |
| OutboxTiming.SomeoneIsGivenExactlyWhen | src/lib/transactions/job-lease.service.ts:70-96 | a worker goes away with a job exactly when one of its type waits or was abandoned |
| OutboxTiming.EveryHandlerGetsOneJob | src/workers/outbox-relay.ts:84-117 | a fan-out gives every handler registered for type and version exactly one job and nobody else any; without any the event is dead-lettered |
| OutboxTiming.NewJobIsGivenAtOnce | src/workers/outbox-relay.ts:99-115 | a new job is given exactly from the fan-out on |
| OutboxTiming.NewJobHasNotFailed | src/workers/outbox-relay.ts:108-110 | a new job has its handler's attempts and backoff, or three attempts, one second and factor two, and no failures |
| OutboxTiming.StepOnFailedTimes | src/lib/transactions/job-lease.service.ts:252-289 | only its own failures and replays change how often a job has failed |
| OutboxTiming.ConfiguredRetries | src/lib/transactions/job-lease.service.ts:252-289 | after the n-th failure of a handler's job it is given exactly base * factor^n later, as long as n is below the configured attempts, and otherwise never |
| OutboxTiming.DefaultRetries | src/workers/outbox-relay.ts:108-110 | by default that is two seconds after the first failure, four after the second, and never after the third |
| OutboxTiming.ReplayedIsGivenAtOnce | src/workers/outbox-relay.ts:201-219 | a replayed job is given exactly from the replay on, with all its attempts |
| OutboxService.OutboxStore.LeaseNext | src/lib/transactions/job-lease.service.ts:62-140 | leases the oldest ready job, else the abandoned job whose lease ran out first, and nothing exactly when there is neither |
| OutboxService.OutboxStore.Complete | src/lib/transactions/job-lease.service.ts:156-208 | succeeds exactly for the current token and an unused idempotency key, and publishes the event when it was the last open job |
| OutboxService.OutboxStore.Fail | src/lib/transactions/job-lease.service.ts:228-291 | succeeds exactly for the current token and takes the retry or dead-letter step |
| OutboxService.OutboxStore.Recover | src/lib/transactions/job-lease.service.ts:301-317 | exactly the jobs whose lease has run out become pending again |
| OutboxService.OutboxStore.Replay | src/workers/outbox-relay.ts:201-219 | for any event that exists, resets exactly its dead-lettered jobs and makes the event pending; for another it changes nothing and fails |
| OutboxSafety.ReplayAgreesExactlyWhenUnpublished | src/workers/outbox-relay.ts:201-219 | after replaying an event, events agree with their jobs exactly when it was not PUBLISHED |
| OutboxService.OutboxStore.MaterializePending | src/workers/outbox-relay.ts:66-124 | fans out pending events without jobs, one materializing step each, in ascending order and passing none over, and leaves none unless the batch is full |
| OutboxService.OutboxStore.FanOut | src/workers/outbox-relay.ts:84-121 | takes exactly the materializing step of one event and leaves every other as much in need of it as before |
| OutboxService.OutboxStore.DispatchOne | src/workers/outbox-relay.ts:146-199 | a dispatch is a run of protocol steps that records an outcome, and is idle, changing nothing, exactly when nothing of the type can be leased |
| OutboxService.OutboxStore.Drain | src/workers/outbox-relay.ts:133-140 | stops short of the batch only when nothing is left to lease, and uses up work with every dispatch |
| OutboxService.OutboxStore.DispatchLeasable | src/workers/outbox-relay.ts:126-144 | all queues together dispatch no more than the work there was |
| OutboxService.OutboxStore.RegisterHandler | src/lib/transactions/handler-registry.ts:41-56 | registers exactly a new name with a known event type and refuses in the order of the checks |
| QueueLease.DrainsAreExclusive | src/lib/transactions/job-lease.service.ts:319-387 | across any number of runners two never drain one queue at once while every renewal lands before the deadline it extends |
| QueueLease.TakeoverExactlyWhenLate | src/lib/transactions/job-lease.service.ts:343-344 | a second drain can stand beside a first exactly when the first one's deadline has passed |
| QueueLease.DisplacedRunnerChangesNothing | src/lib/transactions/job-lease.service.ts:359-387 | once displaced, a runner's renewals and releases change nothing at any later time |
| QueueLease.AbandonedQueueIsFreed | src/lib/transactions/job-lease.service.ts:338-346 | once nobody alive holds a queue's row, the first acquire succeeds exactly when the lease left behind has run out, whatever happens on other queues |
| QueueLease.ReleasedQueueIsFree | src/lib/transactions/job-lease.service.ts:374-387 | a run that has drained its queue and releases it leaves it to the next acquire at once |
| QueueLease.HeartbeatBelowLease | src/workers/scheduled-job-runner.ts:154-160 | the heartbeat is strictly below the lease exactly for leases above one second |
| QueueLease.LostRenewal | src/workers/scheduled-job-runner.ts:154-160 | two heartbeats fit into a lease exactly for odd leases of at least 2001 ms, so one lost renewal loses nearly every lease |
| QueueLease.PunctualExactlyWhenGapsShort | src/workers/scheduled-job-runner.ts:154-160 | a lone run stays punctual exactly when every gap between renewals is below the lease |
| QueueLease.JitterTolerated | src/workers/scheduled-job-runner.ts:154-160 | renewals may each be late by anything below lease minus heartbeat, for ever |
| QueueLease.LeaseTable.AcquireLease | src/lib/transactions/job-lease.service.ts:319-357 | takes the row exactly when it is free, with a fresh token and deadline |
| QueueLease.LeaseTable.RenewLease | src/lib/transactions/job-lease.service.ts:359-373 | extends the deadline exactly when the row still carries the token |
| QueueLease.LeaseTable.ReleaseLease | src/lib/transactions/job-lease.service.ts:375-387 | frees the row exactly when it still carries the token |
| QueueLease.LeaseTable.RunQueue | src/workers/scheduled-job-runner.ts:132-178 | a tick runs exactly when the queue is free, holds its row from each heartbeat to the next as long as the gaps are below the lease, and leaves the queue free |
| Scheduler.QueuesAreSingleChains | src/workers/scheduled-job-runner.ts:106-130 | as long as no restart overtakes old ticks, no queue has two timers or ticks, a runner at work has exactly one for each of its queues, and a stopping runner has no timer |
| Scheduler.RestartIsSafeExactlyWhenDrained | src/workers/scheduled-job-runner.ts:77-104 | restarting a stopped runner keeps one chain per queue exactly when no tick of its queues is under way |
| Scheduler.StopsWithTickUnderWay | src/workers/scheduled-job-runner.ts:86-102 | such a stop is reachable: the deadline passes during the first tick, and restarting then drives the queue twice |
| Scheduler.ScheduledJobRunner.StartRunner | src/workers/scheduled-job-runner.ts:48-65 | arms one timer per queue, and does nothing when already started |
| Scheduler.ScheduledJobRunner.TimerFires | src/workers/scheduled-job-runner.ts:114-119 | forgets the timer and starts a tick unless stopping |
| Scheduler.ScheduledJobRunner.TickFinishes | src/workers/scheduled-job-runner.ts:121-129 | forgets the tick and arms the next timer unless stopping |
| Scheduler.ScheduledJobRunner.BeginStop | src/workers/scheduled-job-runner.ts:77-84 | disarms every recorded timer once |
| Scheduler.ScheduledJobRunner.EndStop | src/workers/scheduled-job-runner.ts:86-103 | once ticks have settled or the deadline has passed the runner counts as stopped |
| RefreshTokenSafety.OneUsableTokenPerFamily | src/services/refresh-token.service.ts:186-220 | per family, ACTIVE tokens plus rotations that have claimed but not minted never exceed one, in every interleaving of rotations, logouts and logout-alls |
| RefreshTokenSafety.EachTokenRotatesOnce | src/services/refresh-token.service.ts:186-197 | each token yields `ok` at most once, however many calls present it |
| RefreshTokenSafety.StatusOnlyMovesForward | src/services/refresh-token.service.ts:186-190 | a token's status only moves ACTIVE, ROTATED, REVOKED |
| RefreshTokenSafety.ReuseRevokesTheSession | src/services/refresh-token.service.ts:163-168 | every `reuse` answer goes with a revoked session |
| RefreshTokenSafety.RevokedSessionNeverRotates | src/services/refresh-token.service.ts:178-180 | once a session is revoked no rotation that reads afterwards returns `ok`, even for a token minted later |
| RefreshTokenSafety.RevocationIsFinalExactlyWhenNoneInFlight | src/services/refresh-token.service.ts:186-220 | after a logout, a detected reuse or a logout-all, some continuation still returns `ok` for the session, and some leaves an ACTIVE token in it, exactly when a rotation of its family had claimed and not yet minted |
| RefreshTokenSafety.OkAfterRevocationExactlyWhenClaimed | src/services/refresh-token.service.ts:186-220 | in any revoked session some continuation returns `ok` exactly when a rotation has claimed its token or can still claim an ACTIVE one that it read before |
| RefreshTokenSafety.InFlightRotationStillMints | src/services/refresh-token.service.ts:205-220 | such a logout is reachable for every user and moment: a rotation already past its claim |
| RefreshTokenSafety.RotationsEndWithTheSession | src/services/refresh-token.service.ts:182-184 | no chain of rotations outlives the expiry fixed at login |
| RefreshTokenSafety.OkExactlyWhenUsable | src/services/refresh-token.service.ts:140-228 | an undisturbed call is told `ok` exactly for an ACTIVE, unexpired token of a live, unexpired session |
| RefreshTokenSafety.FirstTokenLivesItsTime | src/services/refresh-token.service.ts:76-118 | the first token of a session can be rotated exactly before issue plus time to live |
| RefreshTokenSafety.NextTokenLivesItsTime | src/services/refresh-token.service.ts:199-222 | after an `ok` at t0 the returned token can be rotated at t exactly when t is before t0 plus time to live and before the session's expiry |
| RefreshTokenSafety.RefusalIsTold | src/services/refresh-token.service.ts:160-184 | a refused call is told the first reason that applies, and nothing else happens |
| RefreshTokenSafety.LateClaimIsReuse | src/services/refresh-token.service.ts:186-197 | of two calls that found one token usable, the one that claims second goes on to revoke the family |
| RefreshTokenSafety.RevocationHitsOneFamily | src/services/refresh-token.service.ts:311-330 | a logout or detected reuse revokes one session and all tokens of its family and leaves every other row alone |
| RefreshTokenSafety.LogoutAllRevokesExactlyTheRead | src/services/refresh-token.service.ts:274-305 | a logout everywhere revokes exactly the sessions that it has read, and their tokens |
| RefreshTokenSafety.LoginDuringLogoutAllSurvives | src/services/refresh-token.service.ts:274-305 | a session that begins between the two steps of a logout everywhere stays open with a usable token |
| RefreshTokens.StepKeepsInv | src/services/refresh-token.service.ts:140-334 | every step of every call keeps the invariant and only moves rows forward |
| RefreshTokenSafety.RefreshTokenService.Rotate | src/services/refresh-token.service.ts:140-228 | undisturbed, returns `ok` exactly for an ACTIVE unexpired token of a live session and leaves one new ACTIVE token; a rotated token revokes session and family |
| RefreshTokenSafety.RefreshTokenService.IssueSession | src/services/refresh-token.service.ts:76-123 | session and first token appear in one step |
| RefreshTokenSafety.RefreshTokenService.RevokeByRefreshToken | src/services/refresh-token.service.ts:235-253 | a known token's session and family are revoked; an unknown one changes nothing |
| RefreshTokenSafety.RefreshTokenService.RevokeAllForUser | src/services/refresh-token.service.ts:274-305 | afterwards the user has no live session, and the count is the number there was |
| AccountDeletion.StepKeepsInv | src/services/account-lifecycle.service.ts:131-285 | every step of sweeps, users, crashes and late commits keeps the invariant, and writes a decided row only to complete it |
| AccountDeletionSafety.DeletionIsSafe | src/services/account-lifecycle.service.ts:180-201 | in every interleaving at most one sweep is between claim and outcome for a request, a user has at most one open request, and exactly the completed requests were finalized, each at most as often as it was tried |
| AccountDeletionSafety.DecidedIsFinal | src/services/account-lifecycle.service.ts:131-137 | a completed request is never written again; a cancelled or failed one neither, and is never finalized, as long as no late commit hits it |
| AccountDeletionSafety.DecidedIsFinalExactlyWhenNoneInTransit | src/services/account-lifecycle.service.ts:251-254 | a decided request stays as it is in every continuation exactly when it was completed or no transaction for it can still commit |
| AccountDeletionSafety.CancellationIsOverridden | src/services/account-lifecycle.service.ts:251-254 | such a request is reachable: reported as failed, cancelled by its user, then completed by the transaction after all |
| AccountDeletionSafety.FinalizedAgainExactlyWhenOpen | src/services/account-lifecycle.service.ts:219-260 | a completed request is never finalized again exactly when no transaction for it is in transit and no sweep waits for one |
| AccountDeletionSafety.FinalizedOnceButForLateCommits | src/services/account-lifecycle.service.ts:180-201 | in any run the finalizations of a request are at most one more than its late commits, so at most one without any |
| AccountDeletionSafety.CommittedFinalizationStands | src/services/account-lifecycle.service.ts:265-285 | after a finalization takes effect no lost reply, failure report or other party can undo it |
| AccountDeletionSafety.ProcessingEndsExactlyWhenHeld | src/services/account-lifecycle.service.ts:169-203 | a request being processed can leave that state exactly when some live sweep still holds it or a transaction that was given up can still commit |
| AccountDeletionSafety.CrashOrphans | src/services/account-lifecycle.service.ts:180-201 | such a request is reachable: a sweep that dies right after its claim leaves one in processing for good |
| AccountDeletionSafety.AbandonedExactlyWhenSpent | src/services/account-lifecycle.service.ts:171-178 | a waiting request can be claimed again exactly while its attempt count is below five or a live sweep has it on its list |
| AccountDeletionSafety.OverlappingSweepsSpendAttempts | src/services/account-lifecycle.service.ts:265-285 | of sweeps that listed a request before any tried it and whose finalizations fail, each try counts whatever count was read, and the request fails exactly when one of the stale counts says that its try is the last |
| AccountDeletionSafety.OverlapAbandons | src/services/account-lifecycle.service.ts:265-285 | n sweeps that list a new request before any tries it leave it waiting after n attempts, and from five on it is never claimed |
| AccountDeletionSafety.SerialSweepsNeverAbandon | src/services/account-lifecycle.service.ts:265-285 | when sweeps do not overlap, a waiting request always has attempts left and a failed one made exactly five |
| AccountDeletionTiming.CoolingOffIsKept | src/services/account-lifecycle.service.ts:171-178 | in every reachable state a request that is processing, completed or failed is past the end of its cooling-off period |
| AccountDeletionTiming.NotBeforeCoolingOff | src/services/account-lifecycle.service.ts:82-96 | in every continuation of a request made at t0 it is neither claimed nor finalized before t0 plus the cooling-off period |
| AccountDeletionTiming.UntriedIsListedExactlyFrom | src/services/account-lifecycle.service.ts:171-178 | an untried waiting request is listed exactly from the end of that period on |
| AccountDeletionTiming.OnlyWaitingIsListed | src/services/account-lifecycle.service.ts:171-178 | nothing but waiting requests is listed |
| AccountDeletionTiming.RetriedExactlyAfterBackoff | src/services/account-lifecycle.service.ts:265-285 | after a failure reported at t with the stale count n the request is listed exactly from t + 5^n minutes on, unless that count or its own says that the attempts are used up |
| AccountDeletionTiming.CancelsOwnWaitingRequests | src/services/account-lifecycle.service.ts:131-137 | a cancellation hits exactly the waiting requests of its user |
| AccountLifecycle.AccountLifecycleService.RequestDeletion | src/services/account-lifecycle.service.ts:70-122 | creates a request exactly when the user has none open, and otherwise names an open one |
| AccountLifecycle.AccountLifecycleService.CancelDeletion | src/services/account-lifecycle.service.ts:131-162 | cancels exactly the waiting requests of the user; otherwise says `finalized` exactly when the latest one is processing or completed |
| AccountLifecycle.AccountLifecycleService.ListDue | src/services/account-lifecycle.service.ts:170-178 | lists exactly the due requests, each once |
| AccountLifecycle.AccountLifecycleService.Claim | src/services/account-lifecycle.service.ts:180-192 | claims exactly a request that is still waiting |
| AccountLifecycle.AccountLifecycleService.HandleFinalizationFailure | src/services/account-lifecycle.service.ts:265-285 | takes exactly the guarded failure step with the backoff of the count that was read |
| AccountLifecycle.AccountLifecycleService.ProcessDue | src/services/account-lifecycle.service.ts:169-203 | an undisturbed sweep is one run of the protocol and makes of every due request what its own reply says, and of no other request anything |
| AccountLifecycle.SweepOutcome | src/services/account-lifecycle.service.ts:169-203 | an undisturbed sweep completes what took effect, fails the fifth failure, puts the others off by 5^n minutes, and touches no request inside its period, backoff or after five attempts |
| Ledger.BalanceIsConserved | src/services/reward.service.ts:298-329 | for any overlap of withdrawals and claims, available plus pending plus withdrawn is what was earned, and the fall-back to zero is never taken |
| Ledger.WithdrawnNeverExceedsEarned | src/services/reward.service.ts:384-435 | in the ledger no user's completed withdrawals ever exceed what was earned, and the balance offered is never negative |
| Ledger.LifetimeNeverDecreases | src/services/reward.service.ts:322-328 | lifetime earnings never decrease |
| Ledger.WithdrawalSettles | src/services/reward.service.ts:410-434 | a failed withdrawal restores every balance; a paid one moves exactly its amount from available to withdrawn |
| Ledger.WithdrawableExactly | src/services/reward.service.ts:384-408 | in every reachable state a withdrawal is accepted exactly if positive and at most earned minus withdrawn minus reserved |
| Ledger.ClaimEarns | src/services/reward.service.ts:212-231 | a paid claim raises available and lifetime of its user by its total, and of nobody else |
| Ledger.PendingWithdrawalsKeepCompleted | src/services/reward.service.ts:408-432 | the record of pending withdrawals lists exactly those that did not fail |
| Ledger.PaidAtMostOnceExactlyWhen | src/services/reward.service.ts:194-231 | from any reachable state, in all continuations in which no claim for the pair starts while another is in flight: it is paid at most once exactly when its rewards and the claims in flight are together at most one |
| Ledger.ClaimIsSafeExactlyWhenAlone | src/services/reward.service.ts:194-231 | a claim that passed the check is paid at most once, in those continuations, exactly when no other claim for the pair was in flight |
| Ledger.NeverPaidTwiceExactlyWhen | src/services/reward.service.ts:194-231 | in all continuations without exception the pair is paid at most once exactly when it has been rewarded once and no claim is in flight |
| Ledger.NewOverlapPaysTwice | src/services/reward.service.ts:194-231 | two claims for a pair that is not marked that start now and overlap are both paid |
| Ledger.TwoInFlightPayTwice | src/services/reward.service.ts:194-231 | any two claims in flight for one pair can both be paid |
| Ledger.ClaimedMeansRewarded | src/services/reward.service.ts:487-492 | the record of claims lists exactly the pairs that were rewarded |
| Ledger.RewardService.ReadBalance | src/services/reward.service.ts:298-329 | the three filtered sums and the balance made of them |
| Ledger.RewardService.BeginWithdrawal | src/services/reward.service.ts:384-408 | reserves the amount exactly when it is positive and available; a refusal changes nothing |
| Ledger.RewardService.FinishWithdrawal | src/services/reward.service.ts:410-435 | settles exactly its own transaction |
| Ledger.RewardService.BeginClaim | src/services/reward.service.ts:194-209 | a claim goes on to its payment exactly when the pair is not marked |
| Ledger.RewardService.FinishClaim | src/services/reward.service.ts:212-231 | a paid claim is marked and recorded as one reward; an unpaid one leaves nothing |
| Ledger.RewardService.UpdateTransactionStatus | src/services/reward.service.ts:503-518 | changes the status of exactly the transaction with that id, if there is one |
| Money.PrintThenParse | src/utils/money.ts:52-92 | printing succeeds exactly in range, yields the canonical spelling, and parsing it gives the amount back |
| Money.CanonicalRoundTrip | src/utils/money.ts:52-92 | a canonical string survives parsing and printing |
| Money.ParseThenPrint | src/utils/money.ts:52-92 | printing what was parsed yields the one canonical spelling of the same amount |
| Money.ParseIsExact | src/utils/money.ts:70-92 | an accepted `w.f`, blanks around it ignored, is exactly w * 10^7 + f * 10^(7 - length of f), or out of range |
| Money.WellFormedIsGrammar | src/utils/money.ts:71 | the scanner accepts exactly the strings of the grammar |
| Money.ParseRejectsTheRest | src/utils/money.ts:71-76 | a string is rejected as malformed exactly when no decomposition spells it |
| Money.MultiplyRoundsDown | src/utils/money.ts:173-186 | a non-negative rational multiple is rounded down and rejected exactly above the ceiling |
| Money.MultiplyTruncates | src/utils/money.ts:173-186 | for any signs the quotient is truncated toward zero, and only a zero divisor is answered as such |
| Money.ClampIsNearest | src/utils/money.ts:191-196 | clamping yields the nearest amount in range |
| Rewards.StreakBonusIsCapped | src/services/reward.service.ts:454-473 | the streak bonus is min(base, floor(base * d / 10)) exactly as long as the uncapped product is in range |
| Rewards.StreakBonusGrows | src/services/reward.service.ts:454-473 | the bonus never falls with the streak, and reaches the base exactly from day 10 on |
| Rewards.BaseRewardRoundsDown | src/services/reward.service.ts:448-452 | the base is floor(reward * num / den) for every tier |
| Rewards.TiersPay | src/services/reward.service.ts:73-81 | the tiers pay once, one and a half times, twice and three times the module's reward |
| Rewards.ReferralAddsTwoXlm | src/services/reward.service.ts:161-188 | a referral adds exactly two XLM |
| Rewards.RewardIsBounded | src/services/reward.service.ts:161-188 | a reward is the sum of its parts and at most twice the base plus 2 XLM |
| Rewards.RewardSucceedsExactlyInRange | src/services/reward.service.ts:161-188 | a reward is computed exactly when no intermediate result leaves the range |
| OfflineSyncSafety.BatchIsJoin | src/controllers/sync.controller.ts:199-277 | after a batch each score is the least upper bound of the score before and of the events that count; other users' scores stay |
| OfflineSyncSafety.BatchKeys | src/controllers/sync.controller.ts:218-274 | afterwards exactly the keys known before and those of accepted events are recorded |
| OfflineSyncSafety.ResendingChangesNothing | src/controllers/sync.controller.ts:218-222 | sending any part of a batch again leaves the store as it is |
| OfflineSyncSafety.SameEventsSameScores | src/controllers/sync.controller.ts:199-277 | order and repetition do not matter as long as events that share a key agree |
| OfflineSyncSafety.SharedKeyFirstWins | src/controllers/sync.controller.ts:218-222 | of two new events with one key only the first counts, so their order matters exactly when they would write different scores |
| OfflineSyncSafety.OverlapKeepsJoinExactlyWhen | src/controllers/sync.controller.ts:230-256 | two requests that update one score at the same time keep the join exactly when the event written last is not the lower of two that both raise the score |
| OfflineSyncSafety.ResendAfterCrash | src/controllers/sync.controller.ts:253-274 | wherever a crash falls, even between score and record, sending the batch again gives the scores and keys of an undisturbed one |
| OfflineSyncSafety.RefusedFor | src/controllers/sync.controller.ts:204-217 | an event passes the checks exactly if all fields are there, the amount is within 0 and 100 and the time is readable; the first failed check is the reason |
| OfflineSyncSafety.CompletionAnswers | src/controllers/sync.controller.ts:204-277 | `applied` exactly when a score changed, `rejected` exactly for a badly made event or an unknown module, else `skipped`; rejected and repeated events change nothing |
| OfflineSyncSafety.CompletionIsRecorded | src/controllers/sync.controller.ts:236-274 | a new completion is recorded once, under its key, with the status that is answered |
| OfflineSyncSafety.ProgressAnswers | src/controllers/sync.controller.ts:90-137 | `applied` exactly when recorded, `rejected` exactly for a badly made event, else `skipped` as repeated or stale |
| OfflineSyncSafety.ProgressIsRecorded | src/controllers/sync.controller.ts:124-135 | what is recorded of progress that was applied |
| OfflineSyncSafety.AnswersAreInOrder | src/controllers/sync.controller.ts:86-140 | one answer for each event, in order, given in the state that the events before it left |
| OfflineSyncSafety.CharsAreQuoted | src/controllers/sync.controller.ts:130 | how JSON quotes each character of a module name |
| OfflineSyncSafety.NeverBackExactlyWhenFound | src/controllers/sync.controller.ts:114-122 | over every history the versions applied for a module never decrease exactly when its name occurs in what its payloads begin with |
| OfflineSyncSafety.FoundInEveryPayload | src/controllers/sync.controller.ts:130 | that a name occurs in what its payloads begin with means that it occurs in all of them, whatever number follows; 0 and 1 decide it |
| OfflineSyncSafety.StaleMeansOwnExactlyWhen | src/controllers/sync.controller.ts:114-122 | for any set of modules in use: over all histories on them, staleness for a module means that the module itself is further on exactly when its name occurs in what its own payloads begin with and in no payload of another module in use |
| OfflineSyncSafety.PlainFindsItself | src/controllers/sync.controller.ts:130 | a name without quotes, backslashes and control characters occurs in its payloads |
| OfflineSyncSafety.ControlNameGoesBack | src/controllers/sync.controller.ts:130 | a name with a control character does not, and some history takes it back |
| OfflineSyncSafety.WhatHides | src/controllers/sync.controller.ts:114-122 | a name is found in another module's payload if it occurs in that module's name, in the text that every payload has, or in a printed number |
| OfflineSyncSafety.StaleMeansOwnModule | src/controllers/sync.controller.ts:114-122 | with plain names of one length above 15 and above that of every number, as UUIDs are, an event is stale in every history exactly when a newer version was applied for its own module |
| OfflineSync.SyncController.SyncCompletions | src/controllers/sync.controller.ts:188-280 | the loop has exactly the effect and the per-event outcomes of the batch function, and refuses an empty batch |
| OfflineSync.SyncController.SyncProgress | src/controllers/sync.controller.ts:78-141 | the same for progress |
| OfflineSync.SyncController.LatestFor | src/controllers/sync.controller.ts:114-117 | the greatest version among the events found, and none exactly when none is found |
| Archive.FilteredReadsAreTheLivePart | src/audit/archive.ts:100-120 | a list or aggregate read of the five archivable models returns exactly the live ones of the caller's rows, in order, unless list items and combinators of the clause lead to a key `archivedAt` |
| Archive.MentionedExactlyWhenLedTo | src/audit/archive.ts:61-81 | the search for an opinion finds one exactly when some chain of list items and of AND, OR and NOT entries leads to an object with the key |
| Archive.SearchIsFiltered | src/controllers/module.controller.ts:98-110 | a search over several columns is no opinion: it returns live modules only |
| Archive.UnmentionedIsIrrelevant | src/audit/archive.ts:61-81 | through any nesting of AND, OR and NOT, a clause that does not mention `archivedAt` cannot tell an archived row from a live one |
| Archive.UntouchedExactlyWhen | src/audit/archive.ts:106-114 | a query is left alone exactly when it is not such a read or such a chain exists |
| Archive.RewritingTwiceIsOnce | src/audit/archive.ts:100-120 | rewriting twice equals rewriting once |
| Archive.OtherArgumentsSurvive | src/audit/archive.ts:116-119 | every other argument arrives as it was |
| Archive.ArchivingHidesAndRestoringReturns | src/audit/archive.ts:116-119 | a row that the clause selects is hidden while archived and back once restored |
| Archive.ExplicitFormsAreKept | src/audit/archive.ts:147-170 | active-only, archived-only and opted-out clauses pass through every filtered read unchanged |
| Archive.ActiveAndArchivedPartition | src/audit/archive.ts:147-170 | active-only and archived-only split what the opted-out clause selects |
| RateLimiter.SlidingBound | src/middleware/rate-limit.middleware.ts:35-70 | for any monotone trace every closed interval as long as the window admits at most 2 * max - 1 requests |
| RateLimiter.SlidingBoundIsReached | src/middleware/rate-limit.middleware.ts:40-46 | for every maximum and every positive window some monotone trace admits that many |
| RateLimiter.WindowAdmitsTheFirst | src/middleware/rate-limit.middleware.ts:40-46 | within one counter window exactly the first max requests are let through |
| RateLimiter.EveryRequestCounts | src/middleware/rate-limit.middleware.ts:36-60 | a running counter counts every request and keeps its end; a new one starts at one and is kept only if it admits |
| RateLimiter.KeysAreIndependent | src/middleware/rate-limit.middleware.ts:36-38 | what a client and route get depends on their own requests alone |
| RateLimiter.EveryKeyIsBounded | src/middleware/rate-limit.middleware.ts:35-70 | the bound holds for every key of a shared store |
| RateLimiter.Limiter.Check | src/middleware/rate-limit.middleware.ts:35-70 | one request: a stored counter also counts refused requests, a new counter is stored only if it admits |
| ImageDimensions.ParseJpegDimensions | src/services/storage/in-memory-storage.ts:120-160 | on any bytes the loop ends with every read in bounds and returns what the segment walk defines |
| ImageDimensions.WalkFindsExactlyTheFrame | src/services/storage/in-memory-storage.ts:120-160 | a size is reported exactly when a chain of segments leads from the third byte to a frame header of that size |
| ImageDimensions.WellFormedJpegIsMeasured | src/services/storage/in-memory-storage.ts:128-156 | any list of length-carrying segments followed by a frame header has the header's samples as width and lines as height |
| ImageDimensions.FillByteIsNotSkipped | src/services/storage/in-memory-storage.ts:152-156 | behind any well-formed segments, with any number of fill bytes before the frame, the header's size is reported exactly when the place where the walk lands instead begins a chain to a frame of that size |
| ImageDimensions.FilledShortFileIsUnmeasured | src/services/storage/in-memory-storage.ts:152-156 | with at most 48 KiB from the first fill byte on, no size is reported |
| ImageDimensions.StandaloneMarkerIsNotSkipped | src/services/storage/in-memory-storage.ts:152-156 | the same condition for a marker that stands alone behind any well-formed segments |
| ImageDimensions.PngIsMeasured | src/services/storage/in-memory-storage.ts:91-97 | a PNG has the size of its header, up to the full 32 bits |
| ImageDimensions.GifIsMeasured | src/services/storage/in-memory-storage.ts:99-105 | a GIF of either version has the size of its logical screen, low byte first |
| ImageDimensions.RiffIsWebp | src/services/storage/in-memory-storage.ts:112-115 | a RIFF file goes to the WebP reader exactly when its form is WEBP |
| ImageDimensions.OthersAreUnmeasured | src/services/storage/in-memory-storage.ts:86-118 | nothing shorter than 24 bytes or beginning otherwise has a size |
| ImageDimensions.JpegIsNoOther | src/services/storage/in-memory-storage.ts:99-110 | what begins as a JPEG is measured by the JPEG walk |

## Left out

- WalletSafety.ProvisioningIsSafe: takes the key store as one idempotent step, as src/services/kms/kms-secret-store.ts:37-39 demands of implementations; when the in-memory one is that is the subject of `kms_store.dfy`.  Encryption is not modelled.
- Self-custody export and the statuses EXPORTING, MIGRATED and DISABLED: no operation modelled here leads to them; the transition map has their edges.
- `leaseJob` reads and then updates inside one transaction and is one step here; what a weaker isolation level lets two such transactions do is not modelled.
- `markRolledBack`, `markPublished` and `markDeadLetter` of the outbox service write a status unconditionally, outside the relay's protocol.
- OutboxService.OutboxStore.Replay: one step; what others do in the gaps between its writes is not modelled.
- The registry's `clear` and `describe`, and the order in which names are visited.
- The account status of a user who changes the address: the refusal for a deleted account is not modelled, so more changes happen here than in the code.
- The user row during deletion, but for its address: the status written after a cancellation is a separate late write, and what else a finalization deletes or scrubs is one opaque step.
- Timestamps are whole milliseconds; a fractional backoff delay is rounded down where the source truncates it into a date.
- Ledger.WithdrawnNeverExceedsEarned: about ledger entries; a payment whose reply is lost after the money moved is recorded as failed, as in the code, and its amount can be withdrawn again.
- How JSON prints numbers: a parameter of which only the spellings of 0 and 1 and the characters are used.
- Streak lengths that are not whole numbers, float conversion of legacy amounts, and transaction history paging.
- Wildcards of the database's `LIKE` in module names, and two sync requests that overlap on one key or both create a row: the unique indexes make one of them fail.
- The rate limiter's per-request store used under the test environment, and the key's derivation from headers.
- WebP headers are a parameter.
- Queue leases with a length of zero or less, which configuration never yields.
- HTTP, validation schemas, logging, metrics, JWTs, password hashing, e-mail, push and SMS: no shared state worth a proof.
