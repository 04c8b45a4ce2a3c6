/**
 * The repository, the key store and the handler as objects that update their rows in place.  Each
 * method is proved to take exactly the step the protocol describes, so the theorems about runs
 * hold of these objects whatever order their methods are called in.
 */
module WalletService {
  import opened Wrappers
  import opened WalletRepository
  import opened WalletProtocol
  import opened WalletSafety

  /** `id` is claimable and occurs before every other claimable candidate. */
  ghost predicate IsFirstClaimable(db: Db, candidates: seq<WalletId>, id: WalletId, now: int) {
    CanClaim(db, id, now) &&
    exists i :: 0 <= i < |candidates| && candidates[i] == id && NoneClaimable(db, candidates[..i], now)
  }

  ghost predicate NoneClaimable(db: Db, candidates: seq<WalletId>, now: int) {
    forall j :: 0 <= j < |candidates| ==> !CanClaim(db, candidates[j], now)
  }

  datatype AddressResult = NotFound | Unchanged | Conflict | Updated

  class ProvisioningRepository {
    var users: map<UserId, User>
    var wallets: map<WalletId, Wallet>
    var jobs: map<WalletId, Job>
    var managedKeys: map<nat, ManagedKey>
    var audit: seq<AuditEntry>
    var nextWallet: WalletId
    var nextToken: Token

    ghost function Snapshot(): Db
      reads this
    {
      Db(users, wallets, jobs, managedKeys, audit, nextWallet, nextToken)
    }

    constructor ()
      ensures Snapshot() == Db(map[], map[], map[], map[], [], 0, 0)
    {
      users, wallets, jobs, managedKeys, audit := map[], map[], map[], map[], [];
      nextWallet, nextToken := 0, 0;
    }

    method ReserveEligibleWallet(u: UserId, network: string, now: int) returns (r: Result<WalletId, Eligibility>)
      requires UserIndexUnique(wallets)
      modifies this
      ensures Snapshot() == ReserveTx(old(Snapshot()), u, network, now)
      ensures r.Ok? <==> AssertEligible(old(users), u) == Eligible
      ensures r.Err? ==> r.error == AssertEligible(old(users), u)
      ensures r.Ok? ==> r.value in wallets && wallets[r.value].userId == u
      ensures r.Ok? && old(HasWallet(wallets, u)) ==> r.value in old(wallets)
    {
      var eligibility := AssertEligible(users, u);
      if eligibility != Eligible {
        return Err(eligibility);
      }
      var id := nextWallet;
      var isNew := true;
      var reopened := false;
      if w :| w in wallets && wallets[w].userId == u {
        id, isNew := w, false;
        assert FindByUser(wallets, u) == Some(w);
      } else {
        wallets := wallets[id := NewWallet(u, network, now)];
        nextWallet := nextWallet + 1;
      }
      if wallets[id].status.Failed? {
        reopened := true;
        wallets := wallets[id := wallets[id].(status := Reserved, failureCode := None, statusChangedAt := now)];
      }
      if !wallets[id].status.Active? {
        if id in jobs {
          jobs := jobs[id := jobs[id].(status := JobStatus.Pending, availableAt := now, leaseToken := None,
                                       leasedUntil := None, lastFailureCode := None, completedAt := None)];
        } else {
          jobs := jobs[id := NewJob(now)];
        }
      }
      if isNew || reopened {
        audit := audit + [AuditEntry(u, if isNew then ReservedLogged else RequeuedLogged, id)];
      }
      assert Snapshot().wallets == ReserveTx(old(Snapshot()), u, network, now).wallets;
      r := Ok(id);
    }

    /** One conditional update decides who gets the job; losing it leaves every row as it was. */
    method ClaimCandidate(id: WalletId, now: int, leaseMs: int) returns (r: Option<Claim>)
      modifies this
      ensures r.Some? <==> CanClaim(old(Snapshot()), id, now)
      ensures r.Some? ==> Snapshot() == ClaimTx(old(Snapshot()), id, now, leaseMs)
      ensures r.Some? ==> r.value == Claim(id, old(nextToken), jobs[id].attempts, jobs[id].maxAttempts)
      ensures r.None? ==> Snapshot() == old(Snapshot())
    {
      if id !in jobs || id !in wallets || !Claimable(jobs[id], now) {
        return None;
      }
      jobs := jobs[id := jobs[id].(status := Processing, leaseToken := Some(nextToken),
                                   leasedUntil := Some(now + leaseMs), attempts := jobs[id].attempts + 1)];
      wallets := wallets[id := wallets[id].(status := Provisioning, attemptCount := wallets[id].attemptCount + 1,
                                            statusChangedAt := now)];
      audit := audit + [AuditEntry(wallets[id].userId, AttemptedLogged, id)];
      r := Some(Claim(id, nextToken, jobs[id].attempts, jobs[id].maxAttempts));
      nextToken := nextToken + 1;
    }

    /**
     * Tries the candidates in order.  The list may be stale: a candidate that is no longer
     * claimable is passed over, and the first one that is gets claimed.
     */
    method ClaimNext(candidates: seq<WalletId>, now: int, leaseMs: int) returns (r: Option<Claim>)
      modifies this
      ensures r.None? ==> Snapshot() == old(Snapshot())
      ensures r.None? <==> NoneClaimable(old(Snapshot()), candidates, now)
      ensures r.Some? ==> IsFirstClaimable(old(Snapshot()), candidates, r.value.walletId, now)
      ensures r.Some? ==> Snapshot() == ClaimTx(old(Snapshot()), r.value.walletId, now, leaseMs)
    {
      r := None;
      for i := 0 to |candidates|
        invariant r.None? && Snapshot() == old(Snapshot())
        invariant NoneClaimable(old(Snapshot()), candidates[..i], now)
      {
        r := ClaimCandidate(candidates[i], now, leaseMs);
        if r.Some? {
          return;
        }
      }
      assert candidates[..|candidates|] == candidates;
    }

    method Complete(id: WalletId, token: Token, m: StoredKey, now: int) returns (r: Result<Wallet, CompleteOutcome>)
      modifies this
      ensures var o := CompleteTx(old(Snapshot()), id, token, m, now);
        && Snapshot() == (if o.Finalized? then o.db else old(Snapshot()))
        && (r.Ok? <==> o.Finalized? || o.AlreadyActive?)
        && (r.Err? ==> r.error == o)
      ensures r.Ok? ==> id in wallets && r.value == wallets[id] && r.value.status.Active?
    {
      if id !in jobs || id !in wallets {
        return Err(MissingRow);
      }
      var wallet := wallets[id];
      if wallet.status.Active? {
        return Ok(wallet);
      }
      if !jobs[id].status.Processing? || jobs[id].leaseToken != Some(token) {
        return Err(LeaseLost);
      }
      if wallet.userId !in users {
        return Err(MissingRow);
      }
      if (exists w :: w in wallets && w != id && HoldsKey(wallets[w], m))
         || (exists u :: u in users && u != wallet.userId && users[u].walletAddress == Some(m.publicKey)) {
        return Err(UniqueViolation);
      }
      managedKeys := managedKeys[m.opaqueReference := ManagedKey(m.provider, m.keyVersion)];
      wallets := wallets[id := wallet.(publicKey := Some(m.publicKey), managedKey := Some(m.opaqueReference),
                                       status := Active, failureCode := None, provisionedAt := Some(now),
                                       statusChangedAt := now)];
      users := users[wallet.userId := users[wallet.userId].(walletAddress := Some(m.publicKey))];
      jobs := jobs[id := jobs[id].(status := JobStatus.Completed, leaseToken := None, leasedUntil := None,
                                   lastFailureCode := None, completedAt := Some(now))];
      audit := audit + [AuditEntry(wallet.userId, CompletedLogged, id)];
      r := Ok(wallets[id]);
    }

    method RecordFailure(id: WalletId, token: Token, code: FailureCode, retryAt: Option<int>, now: int)
      modifies this
      ensures Snapshot() == RecordFailureTx(old(Snapshot()), id, token, code, retryAt, now)
    {
      if id !in jobs || id !in wallets || !jobs[id].status.Processing? || jobs[id].leaseToken != Some(token) {
        return;
      }
      var terminal := retryAt.None?;
      wallets := wallets[id := wallets[id].(status := if terminal then Failed else Retryable,
                                            failureCode := Some(code), statusChangedAt := now)];
      jobs := jobs[id := jobs[id].(status := if terminal then DeadLetter else JobStatus.Retry,
                                   availableAt := if retryAt.Some? then retryAt.value else now,
                                   leaseToken := None, leasedUntil := None, lastFailureCode := Some(code))];
      audit := audit + [AuditEntry(wallets[id].userId, if terminal then FailedLogged else RetryScheduledLogged, id)];
    }

    /** The change of address of the account service: it looks first, and the index decides. */
    method UpdateWalletAddress(u: UserId, p: PublicKey) returns (r: AddressResult)
      modifies this
      ensures r.NotFound? <==> u !in old(users)
      ensures r.Unchanged? <==> HasAddress(old(users), u, p)
      ensures r.Conflict? <==> u in old(users) && !HasAddress(old(users), u, p) && AddressTaken(old(users), u, p)
      ensures r.Updated? ==> users == old(users)[u := old(users)[u].(walletAddress := Some(p))]
      ensures Snapshot() == old(Snapshot()).(users := users) && (!r.Updated? ==> users == old(users))
    {
      if u !in users {
        return NotFound;
      }
      if users[u].walletAddress == Some(p) {
        return Unchanged;
      }
      if exists v :: v in users && v != u && users[v].walletAddress == Some(p) {
        return Conflict;
      }
      users := users[u := users[u].(walletAddress := Some(p))];
      r := Updated;
    }

    /** What the finalization of an account deletion does to the address. */
    method EraseWalletAddress(u: UserId)
      requires u in users
      modifies this
      ensures Snapshot() == old(Snapshot()).(users := old(users)[u := old(users)[u].(walletAddress := None)])
    {
      users := users[u := users[u].(walletAddress := None)];
    }

    method UpdateUser(u: UserId, isVerified: bool, latestConsent: Option<string>)
      modifies this
      ensures Snapshot() == WithUser(old(Snapshot()), u, isVerified, latestConsent)
    {
      var address := if u in users then users[u].walletAddress else None;
      users := users[u := User(isVerified, latestConsent, address)];
    }
  }

  /** The key store: one entry per idempotency key, never overwritten. */
  class EnvelopeKms {
    var entries: map<WalletId, StoredKey>
    var nextReference: nat
    ghost var log: seq<(WalletId, StoredKey)>

    constructor ()
      ensures entries == map[] && nextReference == 0 && log == []
    {
      entries, nextReference, log := map[], 0, [];
    }

    method FindByIdempotencyKey(w: WalletId) returns (r: Option<StoredKey>)
      ensures r == if w in entries then Some(entries[w]) else None
    {
      if w in entries {
        return Some(entries[w]);
      }
      return None;
    }

    method StoreStellarSecret(w: WalletId, p: PublicKey, provider: string, keyVersion: Option<string>)
      returns (m: StoredKey)
      modifies this
      ensures w in entries && m == entries[w]
      ensures w in old(entries) ==> entries == old(entries) && log == old(log) && nextReference == old(nextReference)
      ensures w !in old(entries) ==> m == StoredKey(provider, old(nextReference), keyVersion, p)
      ensures w !in old(entries) ==> entries == old(entries)[w := m] && log == old(log) + [(w, m)]
      ensures w !in old(entries) ==> nextReference == old(nextReference) + 1
    {
      if w in entries {
        return entries[w];
      }
      m := StoredKey(provider, nextReference, keyVersion, p);
      entries := entries[w := m];
      log := log + [(w, m)];
      nextReference := nextReference + 1;
    }
  }

  /** Which of a handler call's requests are answered, and with what clock readings. */
  datatype Environment = Environment(
    lookupReplied: bool, generated: bool, storeReplied: bool, repairReplied: bool,
    completeReplied: bool, failureReplied: bool, provider: string, keyVersion: Option<string>,
    baseRetryMs: int, now: int)

  /**
   * How an undisturbed call comes to a key: the stored one if there is one, else the one that it
   * generates and stores.  A store that did not answer has stored nothing that the repair finds.
   */
  function Material(s: System, w: WalletId, env: Environment): Stage {
    if !env.lookupReplied then Failing(KmsUnavailable)
    else if w in s.kms then Finalizing(s.kms[w])
    else if !env.generated then Failing(KeyGenerationFailed)
    else if env.storeReplied then Finalizing(StoredKey(env.provider, s.nextReference, env.keyVersion, s.nextKey))
    else Failing(KmsStoreUncertain)
  }

  ghost predicate Accepted(db: Db, call: Call, now: int)
    requires call.stage.Finalizing?
  {
    var o := CompleteTx(db, call.claim.walletId, call.claim.token, call.stage.material, now);
    o.Finalized? || o.AlreadyActive?
  }

  function FailureResult(call: Call, code: FailureCode): HandleResult {
    if call.claim.attempts >= call.claim.maxAttempts then DeadLetterResult(call.claim.walletId, code)
    else RetryScheduledResult(call.claim.walletId, code)
  }

  /** What a call reports that has come to a key or to a failure. */
  ghost function Ending(db: Db, call: Call, env: Environment): HandleResult {
    match call.stage
    case Finalizing(m) =>
      if env.completeReplied && Accepted(db, call, env.now) then CompletedResult(call.claim.walletId, m.publicKey)
      else FailureResult(call, DatabaseFinalizationFailed)
    case Failing(code) => FailureResult(call, code)
    case _ => FailureResult(call, DatabaseFinalizationFailed)
  }

  class ProvisioningHandler {
    const repository: ProvisioningRepository
    const kms: EnvelopeKms
    var calls: map<CallId, Call>
    var results: seq<HandleResult>
    var nextCall: CallId
    var nextKey: PublicKey
    var transit: set<Message>
    ghost var keyOwner: map<PublicKey, WalletId>

    ghost function View(): System
      reads this, repository, kms
    {
      System(repository.Snapshot(), kms.entries, kms.log, keyOwner, calls, transit, results,
             nextCall, nextKey, kms.nextReference)
    }

    constructor ()
      ensures fresh(repository) && fresh(kms) && View() == Initial()
    {
      repository := new ProvisioningRepository();
      kms := new EnvelopeKms();
      calls, results, nextCall, nextKey := map[], [], 0, 0;
      transit, keyOwner := {}, map[];
    }

    method Claim(w: WalletId, now: int, leaseMs: int) returns (c: Option<CallId>)
      modifies this, repository
      ensures View() == Apply(old(View()), ClaimJob(w, now, leaseMs))
      ensures c.Some? <==> CanClaim(old(repository.Snapshot()), w, now)
      ensures c.Some? ==> c.value in calls && calls[c.value].stage.Looking? && calls[c.value].claim.walletId == w
    {
      var claim := repository.ClaimCandidate(w, now, leaseMs);
      if claim.None? {
        return None;
      }
      calls := calls[nextCall := Call(claim.value, Looking)];
      c := Some(nextCall);
      nextCall := nextCall + 1;
    }

    method Goto(c: CallId, stage: Stage)
      requires c in calls
      modifies this
      ensures View() == SetStage(old(View()), c, stage)
    {
      calls := calls[c := calls[c].(stage := stage)];
    }

    method Report(c: CallId, r: HandleResult)
      modifies this
      ensures View() == Finish(old(View()), c, r)
    {
      calls := calls - {c};
      results := results + [r];
    }

    method LookUp(c: CallId, replied: bool)
      requires c in calls && calls[c].stage.Looking?
      modifies this
      ensures View() == Apply(old(View()), Lookup(c, replied))
      ensures c in calls && results == old(results) && nextKey == old(nextKey) && calls[c].claim == old(calls)[c].claim
      ensures var w := calls[c].claim.walletId;
        calls[c].stage == if !replied then Failing(KmsUnavailable)
                          else if w in kms.entries then Finalizing(kms.entries[w]) else Generating
    {
      if !replied {
        Goto(c, Failing(KmsUnavailable));
      } else {
        var material := kms.FindByIdempotencyKey(calls[c].claim.walletId);
        Goto(c, if material.Some? then Finalizing(material.value) else Generating);
      }
    }

    method GenerateKeypair(c: CallId, succeeded: bool)
      requires c in calls && calls[c].stage.Generating?
      modifies this
      ensures View() == Apply(old(View()), Generate(c, succeeded))
      ensures c in calls && results == old(results) && calls[c].claim == old(calls)[c].claim
      ensures calls[c].stage == if succeeded then Storing(old(nextKey)) else Failing(KeyGenerationFailed)
    {
      if !succeeded {
        Goto(c, Failing(KeyGenerationFailed));
      } else {
        keyOwner := keyOwner[nextKey := calls[c].claim.walletId];
        nextKey := nextKey + 1;
        Goto(c, Storing(nextKey - 1));
      }
    }

    method StoreKeypair(c: CallId, provider: string, keyVersion: Option<string>, replied: bool)
      requires c in calls && calls[c].stage.Storing?
      modifies this, kms
      ensures View() == Apply(old(View()), Store(c, provider, keyVersion, replied))
      ensures c in calls && results == old(results) && calls[c].claim == old(calls)[c].claim
      ensures var w, p := calls[c].claim.walletId, old(calls)[c].stage.publicKey;
        if !replied then calls[c].stage.Repairing? && kms.entries == old(kms.entries)
        else calls[c].stage == Finalizing(if w in old(kms.entries) then old(kms.entries)[w]
                                          else StoredKey(provider, old(kms.nextReference), keyVersion, p))
    {
      var w, p := calls[c].claim.walletId, calls[c].stage.publicKey;
      if replied {
        var material := kms.StoreStellarSecret(w, p, provider, keyVersion);
        Goto(c, Finalizing(material));
      } else {
        transit := transit + {StoreRequest(w, p, provider, keyVersion)};
        Goto(c, Repairing);
      }
    }

    method RepairLookup(c: CallId, replied: bool)
      requires c in calls && calls[c].stage.Repairing?
      modifies this
      ensures View() == Apply(old(View()), Repair(c, replied))
      ensures c in calls && results == old(results) && calls[c].claim == old(calls)[c].claim
      ensures var w := calls[c].claim.walletId;
        calls[c].stage == if replied && w in kms.entries then Finalizing(kms.entries[w]) else Failing(KmsStoreUncertain)
    {
      var material := None;
      if replied {
        material := kms.FindByIdempotencyKey(calls[c].claim.walletId);
      }
      Goto(c, if material.Some? then Finalizing(material.value) else Failing(KmsStoreUncertain));
    }

    method CompleteWallet(c: CallId, now: int, replied: bool)
      requires c in calls && calls[c].stage.Finalizing?
      modifies this, repository
      ensures View() == Apply(old(View()), WalletProtocol.Complete(c, now, replied))
      ensures c in calls ==> calls[c].stage == Failing(DatabaseFinalizationFailed) && results == old(results)
      ensures c in calls ==> calls[c].claim == old(calls)[c].claim
      ensures c in calls <==> !(replied && Accepted(old(repository.Snapshot()), old(calls)[c], now))
      ensures c !in calls ==>
        var call := old(calls)[c];
        results == old(results) + [CompletedResult(call.claim.walletId, call.stage.material.publicKey)]
    {
      hide CompleteTx;
      var claim, material := calls[c].claim, calls[c].stage.material;
      if !replied {
        transit := transit + {CompleteRequest(claim.walletId, claim.token, material, now)};
        Goto(c, Failing(DatabaseFinalizationFailed));
      } else {
        var wallet := repository.Complete(claim.walletId, claim.token, material, now);
        if wallet.Ok? {
          Report(c, CompletedResult(claim.walletId, material.publicKey));
        } else {
          Goto(c, Failing(DatabaseFinalizationFailed));
        }
      }
    }

    method Fail(c: CallId, baseRetryMs: int, failedAt: int, now: int, replied: bool)
      requires c in calls && calls[c].stage.Failing?
      modifies this, repository
      ensures View() == Apply(old(View()), WalletProtocol.RecordFailure(c, baseRetryMs, failedAt, now, replied))
      ensures c !in calls && results == old(results) + [FailureResult(old(calls)[c], old(calls)[c].stage.code)]
    {
      hide RecordFailureTx, Pow2;
      var claim, code := calls[c].claim, calls[c].stage.code;
      var retryAt := RetryAt(claim, baseRetryMs, failedAt);
      if replied {
        repository.RecordFailure(claim.walletId, claim.token, code, retryAt, now);
      } else {
        transit := transit + {FailureRequest(claim.walletId, claim.token, code, retryAt, now)};
      }
      Report(c, if retryAt.None? then DeadLetterResult(claim.walletId, code)
                else RetryScheduledResult(claim.walletId, code));
    }

    method DeliverMessage(m: Message)
      requires m in transit
      modifies this, repository, kms
      ensures View() == Apply(old(View()), Deliver(m))
      ensures calls == old(calls) && results == old(results)
    {
      hide CompleteTx, RecordFailureTx;
      match m
      case StoreRequest(w, p, provider, keyVersion) =>
        var _ := kms.StoreStellarSecret(w, p, provider, keyVersion);
      case CompleteRequest(w, token, material, now) =>
        var _ := repository.Complete(w, token, material, now);
      case FailureRequest(w, token, code, retryAt, now) =>
        repository.RecordFailure(w, token, code, retryAt, now);
    }

    method Abandon(c: CallId)
      modifies this
      ensures View() == Apply(old(View()), Crash(c))
    {
      calls := calls - {c};
    }

    /** Look the key up; generate and store one if there is none; look again if the store did not answer. */
    method ObtainMaterial(c: CallId, env: Environment) returns (ghost schedule: seq<Action>)
      requires c in calls && calls[c].stage.Looking?
      modifies this, kms
      ensures View() == Run(old(View()), schedule)
      ensures c in calls && results == old(results) && calls[c].claim == old(calls)[c].claim
      ensures calls[c].stage == Material(old(View()), old(calls)[c].claim.walletId, env)
      ensures repository.Snapshot() == old(repository.Snapshot())
    {
      hide Apply;
      ghost var start := View();
      schedule := [];
      RunSnoc(start, schedule, Lookup(c, env.lookupReplied));
      hide Run;
      LookUp(c, env.lookupReplied);
      schedule := schedule + [Lookup(c, env.lookupReplied)];
      if calls[c].stage.Generating? {
        RunSnoc(start, schedule, Generate(c, env.generated));
        GenerateKeypair(c, env.generated);
        schedule := schedule + [Generate(c, env.generated)];
      }
      if calls[c].stage.Storing? {
        RunSnoc(start, schedule, Store(c, env.provider, env.keyVersion, env.storeReplied));
        StoreKeypair(c, env.provider, env.keyVersion, env.storeReplied);
        schedule := schedule + [Store(c, env.provider, env.keyVersion, env.storeReplied)];
      }
      if calls[c].stage.Repairing? {
        RunSnoc(start, schedule, Repair(c, env.repairReplied));
        RepairLookup(c, env.repairReplied);
        schedule := schedule + [Repair(c, env.repairReplied)];
      }
    }

    /** Finalize with the key at hand, and record the failure of whichever stage failed. */
    method Conclude(c: CallId, env: Environment) returns (ghost schedule: seq<Action>)
      requires c in calls && (calls[c].stage.Finalizing? || calls[c].stage.Failing?)
      modifies this, repository
      ensures View() == Run(old(View()), schedule)
      ensures c !in calls && results == old(results) + [Ending(old(repository.Snapshot()), old(calls)[c], env)]
    {
      hide Apply;
      ghost var start := View();
      schedule := [];
      if calls[c].stage.Finalizing? {
        RunSnoc(start, schedule, WalletProtocol.Complete(c, env.now, env.completeReplied));
        CompleteWallet(c, env.now, env.completeReplied);
        schedule := [WalletProtocol.Complete(c, env.now, env.completeReplied)];
      }
      if c in calls {
        ghost var failure := WalletProtocol.RecordFailure(c, env.baseRetryMs, env.now, env.now, env.failureReplied);
        RunSnoc(start, schedule, failure);
        Fail(c, env.baseRetryMs, env.now, env.now, env.failureReplied);
        schedule := schedule + [failure];
      }
    }

    /**
     * One handler call from claim to result, as it runs undisturbed.  Whatever the environment
     * answers, the call takes only steps of the protocol, ends, and reports exactly one result: the
     * one that the answers and the rows determine.
     */
    method HandleClaimed(c: CallId, env: Environment) returns (ghost schedule: seq<Action>)
      requires c in calls && calls[c].stage.Looking?
      modifies this, repository, kms
      ensures View() == Run(old(View()), schedule)
      ensures var call := old(calls)[c]; var stage := Material(old(View()), call.claim.walletId, env);
        c !in calls && results == old(results) + [Ending(old(repository.Snapshot()), Call(call.claim, stage), env)]
    {
      hide Apply;
      ghost var start := View();
      schedule := ObtainMaterial(c, env);
      ghost var rest := Conclude(c, env);
      RunAppend(start, schedule, rest);
      schedule := schedule + rest;
    }

    /** Any interleaving at all, carried out on the objects; actions that are not enabled do nothing. */
    method Execute(schedule: seq<Action>)
      requires Inv(View())
      modifies this, repository, kms
      ensures View() == Run(old(View()), schedule)
      ensures Inv(View())
    {
      hide Apply, Inv;
      ghost var start := View();
      for i := 0 to |schedule|
        invariant View() == Run(start, schedule[..i])
        invariant Inv(View())
      {
        RunSnoc(start, schedule[..i], schedule[i]);
        assert schedule[..i + 1] == schedule[..i] + [schedule[i]];
        StepKeepsInv(View(), schedule[i]);
        Step(schedule[i]);
      }
      assert schedule[..|schedule|] == schedule;
    }

    method Register(u: UserId, isVerified: bool, latestConsent: Option<string>)
      modifies repository
      ensures View() == Apply(old(View()), SetUser(u, isVerified, latestConsent))
    {
      repository.UpdateUser(u, isVerified, latestConsent);
    }

    /** A refused change leaves everything as it was. */
    method ChangeAddress(u: UserId, address: Option<PublicKey>)
      requires AddressesValid(repository.users, nextKey)
      modifies this, repository
      ensures View() == Apply(old(View()), SetAddress(u, address))
    {
      if address.None? {
        if u in repository.users { repository.EraseWalletAddress(u); }
        return;
      }
      var r := repository.UpdateWalletAddress(u, address.value);
      if r.Updated? && address.value >= nextKey {
        nextKey := address.value + 1;
      }
    }

    method RequestWallet(u: UserId, network: string, now: int)
      requires UserIndexUnique(repository.wallets)
      modifies repository
      ensures View() == Apply(old(View()), Reserve(u, network, now))
    {
      hide ReserveTx;
      var _ := repository.ReserveEligibleWallet(u, network, now);
    }

    method Step(a: Action)
      requires Inv(View())
      modifies this, repository, kms
      ensures View() == Apply(old(View()), a)
    {
      hide Inv, Apply, RowsPaired, RowsKnown, TokensFresh, KeysAttached, AddressesValid;
      TablesAreValid(View());
      AddressesAreValid(View());
      DisabledStutters(View(), a);
      match a
      case SetUser(u, isVerified, latestConsent) => Register(u, isVerified, latestConsent);
      case SetAddress(u, address) => ChangeAddress(u, address);
      case Reserve(u, network, now) => RequestWallet(u, network, now);
      case ClaimJob(w, now, leaseMs) =>
        var _ := Claim(w, now, leaseMs);
      case Lookup(c, replied) =>
        if c in calls && calls[c].stage.Looking? { LookUp(c, replied); }
      case Generate(c, succeeded) =>
        if c in calls && calls[c].stage.Generating? { GenerateKeypair(c, succeeded); }
      case Store(c, provider, keyVersion, replied) =>
        if c in calls && calls[c].stage.Storing? { StoreKeypair(c, provider, keyVersion, replied); }
      case Repair(c, replied) =>
        if c in calls && calls[c].stage.Repairing? { RepairLookup(c, replied); }
      case Complete(c, now, replied) =>
        if c in calls && calls[c].stage.Finalizing? { CompleteWallet(c, now, replied); }
      case RecordFailure(c, baseRetryMs, failedAt, now, replied) =>
        if c in calls && calls[c].stage.Failing? { Fail(c, baseRetryMs, failedAt, now, replied); }
      case Deliver(m) =>
        if m in transit { DeliverMessage(m); }
      case Crash(c) =>
        if c in calls { Abandon(c); }
    }
  }

  lemma DisabledStutters(s: System, a: Action)
    ensures !Enabled(s, a) ==> Apply(s, a) == s
  {
  }

  lemma {:induction false} RunSnoc(s: System, actions: seq<Action>, a: Action)
    ensures Run(s, actions + [a]) == Apply(Run(s, actions), a)
    decreases |actions|
  {
    hide Apply;
    if actions == [] {
      assert Run(Apply(s, a), []) == Apply(s, a);
    } else {
      assert (actions + [a])[1..] == actions[1..] + [a];
      RunSnoc(Apply(s, actions[0]), actions[1..], a);
    }
  }

  lemma {:induction false} RunAppend(s: System, first: seq<Action>, rest: seq<Action>)
    ensures Run(s, first + rest) == Run(Run(s, first), rest)
    decreases |first|
  {
    hide Apply;
    if first == [] {
      assert first + rest == rest;
    } else {
      assert (first + rest)[1..] == first[1..] + rest;
      RunAppend(Apply(s, first[0]), first[1..], rest);
    }
  }
}
