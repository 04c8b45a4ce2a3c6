/** When a provisioning job can be claimed again: after a claim, a failure, a request and a completion. */
module WalletTiming {
  import opened Wrappers
  import opened WalletRepository
  import opened WalletProtocol
  import opened WalletSafety
  import opened WalletRows

  /** A claim of `w` at `t` succeeds: whatever the lease, a call comes to hold the row with a new token. */
  ghost predicate Succeeds(db: Db, w: WalletId, t: int) {
    exists leaseMs :: ClaimsFor(db, w, t, leaseMs)
  }

  ghost predicate ClaimsFor(db: Db, w: WalletId, t: int, leaseMs: int) {
    CanClaim(db, w, t) && HoldsLease(ClaimTx(db, w, t, leaseMs).jobs[w], db.nextToken)
  }

  lemma SucceedsMeans(db: Db, w: WalletId, t: int)
    ensures Succeeds(db, w, t) <==> CanClaim(db, w, t)
  {
    if CanClaim(db, w, t) { assert ClaimsFor(db, w, t, 0); }
  }

  /** The wallet's rows have not been written since they were as in `before`. */
  predicate Untouched(before: Db, after: Db, w: WalletId) {
    w in before.jobs && w in after.jobs && after.jobs[w] == before.jobs[w] && w in after.wallets
  }

  /** While a lease runs nobody else gets the job, and once it has run out anybody does. */
  lemma ClaimedAgainExactlyWhenLeaseRanOut(db: Db, w: WalletId, at: int, leaseMs: int, later: Db, t: int)
    requires CanClaim(db, w, at) && Untouched(ClaimTx(db, w, at, leaseMs), later, w)
    ensures Succeeds(later, w, t) <==> at + leaseMs < t
  {
    SucceedsMeans(later, w, t);
  }

  /** A failure with a retry keeps everybody away until the retry is due; a terminal one for good. */
  lemma RetriedExactlyWhenDue(
    db: Db, w: WalletId, token: Token, code: FailureCode, retryAt: Option<int>, now: int, later: Db, t: int)
    requires w in db.jobs && w in db.wallets && HoldsLease(db.jobs[w], token)
    requires Untouched(RecordFailureTx(db, w, token, code, retryAt, now), later, w)
    ensures Succeeds(later, w, t) <==> retryAt.Some? && retryAt.value <= t
  {
    SucceedsMeans(later, w, t);
  }

  /** A request makes the wallet's job claimable from that moment on, unless the wallet is ACTIVE already. */
  lemma RequestedExactlyFromThen(db: Db, u: UserId, network: string, at: int, later: Db, w: WalletId, t: int)
    requires TablesValid(db) && AssertEligible(db.users, u) == Eligible
    requires var after := ReserveTx(db, u, network, at);
      w in after.wallets && after.wallets[w].userId == u && Untouched(after, later, w)
    ensures Succeeds(later, w, t) <==> !(w in db.wallets && db.wallets[w].status.Active?) && at <= t
  {
    SucceedsMeans(later, w, t);
    var found := FindByUser(db.wallets, u);
    if w in db.wallets {
      assert Coupled(db.wallets[w], db.jobs[w]);
      assert found == Some(w) || db.wallets[w].userId != u;
    }
  }

  /** A finalized job is never claimed again. */
  lemma FinalizedIsNeverClaimed(db: Db, w: WalletId, token: Token, m: StoredKey, now: int, later: Db, t: int)
    requires CompleteTx(db, w, token, m, now).Finalized?
    requires Untouched(CompleteTx(db, w, token, m, now).db, later, w)
    ensures !Succeeds(later, w, t)
  {
    SucceedsMeans(later, w, t);
  }

  // ----- the backoff -----

  /** Each claim is the next attempt, and its call knows which; it holds the row with a token of its own. */
  lemma ClaimIsNextAttempt(s: System, w: WalletId, now: int, leaseMs: int)
    requires CanClaim(s.db, w, now)
    ensures var t := Apply(s, ClaimJob(w, now, leaseMs)); var c := s.nextCall;
      && c in t.calls && t.calls[c].stage.Looking? && t.calls[c].claim.walletId == w
      && t.calls[c].claim.attempts == s.db.jobs[w].attempts + 1 == t.db.jobs[w].attempts
      && t.calls[c].claim.maxAttempts == s.db.jobs[w].maxAttempts
      && HoldsLease(t.db.jobs[w], t.calls[c].claim.token)
  {
  }

  /** A handler call that reports the failure of attempt `n` of at most `max`. */
  predicate ReportsAttempt(s: System, c: CallId, w: WalletId, n: nat, max: int) {
    && c in s.calls && s.calls[c].stage.Failing? && s.calls[c].claim.walletId == w
    && s.calls[c].claim.attempts == n && s.calls[c].claim.maxAttempts == max
    && w in s.db.jobs && w in s.db.wallets && HoldsLease(s.db.jobs[w], s.calls[c].claim.token)
  }

  function Doubled(baseMs: int, times: nat): int {
    if times == 0 then baseMs else 2 * Doubled(baseMs, times - 1)
  }

  lemma {:induction false} DoubledIsPow2(baseMs: int, n: nat)
    ensures Doubled(baseMs, n) == baseMs * Pow2(n)
  {
    if n > 0 { DoubledIsPow2(baseMs, n - 1); }
  }

  /**
   * The first failure is retried after the base delay and each further one after twice as long,
   * until the attempts are used up: then the job is not claimed again.
   */
  lemma BackoffDoubles(
    s: System, c: CallId, w: WalletId, n: nat, max: int, baseMs: int, failedAt: int, now: int, later: Db, t: int)
    requires ReportsAttempt(s, c, w, n, max)
    requires Untouched(Apply(s, RecordFailure(c, baseMs, failedAt, now, true)).db, later, w)
    ensures Succeeds(later, w, t) <==> n < max && failedAt + Doubled(baseMs, if n == 0 then 0 else n - 1) <= t
  {
    var claim, code := s.calls[c].claim, s.calls[c].stage.code;
    DoubledIsPow2(baseMs, if n == 0 then 0 else n - 1);
    hide Pow2, Doubled;
    RetriedExactlyWhenDue(s.db, w, claim.token, code, RetryAt(claim, baseMs, failedAt), now, later, t);
  }

  // ----- replies that are lost -----

  /** A store whose reply was lost has not happened yet, and can still happen when nobody waits for it any more. */
  lemma LostStoreStillArrives(s: System, c: CallId, provider: string, keyVersion: Option<string>)
    requires c in s.calls && s.calls[c].stage.Storing?
    ensures var w, p := s.calls[c].claim.walletId, s.calls[c].stage.publicKey;
      var lost := Apply(s, Store(c, provider, keyVersion, false));
      var arrived := Apply(Apply(lost, Crash(c)), Deliver(StoreRequest(w, p, provider, keyVersion)));
      && lost.kms == s.kms && c !in arrived.calls
      && w in arrived.kms && (w !in s.kms ==> arrived.kms[w].publicKey == p) && (w in s.kms ==> arrived.kms == s.kms)
  {
  }

  lemma LostCompletionIsSent(s: System, c: CallId, now: int)
    requires c in s.calls && s.calls[c].stage.Finalizing?
    ensures var u := Apply(Apply(s, Complete(c, now, false)), Crash(c)); var claim := s.calls[c].claim;
      && u.db == s.db && c !in u.calls
      && CompleteRequest(claim.walletId, claim.token, s.calls[c].stage.material, now) in u.transit
  {
    hide CompleteTx;
  }

  lemma DeliveredCompletion(s: System, w: WalletId, token: Token, m: StoredKey, now: int)
    requires CompleteRequest(w, token, m, now) in s.transit && CompleteTx(s.db, w, token, m, now).Finalized?
    ensures var t := Apply(s, Deliver(CompleteRequest(w, token, m, now)));
      t.db == CompleteTx(s.db, w, token, m, now).db && t.calls == s.calls
  {
    hide CompleteTx;
  }

  /** So can a finalization: it activates the wallet if its call still holds the lease by then. */
  lemma LostCompletionStillArrives(s: System, c: CallId, w: WalletId, now: int)
    requires Inv(s) && c in s.calls && w in s.kms && s.calls[c] == Call(s.calls[c].claim, Finalizing(s.kms[w]))
    requires s.calls[c].claim.walletId == w && w in s.db.wallets && !KeyIsAddressed(s, w)
    requires w in s.db.jobs && s.db.jobs[w].leaseToken == Some(s.calls[c].claim.token)
    ensures var lost := Apply(s, Complete(c, now, false));
      var request := CompleteRequest(w, s.calls[c].claim.token, s.kms[w], now);
      var arrived := Apply(Apply(lost, Crash(c)), Deliver(request));
      && lost.db == s.db && c !in arrived.calls
      && w in arrived.db.wallets && arrived.db.wallets[w].status.Active?
  {
    var token := s.calls[c].claim.token;
    CompletionAnswers(s, w, token, now);
    LostCompletionIsSent(s, c, now);
    UnansweredKeepsDb(s, c, now);
    hide Inv, Apply, CompleteTx, KeyIsAddressed;
    DeliveredCompletion(Apply(Apply(s, Complete(c, now, false)), Crash(c)), w, token, s.kms[w], now);
  }

  lemma UnansweredKeepsDb(s: System, c: CallId, now: int)
    ensures Apply(s, Complete(c, now, false)).db == s.db
  {
    hide CompleteTx;
  }

  /** A failure report that was lost still frees the job for a retry, or gives it up, under the same lease. */
  lemma LostFailureStillArrives(
    s: System, c: CallId, w: WalletId, n: nat, max: int, baseMs: int, failedAt: int, now: int)
    requires ReportsAttempt(s, c, w, n, max)
    ensures var code := s.calls[c].stage.code;
      var retryAt := if n < max then Some(failedAt + Doubled(baseMs, if n == 0 then 0 else n - 1)) else None;
      var lost := Apply(s, RecordFailure(c, baseMs, failedAt, now, false));
      var arrived := Apply(lost, Deliver(FailureRequest(w, s.calls[c].claim.token, code, retryAt, now)));
      && lost.db == s.db && c !in lost.calls
      && w in arrived.db.wallets && arrived.db.wallets[w].failureCode == Some(code)
      && (if n < max then arrived.db.wallets[w].status.Retryable? else arrived.db.wallets[w].status.Failed?)
  {
    DoubledIsPow2(baseMs, if n == 0 then 0 else n - 1);
    hide Pow2, Doubled;
  }
}
