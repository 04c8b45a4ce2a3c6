/** The wallet and provisioning-job tables, and the transactions that update them. */
module WalletRepository {
  import opened Wrappers

  type UserId = nat
  type WalletId = nat
  type Token = nat
  type PublicKey = nat

  datatype WalletStatus =
    | Reserved | Provisioning | Retryable | Active
    | Exporting | Migrated | Failed | Disabled

  datatype JobStatus = Pending | Processing | Retry | Completed | DeadLetter

  datatype FailureCode =
    | KeyGenerationFailed
    | KmsUnavailable
    | KmsStoreUncertain
    | DatabaseFinalizationFailed

  datatype StoredKey = StoredKey(
    provider: string, opaqueReference: nat, keyVersion: Option<string>, publicKey: PublicKey)

  datatype ManagedKey = ManagedKey(provider: string, keyVersion: Option<string>)

  datatype User = User(
    isVerified: bool, latestConsent: Option<string>, walletAddress: Option<PublicKey>)

  datatype Wallet = Wallet(
    userId: UserId,
    network: string,
    status: WalletStatus,
    publicKey: Option<PublicKey>,
    managedKey: Option<nat>,
    failureCode: Option<FailureCode>,
    attemptCount: nat,
    provisionedAt: Option<int>,
    statusChangedAt: int)

  datatype Job = Job(
    status: JobStatus,
    availableAt: int,
    leaseToken: Option<Token>,
    leasedUntil: Option<int>,
    attempts: nat,
    maxAttempts: int,
    lastFailureCode: Option<FailureCode>,
    completedAt: Option<int>)

  datatype AuditAction =
    | ReservedLogged | RequeuedLogged | AttemptedLogged
    | CompletedLogged | FailedLogged | RetryScheduledLogged

  datatype AuditEntry = AuditEntry(userId: UserId, action: AuditAction, walletId: WalletId)

  /** The database. Wallet ids and lease tokens are uuids: values never handed out before. */
  datatype Db = Db(
    users: map<UserId, User>,
    wallets: map<WalletId, Wallet>,
    jobs: map<WalletId, Job>,
    managedKeys: map<nat, ManagedKey>,
    audit: seq<AuditEntry>,
    nextWallet: WalletId,
    nextToken: Token)

  // ----- the declared transition map -----

  function Transitions(s: WalletStatus): set<WalletStatus> {
    match s
    case Reserved => {Provisioning, Failed}
    case Provisioning => {Active, Retryable, Failed}
    case Retryable => {Provisioning, Failed}
    case Active => {Exporting, Disabled}
    case Exporting => {Active, Migrated, Failed}
    case Migrated => {Disabled}
    case Failed => {Reserved}
    case Disabled => {}
  }

  predicate CanTransition(from: WalletStatus, to: WalletStatus) {
    to in Transitions(from)
  }

  // ----- reserving -----

  datatype Eligibility =
    | Eligible | UserNotFound | UserNotVerified | CustodialConsentRequired

  function AssertEligible(users: map<UserId, User>, u: UserId): Eligibility {
    if u !in users then UserNotFound
    else if !users[u].isVerified then UserNotVerified
    else if users[u].latestConsent != Some("granted") then CustodialConsentRequired
    else Eligible
  }

  /** The unique index on wallets.userId. */
  ghost predicate UserIndexUnique(wallets: map<WalletId, Wallet>) {
    forall v, w :: v in wallets && w in wallets && wallets[v].userId == wallets[w].userId ==> v == w
  }

  ghost predicate HasWallet(wallets: map<WalletId, Wallet>, u: UserId) {
    exists w :: w in wallets && wallets[w].userId == u
  }

  ghost function FindByUser(wallets: map<WalletId, Wallet>, u: UserId): (r: Option<WalletId>)
    ensures r.Some? ==> r.value in wallets && wallets[r.value].userId == u
    ensures r.None? ==> forall w :: w in wallets ==> wallets[w].userId != u
  {
    if HasWallet(wallets, u) then var w :| w in wallets && wallets[w].userId == u; Some(w) else None
  }

  function NewWallet(u: UserId, network: string, now: int): Wallet {
    Wallet(u, network, Reserved, None, None, None, 0, None, now)
  }

  function NewJob(now: int): Job {
    Job(JobStatus.Pending, now, None, None, 0, 8, None, None)
  }

  function Requeued(j: Job, now: int): Job {
    j.(status := JobStatus.Pending, availableAt := now, leaseToken := None, leasedUntil := None,
       lastFailureCode := None, completedAt := None)
  }

  function Reopened(w: Wallet, now: int): Wallet {
    if w.status.Failed? then w.(status := Reserved, failureCode := None, statusChangedAt := now) else w
  }

  ghost function ReserveTx(db: Db, u: UserId, network: string, now: int): Db {
    if AssertEligible(db.users, u) != Eligible then db
    else
      var found := FindByUser(db.wallets, u);
      var id := if found.Some? then found.value else db.nextWallet;
      var before := if found.Some? then db.wallets[id] else NewWallet(u, network, now);
      var after := Reopened(before, now);
      db.(wallets := db.wallets[id := after],
          jobs := if after.status.Active? then db.jobs
                  else db.jobs[id := if id in db.jobs then Requeued(db.jobs[id], now) else NewJob(now)],
          audit := if found.None? then db.audit + [AuditEntry(u, ReservedLogged, id)]
                   else if before.status.Failed? then db.audit + [AuditEntry(u, RequeuedLogged, id)]
                   else db.audit,
          nextWallet := if found.None? then db.nextWallet + 1 else db.nextWallet)
  }

  // ----- claiming -----

  predicate Claimable(j: Job, now: int) {
    || ((j.status.Pending? || j.status.Retry?) && j.availableAt <= now)
    || (j.status.Processing? && j.leasedUntil.Some? && j.leasedUntil.value < now)
  }

  predicate CanClaim(db: Db, id: WalletId, now: int) {
    id in db.jobs && id in db.wallets && Claimable(db.jobs[id], now)
  }

  function ClaimTx(db: Db, id: WalletId, now: int, leaseMs: int): Db
    requires CanClaim(db, id, now)
  {
    var job := db.jobs[id];
    var wallet := db.wallets[id];
    db.(jobs := db.jobs[id := job.(status := Processing, leaseToken := Some(db.nextToken),
                                   leasedUntil := Some(now + leaseMs), attempts := job.attempts + 1)],
        wallets := db.wallets[id := wallet.(status := Provisioning, attemptCount := wallet.attemptCount + 1,
                                            statusChangedAt := now)],
        audit := db.audit + [AuditEntry(wallet.userId, AttemptedLogged, id)],
        nextToken := db.nextToken + 1)
  }

  /** What a successful claim hands to the handler. */
  datatype Claim = Claim(walletId: WalletId, token: Token, attempts: nat, maxAttempts: int)

  // ----- completing -----

  datatype CompleteOutcome =
    | AlreadyActive
    | LeaseLost
    | MissingRow
    | UniqueViolation
    | Finalized(db: Db)

  predicate HoldsLease(j: Job, token: Token) {
    j.status.Processing? && j.leaseToken == Some(token)
  }

  predicate HoldsKey(w: Wallet, m: StoredKey) {
    w.publicKey == Some(m.publicKey) || w.managedKey == Some(m.opaqueReference)
  }

  /** The unique index on users.walletAddress. */
  ghost predicate AddressTaken(users: map<UserId, User>, owner: UserId, p: PublicKey) {
    exists u :: u in users && u != owner && users[u].walletAddress == Some(p)
  }

  /** Another row already holds this key: a unique index rejects the update. */
  ghost predicate KeyTaken(db: Db, id: WalletId, owner: UserId, m: StoredKey) {
    || (exists w :: w in db.wallets && w != id && HoldsKey(db.wallets[w], m))
    || AddressTaken(db.users, owner, m.publicKey)
  }

  ghost function CompleteTx(db: Db, id: WalletId, token: Token, m: StoredKey, now: int): CompleteOutcome {
    if id !in db.jobs || id !in db.wallets then MissingRow
    else if db.wallets[id].status.Active? then AlreadyActive
    else if !HoldsLease(db.jobs[id], token) then LeaseLost
    else if db.wallets[id].userId !in db.users then MissingRow
    else if KeyTaken(db, id, db.wallets[id].userId, m) then UniqueViolation
    else
      var wallet := db.wallets[id];
      var user := db.users[wallet.userId];
      Finalized(db.(
        managedKeys := db.managedKeys[m.opaqueReference := ManagedKey(m.provider, m.keyVersion)],
        wallets := db.wallets[id := wallet.(publicKey := Some(m.publicKey), managedKey := Some(m.opaqueReference),
                                            status := Active, failureCode := None, provisionedAt := Some(now),
                                            statusChangedAt := now)],
        users := db.users[wallet.userId := user.(walletAddress := Some(m.publicKey))],
        jobs := db.jobs[id := db.jobs[id].(status := JobStatus.Completed, leaseToken := None, leasedUntil := None,
                                           lastFailureCode := None, completedAt := Some(now))],
        audit := db.audit + [AuditEntry(wallet.userId, CompletedLogged, id)]))
  }

  // ----- failing -----

  function RecordFailureTx(
    db: Db, id: WalletId, token: Token, code: FailureCode, retryAt: Option<int>, now: int): Db
  {
    if id !in db.jobs || id !in db.wallets || !HoldsLease(db.jobs[id], token) then db
    else
      var terminal := retryAt.None?;
      db.(wallets := db.wallets[id := db.wallets[id].(status := if terminal then Failed else Retryable,
                                                      failureCode := Some(code), statusChangedAt := now)],
          jobs := db.jobs[id := db.jobs[id].(status := if terminal then DeadLetter else JobStatus.Retry,
                                             availableAt := if retryAt.Some? then retryAt.value else now,
                                             leaseToken := None, leasedUntil := None,
                                             lastFailureCode := Some(code))],
          audit := db.audit + [AuditEntry(db.wallets[id].userId,
                                          if terminal then FailedLogged else RetryScheduledLogged, id)])
  }

  // ----- the coupling between a wallet row and its job row -----

  predicate Coupled(w: Wallet, j: Job) {
    match j.status
    case Processing => w.status.Provisioning? && j.leaseToken.Some? && j.leasedUntil.Some?
    case Retry => w.status.Retryable? && j.leaseToken.None?
    case Completed => w.status.Active? && j.leaseToken.None?
    case DeadLetter => w.status.Failed? && j.leaseToken.None?
    case Pending =>
      j.leaseToken.None? && (w.status.Reserved? || w.status.Provisioning? || w.status.Retryable?)
  }

  /** Which wallet a row belongs to never changes, and its status moves along an edge or not at all. */
  predicate RowMoved(before: Wallet, after: Wallet) {
    && after.userId == before.userId
    && (after.status == before.status || CanTransition(before.status, after.status))
    && (before.status.Active? ==> after == before)
  }

  ghost predicate RowsPaired(db: Db) {
    && db.wallets.Keys == db.jobs.Keys
    && forall w :: w in db.wallets ==> Coupled(db.wallets[w], db.jobs[w])
  }

  ghost predicate RowsKnown(db: Db) {
    forall w :: w in db.wallets ==> w < db.nextWallet && db.wallets[w].userId in db.users
  }

  predicate SameToken(i: Job, j: Job) {
    i.leaseToken.Some? && i.leaseToken == j.leaseToken
  }

  /** Tokens were all handed out before, and no two jobs hold the same one. */
  ghost predicate TokensFresh(db: Db) {
    && (forall w :: w in db.jobs && db.jobs[w].leaseToken.Some? ==> db.jobs[w].leaseToken.value < db.nextToken)
    && (forall v, w :: v in db.jobs && w in db.jobs && v != w ==> !SameToken(db.jobs[v], db.jobs[w]))
  }

  ghost predicate TablesValid(db: Db) {
    RowsPaired(db) && RowsKnown(db) && UserIndexUnique(db.wallets) && TokensFresh(db)
  }

  /** Attempts are only ever counted up. */
  predicate JobMoved(before: Job, after: Job) {
    before.attempts <= after.attempts && after.maxAttempts == before.maxAttempts
  }

  /** A token handed out before `from` is held after the step only by a job that held it already. */
  ghost predicate TokensNotReissued(jobs: map<WalletId, Job>, jobs': map<WalletId, Job>, from: Token) {
    forall w :: w in jobs' && jobs'[w].leaseToken.Some? && jobs'[w].leaseToken.value < from
      ==> w in jobs && jobs[w].leaseToken == jobs'[w].leaseToken
  }

  ghost predicate RowsMoved(db: Db, db': Db) {
    && db.wallets.Keys <= db'.wallets.Keys
    && db.jobs.Keys <= db'.jobs.Keys
    && (forall w :: w in db.wallets ==> RowMoved(db.wallets[w], db'.wallets[w]))
    && (forall w :: w in db'.wallets && w !in db.wallets ==> db'.wallets[w].status.Reserved?)
    && (forall w :: w in db.jobs ==> JobMoved(db.jobs[w], db'.jobs[w]))
  }

  /** A transaction only ever adds wallets, and moves each row it touches along the transition map. */
  ghost predicate TablesMoved(db: Db, db': Db) {
    && RowsMoved(db, db')
    && TokensNotReissued(db.jobs, db'.jobs, db.nextToken)
    && db.users.Keys <= db'.users.Keys
    && db.nextWallet <= db'.nextWallet && db.nextToken <= db'.nextToken
  }

  /** A job is dead-lettered only after as many claims as it is allowed. */
  ghost predicate DeadLettersSpent(db: Db) {
    forall w :: w in db.jobs && db.jobs[w].status.DeadLetter? ==> db.jobs[w].attempts >= db.jobs[w].maxAttempts
  }

  lemma ReplaceToken(db: Db, db': Db, id: WalletId, j: Job)
    requires TokensFresh(db)
    requires db'.jobs == db.jobs[id := j] && db.nextToken <= db'.nextToken
    requires j.leaseToken.Some? ==> db.nextToken <= j.leaseToken.value < db'.nextToken
    ensures TokensFresh(db')
  {
    forall v, w | v in db'.jobs && w in db'.jobs && v != w ensures !SameToken(db'.jobs[v], db'.jobs[w]) {
      if v != id && w != id {
        assert db'.jobs[v] == db.jobs[v] && db'.jobs[w] == db.jobs[w];
      }
    }
  }

  lemma ReplaceUserIndex(wallets: map<WalletId, Wallet>, id: WalletId, w: Wallet)
    requires UserIndexUnique(wallets)
    requires if id in wallets then w.userId == wallets[id].userId else !HasWallet(wallets, w.userId)
    ensures UserIndexUnique(wallets[id := w])
  {
    var wallets' := wallets[id := w];
    forall u, v | u in wallets' && v in wallets' && wallets'[u].userId == wallets'[v].userId ensures u == v {
      assert u != id && v != id ==> u in wallets && v in wallets;
    }
  }

  lemma ReplaceRows(db: Db, db': Db, id: WalletId, w: Wallet, j: Job)
    requires RowsPaired(db) && RowsKnown(db)
    requires db'.wallets == db.wallets[id := w] && db'.jobs == db.jobs[id := j]
    requires db.users.Keys <= db'.users.Keys && db.nextWallet <= db'.nextWallet
    requires Coupled(w, j) && w.userId in db'.users && id < db'.nextWallet
    requires if id in db.wallets then RowMoved(db.wallets[id], w) && JobMoved(db.jobs[id], j) else w.status.Reserved?
    ensures RowsPaired(db') && RowsKnown(db') && RowsMoved(db, db')
  {
  }

  /** Replacing one pair of rows keeps the tables valid if the new pair is coupled and its token is none or new. */
  lemma ReplacePair(db: Db, db': Db, id: WalletId, w: Wallet, j: Job)
    requires TablesValid(db)
    requires db'.wallets == db.wallets[id := w] && db'.jobs == db.jobs[id := j]
    requires db.users.Keys <= db'.users.Keys && db.nextWallet <= db'.nextWallet && db.nextToken <= db'.nextToken
    requires Coupled(w, j) && w.userId in db'.users && id < db'.nextWallet
    requires if id in db.wallets then RowMoved(db.wallets[id], w) && JobMoved(db.jobs[id], j)
             else !HasWallet(db.wallets, w.userId) && w.status.Reserved?
    requires j.leaseToken.Some? ==> db.nextToken <= j.leaseToken.value < db'.nextToken
    ensures TablesValid(db') && TablesMoved(db, db')
  {
    assert TokensNotReissued(db.jobs, db'.jobs, db.nextToken);
    hide UserIndexUnique, RowsKnown, RowsPaired, TokensFresh, RowsMoved, TokensNotReissued;
    ReplaceUserIndex(db.wallets, id, w);
    ReplaceToken(db, db', id, j);
    ReplaceRows(db, db', id, w, j);
  }

  lemma ReserveKeepsTables(db: Db, u: UserId, network: string, now: int)
    requires TablesValid(db)
    ensures TablesValid(ReserveTx(db, u, network, now))
    ensures TablesMoved(db, ReserveTx(db, u, network, now))
  {
    if AssertEligible(db.users, u) == Eligible {
      var found := FindByUser(db.wallets, u);
      var id := if found.Some? then found.value else db.nextWallet;
      var db' := ReserveTx(db, u, network, now);
      if found.Some? && db.wallets[id].status.Active? {
        assert db.wallets[id := db.wallets[id]] == db.wallets;
      } else {
        ReplacePair(db, db', id, db'.wallets[id], db'.jobs[id]);
      }
    }
  }

  lemma ClaimKeepsTables(db: Db, id: WalletId, now: int, leaseMs: int)
    requires TablesValid(db) && CanClaim(db, id, now)
    ensures TablesValid(ClaimTx(db, id, now, leaseMs))
    ensures TablesMoved(db, ClaimTx(db, id, now, leaseMs))
  {
    var db' := ClaimTx(db, id, now, leaseMs);
    ReplacePair(db, db', id, db'.wallets[id], db'.jobs[id]);
  }

  lemma CompleteKeepsTables(db: Db, id: WalletId, token: Token, m: StoredKey, now: int)
    requires TablesValid(db) && CompleteTx(db, id, token, m, now).Finalized?
    ensures TablesValid(CompleteTx(db, id, token, m, now).db)
    ensures TablesMoved(db, CompleteTx(db, id, token, m, now).db)
  {
    var db' := CompleteTx(db, id, token, m, now).db;
    ReplacePair(db, db', id, db'.wallets[id], db'.jobs[id]);
  }

  lemma NothingMoved(db: Db)
    ensures TablesMoved(db, db)
  {
  }

  lemma FailureKeepsTables(db: Db, id: WalletId, token: Token, code: FailureCode, retryAt: Option<int>, now: int)
    requires TablesValid(db)
    ensures TablesValid(RecordFailureTx(db, id, token, code, retryAt, now))
    ensures TablesMoved(db, RecordFailureTx(db, id, token, code, retryAt, now))
  {
    hide UserIndexUnique, TokensFresh, TablesMoved;
    var db' := RecordFailureTx(db, id, token, code, retryAt, now);
    NothingMoved(db);
    if id in db.jobs && id in db.wallets && HoldsLease(db.jobs[id], token) {
      ReplacePair(db, db', id, db'.wallets[id], db'.jobs[id]);
    }
  }
}
