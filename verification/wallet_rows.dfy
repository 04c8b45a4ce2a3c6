/** What the columns and the audit log say: in every reachable state they tell how a wallet got where it is. */
module WalletRows {
  import opened Wrappers
  import opened WalletRepository
  import opened WalletProtocol
  import opened WalletSafety

  // ----- every step is at most one transaction -----

  datatype Transaction =
    | NoTransaction
    | OnUsers(users: map<UserId, User>)
    | Reserves(u: UserId, network: string, now: int)
    | Claims(w: WalletId, now: int, leaseMs: int)
    | Completes(w: WalletId, token: Token, m: StoredKey, now: int)
    | Fails(w: WalletId, token: Token, code: FailureCode, retryAt: Option<int>, now: int)

  ghost predicate Runs(db: Db, tx: Transaction, db': Db) {
    match tx
    case NoTransaction => db' == db
    case OnUsers(users) => db' == db.(users := users)
    case Reserves(u, network, now) => db' == ReserveTx(db, u, network, now)
    case Claims(w, now, leaseMs) => CanClaim(db, w, now) && db' == ClaimTx(db, w, now, leaseMs)
    case Completes(w, token, m, now) => CompleteTx(db, w, token, m, now) == Finalized(db')
    case Fails(w, token, code, retryAt, now) => db' == RecordFailureTx(db, w, token, code, retryAt, now)
  }

  lemma EffectRuns(s: System, m: Message) returns (tx: Transaction)
    ensures Runs(s.db, tx, Effect(s, m).db)
  {
    hide CompleteTx, RecordFailureTx;
    tx := NoTransaction;
    match m
    case StoreRequest(_, _, _, _) =>
    case CompleteRequest(w, token, material, now) =>
      if CompleteTx(s.db, w, token, material, now).Finalized? { tx := Completes(w, token, material, now); }
    case FailureRequest(w, token, code, retryAt, now) => tx := Fails(w, token, code, retryAt, now);
  }

  lemma CompleteRuns(s: System, c: CallId, now: int, replied: bool) returns (tx: Transaction)
    requires c in s.calls && s.calls[c].stage.Finalizing?
    ensures Runs(s.db, tx, AfterComplete(s, c, now, replied).db)
  {
    hide CompleteTx, SetStage, Finish;
    var claim, m := s.calls[c].claim, s.calls[c].stage.material;
    tx := NoTransaction;
    if replied && CompleteTx(s.db, claim.walletId, claim.token, m, now).Finalized? {
      tx := Completes(claim.walletId, claim.token, m, now);
    }
  }

  lemma FailureRuns(s: System, c: CallId, baseRetryMs: int, failedAt: int, now: int, replied: bool)
    returns (tx: Transaction)
    requires c in s.calls && s.calls[c].stage.Failing?
    ensures Runs(s.db, tx, AfterFailure(s, c, baseRetryMs, failedAt, now, replied).db)
  {
    hide Effect, Finish, RecordFailureTx, Pow2;
    var claim, code := s.calls[c].claim, s.calls[c].stage.code;
    tx := NoTransaction;
    if replied {
      tx := EffectRuns(
        s, FailureRequest(claim.walletId, claim.token, code, RetryAt(claim, baseRetryMs, failedAt), now));
    }
  }

  lemma StepRuns(s: System, a: Action) returns (tx: Transaction)
    ensures Runs(s.db, tx, Apply(s, a).db)
  {
    hide ReserveTx, ClaimTx, CompleteTx, RecordFailureTx, AfterComplete, AfterFailure, Effect;
    tx := NoTransaction;
    if Enabled(s, a) {
      match a
      case SetUser(_, _, _) => tx := OnUsers(Apply(s, a).db.users);
      case SetAddress(_, _) => tx := OnUsers(Apply(s, a).db.users);
      case Reserve(u, network, now) => tx := Reserves(u, network, now);
      case ClaimJob(w, now, leaseMs) => tx := Claims(w, now, leaseMs);
      case Complete(c, now, replied) => tx := CompleteRuns(s, c, now, replied);
      case RecordFailure(c, baseMs, failedAt, now, replied) => tx := FailureRuns(s, c, baseMs, failedAt, now, replied);
      case Deliver(m) => tx := EffectRuns(s, m);
      case _ => StoresAside(s, a);
    }
  }

  // ----- columns -----

  /** What status and columns of a wallet and its job say about each other. */
  predicate ColumnsAgree(w: Wallet, j: Job) {
    && (j.leaseToken.Some? <==> j.status.Processing?) && (j.leasedUntil.Some? <==> j.status.Processing?)
    && (j.completedAt.Some? <==> j.status.Completed?) && (w.provisionedAt.Some? <==> w.status.Active?)
    && w.provisionedAt == j.completedAt
    && (w.status.Reserved? || w.status.Active? ==> w.failureCode.None?)
    && (w.status.Retryable? || w.status.Failed? ==> w.failureCode.Some?)
    && (j.status.Pending? || j.status.Completed? ==> j.lastFailureCode.None?)
    && (j.status.Retry? || j.status.DeadLetter? ==> j.lastFailureCode == w.failureCode)
    && w.attemptCount == j.attempts && j.maxAttempts == 8 && (!j.status.Pending? ==> j.attempts > 0)
  }

  ghost predicate AllColumnsAgree(db: Db) {
    forall w :: w in db.wallets && w in db.jobs ==> ColumnsAgree(db.wallets[w], db.jobs[w])
  }

  lemma ReserveKeepsColumnsAgreed(db: Db, u: UserId, network: string, now: int)
    requires TablesValid(db) && AllColumnsAgree(db)
    ensures AllColumnsAgree(ReserveTx(db, u, network, now))
  {
    var db' := ReserveTx(db, u, network, now);
    hide TokensFresh, UserIndexUnique;
    forall w | w in db'.wallets && w in db'.jobs ensures ColumnsAgree(db'.wallets[w], db'.jobs[w]) {
      if w in db.wallets { assert ColumnsAgree(db.wallets[w], db.jobs[w]) && Coupled(db.wallets[w], db.jobs[w]); }
    }
  }

  /** A transaction that writes one pair of rows. */
  lemma PairKeepsColumns(db: Db, db': Db, w: WalletId)
    requires AllColumnsAgree(db) && w in db'.wallets && w in db'.jobs && ColumnsAgree(db'.wallets[w], db'.jobs[w])
    requires db'.wallets == db.wallets[w := db'.wallets[w]] && db'.jobs == db.jobs[w := db'.jobs[w]]
    ensures AllColumnsAgree(db')
  {
    forall v | v in db'.wallets && v in db'.jobs ensures ColumnsAgree(db'.wallets[v], db'.jobs[v]) {
      if v != w { assert ColumnsAgree(db.wallets[v], db.jobs[v]); }
    }
  }

  lemma TransactionKeepsColumns(db: Db, tx: Transaction, db': Db)
    requires TablesValid(db) && AllColumnsAgree(db) && Runs(db, tx, db')
    ensures AllColumnsAgree(db')
  {
    hide TokensFresh, UserIndexUnique, RowsKnown, RowsPaired, KeyTaken, ReserveTx, AllColumnsAgree;
    match tx
    case NoTransaction =>
    case OnUsers(users) => SameRowsKeepColumns(db, db');
    case Reserves(u, network, now) => ReserveKeepsColumnsAgreed(db, u, network, now);
    case Claims(w, now, leaseMs) =>
      ColumnsAt(db, w);
      PairKeepsColumns(db, db', w);
    case Completes(w, token, m, now) =>
      ColumnsAt(db, w);
      PairKeepsColumns(db, db', w);
    case Fails(w, token, code, retryAt, now) =>
      if db' != db {
        ColumnsAt(db, w);
        PairKeepsColumns(db, db', w);
      }
  }

  lemma SameRowsKeepColumns(db: Db, db': Db)
    requires AllColumnsAgree(db) && db'.wallets == db.wallets && db'.jobs == db.jobs
    ensures AllColumnsAgree(db')
  {
  }

  lemma ColumnsAt(db: Db, w: WalletId)
    requires TablesValid(db) && AllColumnsAgree(db) && w in db.jobs
    ensures w in db.wallets && ColumnsAgree(db.wallets[w], db.jobs[w]) && Coupled(db.wallets[w], db.jobs[w])
  {
  }

  // ----- stamps -----

  function Moment(tx: Transaction): int {
    match tx
    case Reserves(_, _, now) => now
    case Claims(_, now, _) => now
    case Completes(_, _, _, now) => now
    case Fails(_, _, _, _, now) => now
    case _ => 0
  }

  /** Whoever writes a wallet row stamps it with the moment of the write, and an activation is dated. */
  lemma WritesAreStamped(db: Db, tx: Transaction, db': Db, w: WalletId)
    requires TablesValid(db) && Runs(db, tx, db') && w in db'.wallets
    ensures !(w in db.wallets && db'.wallets[w] == db.wallets[w]) ==> db'.wallets[w].statusChangedAt == Moment(tx)
    ensures db'.wallets[w].status.Active? && !(w in db.wallets && db.wallets[w].status.Active?) ==>
      && w in db'.jobs
      && db'.wallets[w].provisionedAt == Some(Moment(tx)) && db'.jobs[w].completedAt == Some(Moment(tx))
  {
    hide TokensFresh, UserIndexUnique, RowsKnown, KeyTaken;
  }

  /** A failure that counts leaves its code in both rows, and one that does not leaves everything as it was. */
  lemma FailureIsNoted(db: Db, w: WalletId, token: Token, code: FailureCode, retryAt: Option<int>, now: int)
    requires TablesValid(db)
    ensures var db' := RecordFailureTx(db, w, token, code, retryAt, now);
      if w in db.jobs && db.jobs[w].leaseToken == Some(token) then
        && w in db'.wallets && w in db'.jobs
        && db'.wallets[w].failureCode == Some(code) && db'.jobs[w].lastFailureCode == Some(code)
        && (if retryAt.Some? then db'.wallets[w].status.Retryable? else db'.wallets[w].status.Failed?)
      else db' == db
  {
    if w in db.jobs { assert Coupled(db.wallets[w], db.jobs[w]); }
  }

  // ----- the audit log -----

  function Count(audit: seq<AuditEntry>, w: WalletId, action: AuditAction): nat {
    if audit == [] then 0
    else
      var last := audit[|audit| - 1];
      Count(audit[..|audit| - 1], w, action) + (if last.walletId == w && last.action == action then 1 else 0)
  }

  lemma CountAppend(audit: seq<AuditEntry>, entry: AuditEntry, w: WalletId, action: AuditAction)
    ensures Count(audit + [entry], w, action)
         == Count(audit, w, action) + (if entry.walletId == w && entry.action == action then 1 else 0)
  {
    assert (audit + [entry])[..|audit|] == audit;
  }

  /** The log of one wallet against its row. */
  predicate LogTells(audit: seq<AuditEntry>, w: WalletId, row: Wallet) {
    && Count(audit, w, ReservedLogged) == 1
    && Count(audit, w, AttemptedLogged) == row.attemptCount
    && Count(audit, w, CompletedLogged) == (if row.status.Active? then 1 else 0)
    && Count(audit, w, FailedLogged) == Count(audit, w, RequeuedLogged) + (if row.status.Failed? then 1 else 0)
  }

  predicate LogSilent(audit: seq<AuditEntry>, w: WalletId) {
    && Count(audit, w, ReservedLogged) == 0 && Count(audit, w, AttemptedLogged) == 0
    && Count(audit, w, CompletedLogged) == 0
    && Count(audit, w, FailedLogged) == 0 && Count(audit, w, RequeuedLogged) == 0
  }

  ghost predicate AuditTells(db: Db) {
    && (forall w :: w in db.wallets ==> LogTells(db.audit, w, db.wallets[w]))
    && (forall w: WalletId :: w !in db.wallets ==> LogSilent(db.audit, w))
    && (forall i :: 0 <= i < |db.audit| ==> NamesOwner(db, db.audit[i]))
  }

  predicate NamesOwner(db: Db, entry: AuditEntry) {
    entry.walletId in db.wallets && entry.userId == db.wallets[entry.walletId].userId
  }

  /** A transaction that writes the row of `w` from `before` to `after` and logs at most one entry about it. */
  lemma EntryKeepsAudit(db: Db, db': Db, w: WalletId, after: Wallet, entries: seq<AuditEntry>)
    requires AuditTells(db) && |entries| <= 1
    requires db'.wallets == db.wallets[w := after] && db'.audit == db.audit + entries
    requires w in db.wallets ==> after.userId == db.wallets[w].userId
    requires entries != [] ==> entries[0].walletId == w && entries[0].userId == after.userId
    requires LogTells(db'.audit, w, after)
    ensures AuditTells(db')
  {
    forall v: WalletId, action: AuditAction | v != w ensures Count(db'.audit, v, action) == Count(db.audit, v, action) {
      if entries != [] { CountAppend(db.audit, entries[0], v, action); } else { assert db'.audit == db.audit; }
    }
    forall v | v in db'.wallets ensures LogTells(db'.audit, v, db'.wallets[v]) {
      if v != w { assert LogTells(db.audit, v, db.wallets[v]); }
    }
    forall v: WalletId | v !in db'.wallets ensures LogSilent(db'.audit, v) { assert LogSilent(db.audit, v); }
    forall i | 0 <= i < |db'.audit| ensures NamesOwner(db', db'.audit[i]) {
      if i < |db.audit| { assert NamesOwner(db, db.audit[i]); }
    }
  }

  lemma ReserveKeepsAudit(db: Db, u: UserId, network: string, now: int)
    requires TablesValid(db) && AuditTells(db)
    ensures AuditTells(ReserveTx(db, u, network, now))
  {
    hide TokensFresh, RowsPaired, AuditTells, LogTells;
    var db' := ReserveTx(db, u, network, now);
    if AssertEligible(db.users, u) == Eligible {
      var found := FindByUser(db.wallets, u);
      var w := if found.Some? then found.value else db.nextWallet;
      var entries := db'.audit[|db.audit|..];
      assert db'.audit == db.audit + entries;
      LogAfterReserve(db, u, network, now, w);
      EntryKeepsAudit(db, db', w, db'.wallets[w], entries);
    }
  }

  lemma LogAfterReserve(db: Db, u: UserId, network: string, now: int, w: WalletId)
    requires TablesValid(db) && AuditTells(db) && AssertEligible(db.users, u) == Eligible
    requires var found := FindByUser(db.wallets, u); w == if found.Some? then found.value else db.nextWallet
    ensures var db' := ReserveTx(db, u, network, now); w in db'.wallets && LogTells(db'.audit, w, db'.wallets[w])
  {
    hide TokensFresh, RowsPaired, UserIndexUnique;
    var db' := ReserveTx(db, u, network, now);
    if w in db.wallets { assert LogTells(db.audit, w, db.wallets[w]); } else { assert LogSilent(db.audit, w); }
    if |db'.audit| > |db.audit| {
      forall action: AuditAction
        ensures Count(db'.audit, w, action)
             == Count(db.audit, w, action) + (if db'.audit[|db.audit|].action == action then 1 else 0)
      {
        CountAppend(db.audit, db'.audit[|db.audit|], w, action);
      }
    }
  }

  lemma OneEntryKeepsAudit(db: Db, db': Db, w: WalletId)
    requires TablesValid(db) && AuditTells(db) && w in db.wallets && |db'.audit| == |db.audit| + 1
    requires w in db'.wallets && db'.wallets == db.wallets[w := db'.wallets[w]]
    requires db'.wallets[w].userId == db.wallets[w].userId
    requires var entry := db'.audit[|db.audit|]; var before, after := db.wallets[w], db'.wallets[w];
      && db'.audit == db.audit + [entry] && entry.walletId == w && entry.userId == before.userId
      && !before.status.Active?
      && match entry.action
         case AttemptedLogged => after.attemptCount == before.attemptCount + 1 && !after.status.Active?
                                 && !after.status.Failed? && !before.status.Failed?
         case CompletedLogged => after.status.Active? && !before.status.Failed?
                                 && after.attemptCount == before.attemptCount
         case FailedLogged => after.status.Failed? && !before.status.Failed?
                              && after.attemptCount == before.attemptCount
         case RetryScheduledLogged => after.status.Retryable? && !before.status.Failed?
                                      && after.attemptCount == before.attemptCount
         case _ => false
    ensures AuditTells(db')
  {
    var entry := db'.audit[|db.audit|];
    assert LogTells(db.audit, w, db.wallets[w]);
    forall action: AuditAction
      ensures Count(db'.audit, w, action) == Count(db.audit, w, action) + (if entry.action == action then 1 else 0)
    {
      CountAppend(db.audit, entry, w, action);
    }
    hide AuditTells;
    EntryKeepsAudit(db, db', w, db'.wallets[w], [entry]);
  }

  lemma TransactionKeepsAudit(db: Db, tx: Transaction, db': Db)
    requires TablesValid(db) && AuditTells(db) && Runs(db, tx, db')
    ensures AuditTells(db')
  {
    hide TokensFresh, UserIndexUnique, AuditTells, ReserveTx, KeyTaken, NamesOwner;
    match tx
    case NoTransaction =>
    case OnUsers(users) => SameRowsKeepAudit(db, db');
    case Reserves(u, network, now) => ReserveKeepsAudit(db, u, network, now);
    case Claims(w, now, leaseMs) =>
      assert Coupled(db.wallets[w], db.jobs[w]);
      OneEntryKeepsAudit(db, db', w);
    case Completes(w, token, m, now) =>
      assert Coupled(db.wallets[w], db.jobs[w]);
      OneEntryKeepsAudit(db, db', w);
    case Fails(w, token, code, retryAt, now) =>
      if db' != db {
        assert Coupled(db.wallets[w], db.jobs[w]);
        OneEntryKeepsAudit(db, db', w);
      }
  }

  lemma SameRowsKeepAudit(db: Db, db': Db)
    requires AuditTells(db) && db'.wallets == db.wallets && db'.audit == db.audit
    ensures AuditTells(db')
  {
    forall i | 0 <= i < |db'.audit| ensures NamesOwner(db', db'.audit[i]) { assert NamesOwner(db, db.audit[i]); }
  }

  // ----- in every reachable state -----

  lemma {:induction false} RunKeepsRows(s: System, actions: seq<Action>)
    requires Inv(s) && AllColumnsAgree(s.db) && AuditTells(s.db)
    ensures var t := Run(s, actions); Inv(t) && AllColumnsAgree(t.db) && AuditTells(t.db)
    decreases |actions|
  {
    if actions != [] {
      var t := Apply(s, actions[0]);
      var tx := StepRuns(s, actions[0]);
      TablesAreValid(s);
      StepKeepsInv(s, actions[0]);
      hide Inv, Apply, Grows, AllColumnsAgree, AuditTells, Runs, TablesValid, KeysAttached;
      TransactionKeepsColumns(s.db, tx, t.db);
      TransactionKeepsAudit(s.db, tx, t.db);
      RunKeepsRows(t, actions[1..]);
    }
  }

  /**
   * In every reachable state the columns of a wallet and its job agree with their status, and both
   * have counted the same attempts of the eight that there are.
   */
  lemma ColumnsTell(actions: seq<Action>, w: WalletId)
    requires w in Run(Initial(), actions).db.wallets
    ensures var db := Run(Initial(), actions).db; w in db.jobs && ColumnsAgree(db.wallets[w], db.jobs[w])
  {
    InitialHoldsInv();
    RunKeepsRows(Initial(), actions);
    var s := Run(Initial(), actions);
    hide Run;
    TablesAreValid(s);
  }

  /**
   * In every reachable state the audit log tells each wallet's story: reserved once, one entry for
   * each counted attempt, completed exactly if it is ACTIVE, and failed once more than requeued
   * exactly if it is FAILED; every entry names the wallet's owner.
   */
  lemma AuditTellsTheStory(actions: seq<Action>)
    ensures var db := Run(Initial(), actions).db;
      && (forall w :: w in db.wallets ==> LogTells(db.audit, w, db.wallets[w]))
      && (forall i :: 0 <= i < |db.audit| ==> NamesOwner(db, db.audit[i]))
  {
    InitialHoldsInv();
    RunKeepsRows(Initial(), actions);
  }

  /**
   * How a finalization with the wallet's stored key is answered: an ACTIVE wallet is left alone, any
   * token but the current one has lost its lease, a key that another user has as address is refused,
   * and otherwise the wallet becomes ACTIVE with that key.
   */
  lemma CompletionAnswers(s: System, w: WalletId, token: Token, now: int)
    requires Inv(s) && w in s.kms
    ensures var o := CompleteTx(s.db, w, token, s.kms[w], now);
      && w in s.db.wallets && w in s.db.jobs
      && (o.AlreadyActive? <==> s.db.wallets[w].status.Active?)
      && (o.LeaseLost? <==> !s.db.wallets[w].status.Active? && s.db.jobs[w].leaseToken != Some(token))
      && (o.UniqueViolation? <==> s.db.jobs[w].leaseToken == Some(token) && KeyIsAddressed(s, w))
      && (o.Finalized? <==> s.db.jobs[w].leaseToken == Some(token) && !KeyIsAddressed(s, w))
      && (o.Finalized? ==> w in o.db.wallets && o.db.wallets[w].status.Active?
                           && o.db.wallets[w].publicKey == Some(s.kms[w].publicKey))
  {
    TablesAreValid(s);
    KeyTakenExactlyWhenAddressed(s, w);
    KeysHaveWallets(s, w);
    hide Inv, KeyTaken, AddressTaken, KeysAttached, UserIndexUnique, TokensFresh;
    assert Coupled(s.db.wallets[w], s.db.jobs[w]);
  }

  lemma KeysHaveWallets(s: System, w: WalletId)
    requires Inv(s) && w in s.kms
    ensures w in s.db.wallets
  {
  }

  // ----- who may have a wallet -----

  /** A wallet is given to verified users whose latest consent is `granted`; others are told what is missing first. */
  lemma EligibleExactlyWhen(users: map<UserId, User>, u: UserId)
    ensures AssertEligible(users, u) == Eligible
      <==> u in users && users[u].isVerified && users[u].latestConsent == Some("granted")
    ensures AssertEligible(users, u) == UserNotFound <==> u !in users
    ensures AssertEligible(users, u) == UserNotVerified <==> u in users && !users[u].isVerified
  {
  }

  /** What is recorded of a user decides on the next request, and leaves the address as it was. */
  lemma RecordedUserMayAsk(s: System, u: UserId, isVerified: bool, latestConsent: Option<string>)
    ensures var t := Apply(s, SetUser(u, isVerified, latestConsent));
      && (AssertEligible(t.db.users, u) == Eligible <==> isVerified && latestConsent == Some("granted"))
      && t.db == s.db.(users := t.db.users) && u in t.db.users
      && t.db.users[u].walletAddress == if u in s.db.users then s.db.users[u].walletAddress else None
  {
  }

  /** A request reserves a wallet for an eligible user without one, in the network asked for, and changes no other. */
  lemma RequestMakesOneWallet(db: Db, u: UserId, network: string, now: int)
    requires TablesValid(db) && forall w :: w in db.wallets ==> db.wallets[w].userId != u
    ensures var db' := ReserveTx(db, u, network, now);
      if AssertEligible(db.users, u) != Eligible then db' == db
      else
        && db'.wallets.Keys == db.wallets.Keys + {db.nextWallet} && db.nextWallet !in db.wallets
        && (forall w :: w in db.wallets ==> db'.wallets[w] == db.wallets[w])
        && db'.wallets[db.nextWallet].userId == u && db'.wallets[db.nextWallet].network == network
        && db'.wallets[db.nextWallet].status.Reserved? && db'.jobs[db.nextWallet].status.Pending?
  {
    assert FindByUser(db.wallets, u).None?;
  }
}
