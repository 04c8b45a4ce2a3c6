/**
 * Provisioning as a whole: any number of handler calls, the key store, the database, and the
 * requests still on their way to either.  An action is one atomic step, so a sequence of actions
 * is one interleaving of workers, crashes, lost replies, expired leases and redelivered events.
 */
module WalletProtocol {
  import opened Wrappers
  import opened WalletRepository

  type CallId = nat

  /** How far one handler call has come. */
  datatype Stage =
    | Looking
    | Generating
    | Storing(publicKey: PublicKey)
    | Repairing
    | Finalizing(material: StoredKey)
    | Failing(code: FailureCode)

  datatype Call = Call(claim: Claim, stage: Stage)

  datatype HandleResult =
    | CompletedResult(walletId: WalletId, publicKey: PublicKey)
    | RetryScheduledResult(walletId: WalletId, code: FailureCode)
    | DeadLetterResult(walletId: WalletId, code: FailureCode)

  /** A request whose reply was lost.  It may take effect later, any number of times, or never. */
  datatype Message =
    | StoreRequest(walletId: WalletId, publicKey: PublicKey, provider: string, keyVersion: Option<string>)
    | CompleteRequest(walletId: WalletId, token: Token, material: StoredKey, now: int)
    | FailureRequest(walletId: WalletId, token: Token, code: FailureCode, retryAt: Option<int>, now: int)

  /**
   * `storeLog` lists every key the store ever wrote and `keyOwner` the wallet each generated key
   * was meant for; both are bookkeeping that no step reads.
   */
  datatype System = System(
    db: Db,
    kms: map<WalletId, StoredKey>,
    storeLog: seq<(WalletId, StoredKey)>,
    keyOwner: map<PublicKey, WalletId>,
    calls: map<CallId, Call>,
    transit: set<Message>,
    results: seq<HandleResult>,
    nextCall: CallId,
    nextKey: PublicKey,
    nextReference: nat)

  datatype Action =
    | SetUser(u: UserId, isVerified: bool, latestConsent: Option<string>)
    | SetAddress(u: UserId, address: Option<PublicKey>)
    | Reserve(u: UserId, network: string, now: int)
    | ClaimJob(w: WalletId, now: int, leaseMs: int)
    | Lookup(c: CallId, replied: bool)
    | Generate(c: CallId, succeeded: bool)
    | Store(c: CallId, provider: string, keyVersion: Option<string>, replied: bool)
    | Repair(c: CallId, replied: bool)
    | Complete(c: CallId, now: int, replied: bool)
    | RecordFailure(c: CallId, baseRetryMs: int, failedAt: int, now: int, replied: bool)
    | Deliver(m: Message)
    | Crash(c: CallId)

  function Initial(): System {
    System(Db(map[], map[], map[], map[], [], 0, 0), map[], [], map[], map[], {}, [], 0, 0, 0)
  }

  // ----- the effects of requests -----

  /** The store keeps the first key written under an idempotency key and answers with it ever after. */
  function KmsStore(s: System, w: WalletId, p: PublicKey, provider: string, keyVersion: Option<string>): System {
    if w in s.kms then s
    else
      var key := StoredKey(provider, s.nextReference, keyVersion, p);
      s.(kms := s.kms[w := key], storeLog := s.storeLog + [(w, key)], nextReference := s.nextReference + 1)
  }

  ghost function CompleteEffect(s: System, w: WalletId, token: Token, m: StoredKey, now: int): System {
    match CompleteTx(s.db, w, token, m, now)
    case Finalized(db) => s.(db := db)
    case _ => s
  }

  ghost function Effect(s: System, m: Message): System {
    match m
    case StoreRequest(w, p, provider, keyVersion) => KmsStore(s, w, p, provider, keyVersion)
    case CompleteRequest(w, token, material, now) => CompleteEffect(s, w, token, material, now)
    case FailureRequest(w, token, code, retryAt, now) =>
      s.(db := RecordFailureTx(s.db, w, token, code, retryAt, now))
  }

  // ----- one step of one handler call -----

  function SetStage(s: System, c: CallId, stage: Stage): (t: System)
    requires c in s.calls
    ensures t.db == s.db && t.kms == s.kms
  {
    s.(calls := s.calls[c := s.calls[c].(stage := stage)])
  }

  function Finish(s: System, c: CallId, r: HandleResult): (t: System)
    ensures t.db == s.db && t.kms == s.kms
  {
    s.(calls := s.calls - {c}, results := s.results + [r])
  }

  function AfterLookup(s: System, c: CallId, absent: Stage): System
    requires c in s.calls
  {
    var w := s.calls[c].claim.walletId;
    SetStage(s, c, if w in s.kms then Finalizing(s.kms[w]) else absent)
  }

  /** A keypair generated for wallet `w`: its public key is a value never generated before. */
  function WithKey(s: System, w: WalletId): System {
    s.(keyOwner := s.keyOwner[s.nextKey := w], nextKey := s.nextKey + 1)
  }

  function Sent(s: System, m: Message): System {
    s.(transit := s.transit + {m})
  }

  function AfterGenerate(s: System, c: CallId): System
    requires c in s.calls
  {
    SetStage(WithKey(s, s.calls[c].claim.walletId), c, Storing(s.nextKey))
  }

  ghost function AfterStore(s: System, c: CallId, provider: string, keyVersion: Option<string>, replied: bool): System
    requires c in s.calls && s.calls[c].stage.Storing?
  {
    var w := s.calls[c].claim.walletId;
    var p := s.calls[c].stage.publicKey;
    if replied then AfterLookup(KmsStore(s, w, p, provider, keyVersion), c, Repairing)
    else SetStage(Sent(s, StoreRequest(w, p, provider, keyVersion)), c, Repairing)
  }

  ghost function AfterComplete(s: System, c: CallId, now: int, replied: bool): System
    requires c in s.calls && s.calls[c].stage.Finalizing?
  {
    var claim := s.calls[c].claim;
    var m := s.calls[c].stage.material;
    if !replied then
      SetStage(Sent(s, CompleteRequest(claim.walletId, claim.token, m, now)), c, Failing(DatabaseFinalizationFailed))
    else
      match CompleteTx(s.db, claim.walletId, claim.token, m, now)
      case Finalized(db) => Finish(s.(db := db), c, CompletedResult(claim.walletId, m.publicKey))
      case AlreadyActive => Finish(s, c, CompletedResult(claim.walletId, m.publicKey))
      case _ => SetStage(s, c, Failing(DatabaseFinalizationFailed))
  }

  function Pow2(n: nat): nat {
    if n == 0 then 1 else 2 * Pow2(n - 1)
  }

  predicate Terminal(claim: Claim) {
    claim.attempts >= claim.maxAttempts
  }

  function RetryAt(claim: Claim, baseRetryMs: int, failedAt: int): Option<int> {
    if Terminal(claim) then None
    else Some(failedAt + baseRetryMs * Pow2(if claim.attempts >= 1 then claim.attempts - 1 else 0))
  }

  ghost function AfterFailure(
    s: System, c: CallId, baseRetryMs: int, failedAt: int, now: int, replied: bool): System
    requires c in s.calls && s.calls[c].stage.Failing?
  {
    var claim := s.calls[c].claim;
    var code := s.calls[c].stage.code;
    var request := FailureRequest(claim.walletId, claim.token, code, RetryAt(claim, baseRetryMs, failedAt), now);
    Finish(if replied then Effect(s, request) else Sent(s, request), c,
           if Terminal(claim) then DeadLetterResult(claim.walletId, code)
           else RetryScheduledResult(claim.walletId, code))
  }

  ghost predicate Enabled(s: System, a: Action) {
    match a
    case SetUser(_, _, _) => true
    case SetAddress(u, address) => u in s.db.users && (address.Some? ==> !AddressTaken(s.db.users, u, address.value))
    case Reserve(_, _, _) => true
    case ClaimJob(w, now, _) => CanClaim(s.db, w, now)
    case Lookup(c, _) => c in s.calls && s.calls[c].stage.Looking?
    case Generate(c, _) => c in s.calls && s.calls[c].stage.Generating?
    case Store(c, _, _, _) => c in s.calls && s.calls[c].stage.Storing?
    case Repair(c, _) => c in s.calls && s.calls[c].stage.Repairing?
    case Complete(c, _, _) => c in s.calls && s.calls[c].stage.Finalizing?
    case RecordFailure(c, _, _, _, _) => c in s.calls && s.calls[c].stage.Failing?
    case Deliver(m) => m in s.transit
    case Crash(c) => c in s.calls
  }

  function WithUser(db: Db, u: UserId, isVerified: bool, latestConsent: Option<string>): Db {
    db.(users := db.users[u := User(isVerified, latestConsent,
                                    if u in db.users then db.users[u].walletAddress else None)])
  }

  /** A change of address, or its erasure with the account; a key made elsewhere is none that is made here later. */
  function WithAddress(s: System, u: UserId, address: Option<PublicKey>): System
    requires u in s.db.users
  {
    s.(db := s.db.(users := s.db.users[u := s.db.users[u].(walletAddress := address)]),
       nextKey := if address.Some? && address.value >= s.nextKey then address.value + 1 else s.nextKey)
  }

  function Claimed(s: System, w: WalletId, now: int, leaseMs: int): System
    requires CanClaim(s.db, w, now)
  {
    var job := s.db.jobs[w];
    s.(db := ClaimTx(s.db, w, now, leaseMs),
       calls := s.calls[s.nextCall := Call(Claim(w, s.db.nextToken, job.attempts + 1, job.maxAttempts), Looking)],
       nextCall := s.nextCall + 1)
  }

  ghost function Apply(s: System, a: Action): System {
    if !Enabled(s, a) then s
    else
      match a
      case SetUser(u, isVerified, latestConsent) => s.(db := WithUser(s.db, u, isVerified, latestConsent))
      case SetAddress(u, address) => WithAddress(s, u, address)
      case Reserve(u, network, now) => s.(db := ReserveTx(s.db, u, network, now))
      case ClaimJob(w, now, leaseMs) => Claimed(s, w, now, leaseMs)
      case Lookup(c, replied) =>
        if replied then AfterLookup(s, c, Generating) else SetStage(s, c, Failing(KmsUnavailable))
      case Generate(c, succeeded) =>
        if succeeded then AfterGenerate(s, c) else SetStage(s, c, Failing(KeyGenerationFailed))
      case Store(c, provider, keyVersion, replied) => AfterStore(s, c, provider, keyVersion, replied)
      case Repair(c, replied) =>
        if replied then AfterLookup(s, c, Failing(KmsStoreUncertain))
        else SetStage(s, c, Failing(KmsStoreUncertain))
      case Complete(c, now, replied) => AfterComplete(s, c, now, replied)
      case RecordFailure(c, baseRetryMs, failedAt, now, replied) =>
        AfterFailure(s, c, baseRetryMs, failedAt, now, replied)
      case Deliver(m) => Effect(s, m)
      case Crash(c) => s.(calls := s.calls - {c})
  }

  ghost function Run(s: System, actions: seq<Action>): System
    decreases |actions|
  {
    if actions == [] then s else Run(Apply(s, actions[0]), actions[1..])
  }

  // ----- what every step keeps -----

  predicate Holds(kms: map<WalletId, StoredKey>, w: WalletId, m: StoredKey) {
    w in kms && kms[w] == m
  }

  predicate Owns(keyOwner: map<PublicKey, WalletId>, w: WalletId, p: PublicKey) {
    p in keyOwner && keyOwner[p] == w
  }

  /** Each key belongs to a known wallet and was generated for it; references are never issued twice. */
  ghost predicate KmsValid(
    kms: map<WalletId, StoredKey>, keyOwner: map<PublicKey, WalletId>, ids: set<WalletId>, nextReference: nat)
  {
    && kms.Keys <= ids
    && (forall w :: w in kms ==> Owns(keyOwner, w, kms[w].publicKey))
    && (forall w :: w in kms ==> kms[w].opaqueReference < nextReference)
    && (forall v, w :: v in kms && w in kms && v != w ==> kms[v].opaqueReference != kms[w].opaqueReference)
  }

  ghost predicate OwnersValid(keyOwner: map<PublicKey, WalletId>, nextKey: PublicKey) {
    forall p :: p in keyOwner ==> p < nextKey
  }

  /** The log lists exactly the keys held, each wallet once. */
  ghost predicate LogValid(kms: map<WalletId, StoredKey>, storeLog: seq<(WalletId, StoredKey)>) {
    && (forall i :: 0 <= i < |storeLog| ==> Holds(kms, storeLog[i].0, storeLog[i].1))
    && (forall i, j :: 0 <= i < j < |storeLog| ==> storeLog[i].0 != storeLog[j].0)
    && (forall w :: w in kms ==> (w, kms[w]) in storeLog)
  }

  /** An ACTIVE wallet carries exactly its stored key; every other wallet carries none. */
  predicate CarriesKey(db: Db, kms: map<WalletId, StoredKey>, w: WalletId)
    requires w in db.wallets
  {
    var row := db.wallets[w];
    if row.status.Active? then
      && w in kms
      && row.publicKey == Some(kms[w].publicKey)
      && row.managedKey == Some(kms[w].opaqueReference)
      && kms[w].opaqueReference in db.managedKeys
      && db.managedKeys[kms[w].opaqueReference] == ManagedKey(kms[w].provider, kms[w].keyVersion)
    else row.publicKey.None? && row.managedKey.None?
  }

  ghost predicate KeysAttached(db: Db, kms: map<WalletId, StoredKey>) {
    forall w :: w in db.wallets ==> CarriesKey(db, kms, w)
  }

  predicate HasAddress(users: map<UserId, User>, u: UserId, p: PublicKey) {
    u in users && users[u].walletAddress == Some(p)
  }

  /** No two users share an address, and none has a key that is still to be generated. */
  ghost predicate AddressesValid(users: map<UserId, User>, nextKey: PublicKey) {
    && (forall u, p: PublicKey :: HasAddress(users, u, p) ==> p < nextKey)
    && (forall u, v, p: PublicKey :: HasAddress(users, u, p) && HasAddress(users, v, p) ==> u == v)
  }

  /** A claim's attempt number has been counted on its job. */
  predicate ClaimCounted(db: Db, claim: Claim) {
    && claim.walletId in db.jobs
    && claim.attempts <= db.jobs[claim.walletId].attempts
    && claim.maxAttempts == db.jobs[claim.walletId].maxAttempts
  }

  predicate Spent(db: Db, w: WalletId) {
    w in db.jobs && db.jobs[w].attempts >= db.jobs[w].maxAttempts
  }

  predicate CallValid(s: System, call: Call) {
    && call.claim.walletId in s.db.wallets
    && call.claim.token < s.db.nextToken
    && ClaimCounted(s.db, call.claim)
    && (call.stage.Storing? ==> Owns(s.keyOwner, call.claim.walletId, call.stage.publicKey))
    && (call.stage.Finalizing? ==> Holds(s.kms, call.claim.walletId, call.stage.material))
  }

  predicate MessageValid(s: System, m: Message) {
    match m
    case StoreRequest(w, p, _, _) => w in s.db.wallets && Owns(s.keyOwner, w, p)
    case CompleteRequest(w, _, material, _) => Holds(s.kms, w, material)
    case FailureRequest(w, _, _, retryAt, _) => retryAt.None? ==> Spent(s.db, w)
  }

  predicate ResultValid(s: System, r: HandleResult) {
    r.CompletedResult? ==>
      && r.walletId in s.db.wallets
      && s.db.wallets[r.walletId].status.Active?
      && s.db.wallets[r.walletId].publicKey == Some(r.publicKey)
  }

  ghost predicate ClientsValid(s: System) {
    && (forall c :: c in s.calls ==> c < s.nextCall && CallValid(s, s.calls[c]))
    && (forall m :: m in s.transit ==> MessageValid(s, m))
    && (forall r :: r in s.results ==> ResultValid(s, r))
  }

  /** Completion is logged at most once per wallet, and only for wallets that are ACTIVE. */
  ghost predicate AuditValid(db: Db) {
    && (forall i :: 0 <= i < |db.audit| && db.audit[i].action.CompletedLogged?
          ==> db.audit[i].walletId in db.wallets && db.wallets[db.audit[i].walletId].status.Active?)
    && (forall i, j :: 0 <= i < j < |db.audit|
                       && db.audit[i].action.CompletedLogged? && db.audit[j].action.CompletedLogged?
          ==> db.audit[i].walletId != db.audit[j].walletId)
  }

  ghost predicate Inv(s: System) {
    && TablesValid(s.db)
    && DeadLettersSpent(s.db)
    && KmsValid(s.kms, s.keyOwner, s.db.wallets.Keys, s.nextReference)
    && OwnersValid(s.keyOwner, s.nextKey)
    && LogValid(s.kms, s.storeLog)
    && KeysAttached(s.db, s.kms)
    && AddressesValid(s.db.users, s.nextKey)
    && ClientsValid(s)
    && AuditValid(s.db)
  }

  /** Keys once stored or generated stay as they are, and wallet rows only move along the transition map. */
  ghost predicate Grows(s: System, t: System) {
    TablesMoved(s.db, t.db) && KeysKept(s, t)
  }

  ghost predicate KeysKept(s: System, t: System) {
    && (forall w :: w in s.kms ==> Holds(t.kms, w, s.kms[w]))
    && (forall p :: p in s.keyOwner ==> Owns(t.keyOwner, s.keyOwner[p], p))
    && s.storeLog <= t.storeLog
    && s.results <= t.results
  }

  lemma ClientsStayValid(s: System, t: System)
    requires ClientsValid(s) && Grows(s, t)
    requires t.calls == s.calls && t.transit == s.transit && t.results == s.results && s.nextCall <= t.nextCall
    ensures ClientsValid(t)
  {
    forall c | c in t.calls ensures c < t.nextCall && CallValid(t, t.calls[c]) {
      assert CallValid(s, s.calls[c]);
    }
    forall m | m in t.transit ensures MessageValid(t, m) {
      assert MessageValid(s, m);
    }
    forall r | r in t.results ensures ResultValid(t, r) {
      assert ResultValid(s, r);
    }
  }

  // ----- steps that leave the key columns alone -----

  predicate KeyColumnsKept(db: Db, db': Db, w: WalletId) {
    w in db'.wallets &&
    if w in db.wallets then
      && db'.wallets[w].publicKey == db.wallets[w].publicKey
      && db'.wallets[w].managedKey == db.wallets[w].managedKey
      && db'.wallets[w].userId == db.wallets[w].userId
      && (db'.wallets[w].status.Active? <==> db.wallets[w].status.Active?)
    else
      && db'.wallets[w].publicKey.None? && db'.wallets[w].managedKey.None?
      && !db'.wallets[w].status.Active?
  }

  /** At most one entry is appended to the log, and it is not a completion. */
  predicate QuietAudit(db: Db, db': Db) {
    || db'.audit == db.audit
    || (|db'.audit| == |db.audit| + 1 && db.audit <= db'.audit && !db'.audit[|db.audit|].action.CompletedLogged?)
  }

  predicate AddressesKept(db: Db, db': Db) {
    forall u :: u in db'.users ==>
      if u in db.users then db'.users[u].walletAddress == db.users[u].walletAddress
      else db'.users[u].walletAddress.None?
  }

  ghost predicate ColumnsKept(db: Db, db': Db) {
    && db.wallets.Keys <= db'.wallets.Keys && db.users.Keys <= db'.users.Keys
    && (forall w :: w in db'.wallets ==> KeyColumnsKept(db, db', w))
    && db'.managedKeys == db.managedKeys
    && AddressesKept(db, db')
    && QuietAudit(db, db')
  }

  ghost predicate QuietStep(db: Db, db': Db) {
    TablesValid(db') && TablesMoved(db, db') && ColumnsKept(db, db') && (DeadLettersSpent(db) ==> DeadLettersSpent(db'))
  }

  lemma QuietKeepsKeys(db: Db, db': Db, kms: map<WalletId, StoredKey>)
    requires KeysAttached(db, kms) && RowsKnown(db) && ColumnsKept(db, db')
    ensures KeysAttached(db', kms)
  {
    forall w | w in db'.wallets ensures CarriesKey(db', kms, w) {
      assert KeyColumnsKept(db, db', w);
      if w in db.wallets { assert CarriesKey(db, kms, w); }
    }
  }

  lemma QuietKeepsAddresses(db: Db, db': Db, nextKey: PublicKey)
    requires AddressesValid(db.users, nextKey) && AddressesKept(db, db')
    ensures AddressesValid(db'.users, nextKey)
  {
    forall u, p: PublicKey | HasAddress(db'.users, u, p) ensures HasAddress(db.users, u, p) {}
  }

  lemma QuietKeepsAudit(db: Db, db': Db)
    requires AuditValid(db) && ColumnsKept(db, db')
    ensures AuditValid(db')
  {
    forall i | 0 <= i < |db'.audit| && db'.audit[i].action.CompletedLogged?
      ensures db'.audit[i].walletId in db'.wallets && db'.wallets[db'.audit[i].walletId].status.Active?
    {
      assert db'.audit[i] == db.audit[i];
      assert KeyColumnsKept(db, db', db.audit[i].walletId);
    }
  }

  lemma KmsValidWithMoreWallets(
    kms: map<WalletId, StoredKey>, keyOwner: map<PublicKey, WalletId>,
    ids: set<WalletId>, ids': set<WalletId>, nextReference: nat)
    requires KmsValid(kms, keyOwner, ids, nextReference) && ids <= ids'
    ensures KmsValid(kms, keyOwner, ids', nextReference)
  {
  }

  lemma DbStepGrows(s: System, t: System)
    requires t == s.(db := t.db) && TablesMoved(s.db, t.db)
    ensures Grows(s, t)
  {
  }

  lemma QuietKeepsInv(s: System, t: System)
    requires Inv(s) && t == s.(db := t.db) && QuietStep(s.db, t.db)
    ensures Inv(t) && Grows(s, t)
  {
    hide UserIndexUnique, RowsKnown, RowsPaired, TokensFresh, RowsMoved, TokensNotReissued, DeadLettersSpent;
    hide KmsValid, OwnersValid, LogValid, KeysAttached, AddressesValid, AuditValid, ClientsValid, Grows;
    KmsValidWithMoreWallets(s.kms, s.keyOwner, s.db.wallets.Keys, t.db.wallets.Keys, s.nextReference);
    DbStepGrows(s, t);
    QuietKeepsKeys(s.db, t.db, s.kms);
    QuietKeepsAddresses(s.db, t.db, s.nextKey);
    QuietKeepsAudit(s.db, t.db);
    ClientsStayValid(s, t);
  }

  lemma ReserveKeepsColumns(db: Db, u: UserId, network: string, now: int)
    requires RowsKnown(db)
    ensures ColumnsKept(db, ReserveTx(db, u, network, now))
  {
    var db' := ReserveTx(db, u, network, now);
    forall w | w in db'.wallets ensures KeyColumnsKept(db, db', w) {
    }
  }

  lemma ReserveIsQuiet(db: Db, u: UserId, network: string, now: int)
    requires TablesValid(db)
    ensures QuietStep(db, ReserveTx(db, u, network, now))
  {
    ReserveKeepsTables(db, u, network, now);
    ReserveKeepsColumns(db, u, network, now);
  }

  lemma ClaimKeepsColumns(db: Db, w: WalletId, now: int, leaseMs: int)
    requires RowsPaired(db) && CanClaim(db, w, now)
    ensures ColumnsKept(db, ClaimTx(db, w, now, leaseMs))
  {
    assert Coupled(db.wallets[w], db.jobs[w]);
  }

  lemma ClaimIsQuiet(db: Db, w: WalletId, now: int, leaseMs: int)
    requires TablesValid(db) && CanClaim(db, w, now)
    ensures QuietStep(db, ClaimTx(db, w, now, leaseMs))
  {
    ClaimKeepsTables(db, w, now, leaseMs);
    ClaimKeepsColumns(db, w, now, leaseMs);
  }

  lemma FailureKeepsColumns(db: Db, w: WalletId, token: Token, code: FailureCode, retryAt: Option<int>, now: int)
    requires RowsPaired(db)
    ensures ColumnsKept(db, RecordFailureTx(db, w, token, code, retryAt, now))
  {
    if w in db.wallets { assert Coupled(db.wallets[w], db.jobs[w]); }
  }

  lemma FailureIsQuiet(db: Db, w: WalletId, token: Token, code: FailureCode, retryAt: Option<int>, now: int)
    requires TablesValid(db) && (retryAt.None? ==> Spent(db, w))
    ensures QuietStep(db, RecordFailureTx(db, w, token, code, retryAt, now))
  {
    FailureKeepsTables(db, w, token, code, retryAt, now);
    FailureKeepsColumns(db, w, token, code, retryAt, now);
  }

  lemma SetUserIsQuiet(db: Db, u: UserId, isVerified: bool, latestConsent: Option<string>)
    requires TablesValid(db)
    ensures QuietStep(db, WithUser(db, u, isVerified, latestConsent))
  {
  }

  // ----- completing -----

  /**
   * Of the unique indexes only the one on addresses can stand in the way of a completion with the
   * wallet's stored key: exactly when another user has that key as address.
   */
  lemma KeyTakenExactlyWhenAddressed(s: System, w: WalletId)
    requires Inv(s) && w in s.kms
    ensures KeyTaken(s.db, w, s.db.wallets[w].userId, s.kms[w])
      <==> AddressTaken(s.db.users, s.db.wallets[w].userId, s.kms[w].publicKey)
  {
    hide TablesValid, OwnersValid, LogValid, AddressesValid, AuditValid, ClientsValid, DeadLettersSpent;
    forall v | v in s.db.wallets && v != w ensures !HoldsKey(s.db.wallets[v], s.kms[w]) {
      assert CarriesKey(s.db, s.kms, v);
    }
  }

  lemma CompletionAttachesKey(db: Db, kms: map<WalletId, StoredKey>, w: WalletId, token: Token, now: int)
    requires RowsKnown(db) && UserIndexUnique(db.wallets) && KeysAttached(db, kms) && w in kms
    requires forall v :: v in kms && v != w ==> kms[v].opaqueReference != kms[w].opaqueReference
    requires CompleteTx(db, w, token, kms[w], now).Finalized?
    ensures KeysAttached(CompleteTx(db, w, token, kms[w], now).db, kms)
  {
    var db' := CompleteTx(db, w, token, kms[w], now).db;
    forall v | v in db'.wallets ensures CarriesKey(db', kms, v) {
      assert CarriesKey(db, kms, v);
    }
  }

  lemma CompletionKeepsAddresses(db: Db, nextKey: PublicKey, w: WalletId, token: Token, m: StoredKey, now: int)
    requires AddressesValid(db.users, nextKey) && m.publicKey < nextKey
    requires CompleteTx(db, w, token, m, now).Finalized?
    ensures AddressesValid(CompleteTx(db, w, token, m, now).db.users, nextKey)
  {
    var db' := CompleteTx(db, w, token, m, now).db;
    forall u, p: PublicKey | HasAddress(db'.users, u, p)
      ensures if u == db.wallets[w].userId then p == m.publicKey else HasAddress(db.users, u, p) && p != m.publicKey
    {}
  }

  lemma CompletionKeepsAudit(db: Db, w: WalletId, token: Token, m: StoredKey, now: int)
    requires AuditValid(db) && CompleteTx(db, w, token, m, now).Finalized?
    ensures AuditValid(CompleteTx(db, w, token, m, now).db)
  {
  }

  lemma NothingGrows(s: System)
    ensures Grows(s, s)
  {
  }

  lemma FinalizedIsSound(db: Db, w: WalletId, token: Token, m: StoredKey, now: int)
    requires TablesValid(db) && DeadLettersSpent(db) && AuditValid(db)
    requires CompleteTx(db, w, token, m, now).Finalized?
    ensures var db' := CompleteTx(db, w, token, m, now).db;
      TablesValid(db') && TablesMoved(db, db') && DeadLettersSpent(db') && AuditValid(db') &&
      db'.wallets.Keys == db.wallets.Keys
  {
    assert DeadLettersSpent(CompleteTx(db, w, token, m, now).db);
    hide UserIndexUnique, RowsKnown, RowsPaired, TokensFresh, TablesMoved, KeyTaken, AuditValid, DeadLettersSpent;
    CompleteKeepsTables(db, w, token, m, now);
    CompletionKeepsAudit(db, w, token, m, now);
  }

  lemma FinalizedKeys(s: System, w: WalletId, token: Token, now: int)
    requires Inv(s) && w in s.kms
    requires CompleteTx(s.db, w, token, s.kms[w], now).Finalized?
    ensures var db' := CompleteTx(s.db, w, token, s.kms[w], now).db;
      KeysAttached(db', s.kms) && AddressesValid(db'.users, s.nextKey)
  {
    hide RowsKnown, RowsPaired, TokensFresh, KeyTaken, UserIndexUnique;
    hide LogValid, KeysAttached, AddressesValid, AuditValid, ClientsValid, DeadLettersSpent, CompleteTx;
    CompletionAttachesKey(s.db, s.kms, w, token, now);
    CompletionKeepsAddresses(s.db, s.nextKey, w, token, s.kms[w], now);
  }

  lemma FinalizedKeepsInv(s: System, w: WalletId, token: Token, now: int)
    requires Inv(s) && w in s.kms
    requires CompleteTx(s.db, w, token, s.kms[w], now).Finalized?
    ensures Inv(CompleteEffect(s, w, token, s.kms[w], now))
    ensures Grows(s, CompleteEffect(s, w, token, s.kms[w], now))
  {
    var t := CompleteEffect(s, w, token, s.kms[w], now);
    hide TablesValid, TablesMoved, CompleteTx, KmsValid, DeadLettersSpent;
    hide OwnersValid, LogValid, KeysAttached, AddressesValid, AuditValid, ClientsValid, Grows;
    FinalizedIsSound(s.db, w, token, s.kms[w], now);
    FinalizedKeys(s, w, token, now);
    DbStepGrows(s, t);
    ClientsStayValid(s, t);
  }

  lemma CompleteKeepsInv(s: System, w: WalletId, token: Token, m: StoredKey, now: int)
    requires Inv(s) && Holds(s.kms, w, m)
    ensures Inv(CompleteEffect(s, w, token, m, now))
    ensures Grows(s, CompleteEffect(s, w, token, m, now))
  {
    hide Inv, Grows, CompleteTx;
    if CompleteTx(s.db, w, token, m, now).Finalized? {
      FinalizedKeepsInv(s, w, token, now);
    } else {
      NothingGrows(s);
    }
  }

  lemma CompleteReportsKey(s: System, w: WalletId, token: Token, m: StoredKey, now: int)
    requires KeysAttached(s.db, s.kms) && Holds(s.kms, w, m)
    requires CompleteTx(s.db, w, token, m, now).Finalized? || CompleteTx(s.db, w, token, m, now).AlreadyActive?
    ensures ResultValid(CompleteEffect(s, w, token, m, now), CompletedResult(w, m.publicKey))
  {
    assert CarriesKey(s.db, s.kms, w);
  }

  // ----- storing -----

  lemma StoreKeepsKms(s: System, w: WalletId, p: PublicKey, provider: string, keyVersion: Option<string>)
    requires KmsValid(s.kms, s.keyOwner, s.db.wallets.Keys, s.nextReference)
    requires w in s.db.wallets && Owns(s.keyOwner, w, p)
    ensures var t := KmsStore(s, w, p, provider, keyVersion);
      KmsValid(t.kms, t.keyOwner, t.db.wallets.Keys, t.nextReference)
  {
  }

  lemma StoreKeepsLog(s: System, w: WalletId, p: PublicKey, provider: string, keyVersion: Option<string>)
    requires LogValid(s.kms, s.storeLog)
    ensures var t := KmsStore(s, w, p, provider, keyVersion); LogValid(t.kms, t.storeLog)
  {
    var t := KmsStore(s, w, p, provider, keyVersion);
    if w !in s.kms {
      assert forall i :: 0 <= i < |s.storeLog| ==> Holds(s.kms, s.storeLog[i].0, s.storeLog[i].1);
      forall v | v in t.kms ensures (v, t.kms[v]) in t.storeLog {
        if v == w {
          assert t.storeLog[|s.storeLog|] == (w, t.kms[w]);
        } else {
          assert (v, s.kms[v]) in s.storeLog;
        }
      }
    }
  }

  lemma StoreKeepsAttached(s: System, w: WalletId, p: PublicKey, provider: string, keyVersion: Option<string>)
    requires KeysAttached(s.db, s.kms)
    ensures KeysAttached(s.db, KmsStore(s, w, p, provider, keyVersion).kms)
  {
    var t := KmsStore(s, w, p, provider, keyVersion);
    forall v | v in s.db.wallets ensures CarriesKey(s.db, t.kms, v) {
      assert CarriesKey(s.db, s.kms, v);
    }
  }

  lemma StoreKeepsInv(s: System, w: WalletId, p: PublicKey, provider: string, keyVersion: Option<string>)
    requires Inv(s) && w in s.db.wallets && Owns(s.keyOwner, w, p)
    ensures Inv(KmsStore(s, w, p, provider, keyVersion))
    ensures Grows(s, KmsStore(s, w, p, provider, keyVersion))
  {
    hide TablesValid, DeadLettersSpent, KmsValid, LogValid, KeysAttached, AddressesValid, AuditValid, ClientsValid;
    var t := KmsStore(s, w, p, provider, keyVersion);
    StoreKeepsKms(s, w, p, provider, keyVersion);
    StoreKeepsLog(s, w, p, provider, keyVersion);
    StoreKeepsAttached(s, w, p, provider, keyVersion);
    hide TablesMoved;
    NothingMoved(s.db);
    ClientsStayValid(s, t);
  }

  lemma EffectKeepsInv(s: System, m: Message)
    requires Inv(s) && MessageValid(s, m)
    ensures Inv(Effect(s, m)) && Grows(s, Effect(s, m))
  {
    hide Inv, Grows, KmsStore, CompleteEffect;
    match m
    case StoreRequest(w, p, provider, keyVersion) => StoreKeepsInv(s, w, p, provider, keyVersion);
    case CompleteRequest(w, token, material, now) => CompleteKeepsInv(s, w, token, material, now);
    case FailureRequest(w, token, code, retryAt, now) =>
      FailureEffectKeepsInv(s, w, token, code, retryAt, now);
  }

  lemma FailureEffectKeepsInv(
    s: System, w: WalletId, token: Token, code: FailureCode, retryAt: Option<int>, now: int)
    requires Inv(s) && (retryAt.None? ==> Spent(s.db, w))
    ensures var t := s.(db := RecordFailureTx(s.db, w, token, code, retryAt, now)); Inv(t) && Grows(s, t)
  {
    hide RecordFailureTx, QuietStep;
    TablesAreValid(s);
    hide Inv, Grows, TablesValid;
    FailureIsQuiet(s.db, w, token, code, retryAt, now);
    QuietKeepsInv(s, s.(db := RecordFailureTx(s.db, w, token, code, retryAt, now)));
  }

  // ----- steps of the handler that touch only its own call -----

  /** Only calls, messages and results change, and what is new is valid. */
  ghost predicate ClientStep(s: System, t: System) {
    && t == s.(calls := t.calls, transit := t.transit, results := t.results, nextCall := t.nextCall)
    && s.results <= t.results && s.nextCall <= t.nextCall
    && (forall c :: c in t.calls && !(c in s.calls && s.calls[c] == t.calls[c])
          ==> c < t.nextCall && CallValid(s, t.calls[c]))
    && (forall m :: m in t.transit && m !in s.transit ==> MessageValid(s, m))
    && (forall r :: r in t.results && r !in s.results ==> ResultValid(s, r))
  }

  lemma ClientStepKeepsClients(s: System, t: System)
    requires ClientsValid(s) && ClientStep(s, t)
    ensures ClientsValid(t)
  {
    forall c | c in t.calls ensures c < t.nextCall && CallValid(t, t.calls[c]) {
      assert CallValid(s, t.calls[c]);
    }
    forall m | m in t.transit ensures MessageValid(t, m) {
      assert MessageValid(s, m);
    }
    forall r | r in t.results ensures ResultValid(t, r) {
      assert ResultValid(s, r);
    }
  }

  lemma ClientStepKeepsInv(s: System, t: System)
    requires Inv(s) && ClientStep(s, t)
    ensures Inv(t) && Grows(s, t)
  {
    assert Grows(s, t) by {
      hide KmsValid, LogValid, KeysAttached, AddressesValid, AuditValid, ClientsValid, TablesValid, DeadLettersSpent;
    }
    hide TablesValid, DeadLettersSpent, KmsValid, LogValid, KeysAttached, AddressesValid, AuditValid;
    hide ClientsValid, Grows;
    ClientStepKeepsClients(s, t);
  }

  lemma CallIsValid(s: System, c: CallId)
    requires Inv(s) && c in s.calls
    ensures c < s.nextCall && CallValid(s, s.calls[c])
  {
    hide TablesValid, DeadLettersSpent, KmsValid, OwnersValid, LogValid, KeysAttached, AddressesValid, AuditValid;
  }

  lemma TablesAreValid(s: System)
    requires Inv(s)
    ensures TablesValid(s.db) && KeysAttached(s.db, s.kms)
  {
    hide TablesValid, DeadLettersSpent, KmsValid, OwnersValid, LogValid, KeysAttached, AddressesValid, AuditValid;
    hide ClientsValid;
  }

  lemma AddressesAreValid(s: System)
    requires Inv(s)
    ensures AddressesValid(s.db.users, s.nextKey)
  {
    hide TablesValid, DeadLettersSpent, KmsValid, OwnersValid, LogValid, KeysAttached, AuditValid, ClientsValid;
  }

  lemma SetStageKeepsInv(s: System, c: CallId, stage: Stage)
    requires Inv(s) && c in s.calls && CallValid(s, s.calls[c].(stage := stage))
    ensures Inv(SetStage(s, c, stage)) && Grows(s, SetStage(s, c, stage))
  {
    hide Inv, Grows, CallValid;
    CallIsValid(s, c);
    ClientStepKeepsInv(s, SetStage(s, c, stage));
  }

  lemma FinishKeepsInv(s: System, c: CallId, r: HandleResult)
    requires Inv(s) && ResultValid(s, r)
    ensures Inv(Finish(s, c, r)) && Grows(s, Finish(s, c, r))
  {
    hide Inv, Grows;
    ClientStepKeepsInv(s, Finish(s, c, r));
  }

  lemma SendKeepsInv(s: System, m: Message)
    requires Inv(s) && MessageValid(s, m)
    ensures Inv(Sent(s, m)) && Grows(s, Sent(s, m))
  {
    hide Inv, Grows;
    ClientStepKeepsInv(s, Sent(s, m));
  }

  lemma LookupKeepsInv(s: System, c: CallId, absent: Stage)
    requires Inv(s) && c in s.calls && (absent.Generating? || absent.Repairing? || absent.Failing?)
    ensures Inv(AfterLookup(s, c, absent)) && Grows(s, AfterLookup(s, c, absent))
  {
    hide Inv, Grows, SetStage;
    CallIsValid(s, c);
    var w := s.calls[c].claim.walletId;
    SetStageKeepsInv(s, c, if w in s.kms then Finalizing(s.kms[w]) else absent);
  }

  // ----- every action -----

  /** Two steps in a row, where only the first changes the database. */
  lemma GrowsThen(s: System, t: System, u: System)
    requires Grows(s, t) && Grows(t, u) && t.db == u.db
    ensures Grows(s, u)
  {
  }

  lemma ClaimedKeepsInv(s: System, w: WalletId, now: int, leaseMs: int)
    requires Inv(s) && CanClaim(s.db, w, now)
    ensures Inv(Claimed(s, w, now, leaseMs)) && Grows(s, Claimed(s, w, now, leaseMs))
  {
    hide Inv, Grows, QuietStep, TablesValid, KeysAttached, Claimable;
    var t := s.(db := ClaimTx(s.db, w, now, leaseMs));
    var u := Claimed(s, w, now, leaseMs);
    TablesAreValid(s);
    ClaimIsQuiet(s.db, w, now, leaseMs);
    QuietKeepsInv(s, t);
    ClientStepKeepsInv(t, u);
    GrowsThen(s, t, u);
  }

  lemma WithKeyKeepsInv(s: System, w: WalletId)
    requires Inv(s)
    ensures Inv(WithKey(s, w)) && Grows(s, WithKey(s, w))
  {
    hide UserIndexUnique, RowsKnown, RowsPaired, TokensFresh, RowsMoved, TokensNotReissued;
    hide DeadLettersSpent, LogValid, KeysAttached, AuditValid;
    var t := WithKey(s, w);
    NothingMoved(s.db);
    ClientsStayValid(s, t);
  }

  lemma GenerateKeepsInv(s: System, c: CallId)
    requires Inv(s) && c in s.calls
    ensures Inv(AfterGenerate(s, c)) && Grows(s, AfterGenerate(s, c))
  {
    hide Inv, Grows, SetStage;
    var t := WithKey(s, s.calls[c].claim.walletId);
    WithKeyKeepsInv(s, s.calls[c].claim.walletId);
    CallIsValid(t, c);
    SetStageKeepsInv(t, c, Storing(s.nextKey));
    GrowsThen(s, t, AfterGenerate(s, c));
  }

  lemma StoreStepKeepsInv(s: System, c: CallId, provider: string, keyVersion: Option<string>, replied: bool)
    requires Inv(s) && c in s.calls && s.calls[c].stage.Storing?
    ensures Inv(AfterStore(s, c, provider, keyVersion, replied))
    ensures Grows(s, AfterStore(s, c, provider, keyVersion, replied))
  {
    hide Inv, Grows, SetStage;
    var w := s.calls[c].claim.walletId;
    var p := s.calls[c].stage.publicKey;
    CallIsValid(s, c);
    var t, u := KmsStore(s, w, p, provider, keyVersion), Sent(s, StoreRequest(w, p, provider, keyVersion));
    if replied {
      StoreKeepsInv(s, w, p, provider, keyVersion);
      LookupKeepsInv(t, c, Repairing);
      GrowsThen(s, t, AfterLookup(t, c, Repairing));
    } else {
      SendKeepsInv(s, StoreRequest(w, p, provider, keyVersion));
      CallIsValid(u, c);
      SetStageKeepsInv(u, c, Repairing);
      GrowsThen(s, u, SetStage(u, c, Repairing));
    }
  }

  lemma CompleteUnansweredKeepsInv(s: System, c: CallId, now: int)
    requires Inv(s) && c in s.calls && s.calls[c].stage.Finalizing?
    ensures Inv(AfterComplete(s, c, now, false)) && Grows(s, AfterComplete(s, c, now, false))
  {
    hide Inv, Grows, SetStage, CompleteTx;
    CallIsValid(s, c);
    var claim := s.calls[c].claim;
    var request := CompleteRequest(claim.walletId, claim.token, s.calls[c].stage.material, now);
    var t := Sent(s, request);
    SendKeepsInv(s, request);
    CallIsValid(t, c);
    SetStageKeepsInv(t, c, Failing(DatabaseFinalizationFailed));
    GrowsThen(s, t, SetStage(t, c, Failing(DatabaseFinalizationFailed)));
  }

  lemma CompleteAnsweredKeepsInv(s: System, c: CallId, now: int)
    requires Inv(s) && c in s.calls && s.calls[c].stage.Finalizing?
    ensures Inv(AfterComplete(s, c, now, true)) && Grows(s, AfterComplete(s, c, now, true))
  {
    hide Inv, Grows, TablesValid, KeysAttached, SetStage, Finish, CompleteTx, ResultValid;
    CallIsValid(s, c);
    TablesAreValid(s);
    var claim := s.calls[c].claim;
    var m := s.calls[c].stage.material;
    var t := CompleteEffect(s, claim.walletId, claim.token, m, now);
    var outcome := CompleteTx(s.db, claim.walletId, claim.token, m, now);
    CompleteKeepsInv(s, claim.walletId, claim.token, m, now);
    if outcome.Finalized? || outcome.AlreadyActive? {
      CompleteReportsKey(s, claim.walletId, claim.token, m, now);
      FinishKeepsInv(t, c, CompletedResult(claim.walletId, m.publicKey));
      GrowsThen(s, t, Finish(t, c, CompletedResult(claim.walletId, m.publicKey)));
    } else {
      SetStageKeepsInv(s, c, Failing(DatabaseFinalizationFailed));
    }
  }

  lemma FailureStepKeepsInv(s: System, c: CallId, baseRetryMs: int, failedAt: int, now: int, replied: bool)
    requires Inv(s) && c in s.calls && s.calls[c].stage.Failing?
    ensures Inv(AfterFailure(s, c, baseRetryMs, failedAt, now, replied))
    ensures Grows(s, AfterFailure(s, c, baseRetryMs, failedAt, now, replied))
  {
    hide Inv, Grows, RecordFailureTx, Finish, Pow2;
    CallIsValid(s, c);
    var claim := s.calls[c].claim;
    var code := s.calls[c].stage.code;
    var request := FailureRequest(claim.walletId, claim.token, code, RetryAt(claim, baseRetryMs, failedAt), now);
    var result := if Terminal(claim) then DeadLetterResult(claim.walletId, code)
                  else RetryScheduledResult(claim.walletId, code);
    var t := if replied then Effect(s, request) else Sent(s, request);
    if replied { EffectKeepsInv(s, request); } else { SendKeepsInv(s, request); }
    FinishKeepsInv(t, c, result);
    GrowsThen(s, t, Finish(t, c, result));
  }

  lemma CrashKeepsInv(s: System, c: CallId)
    requires Inv(s)
    ensures Inv(s.(calls := s.calls - {c})) && Grows(s, s.(calls := s.calls - {c}))
  {
    hide Inv, Grows;
    ClientStepKeepsInv(s, s.(calls := s.calls - {c}));
  }

  lemma ReserveStepKeepsInv(s: System, u: UserId, network: string, now: int)
    requires Inv(s)
    ensures var t := s.(db := ReserveTx(s.db, u, network, now)); Inv(t) && Grows(s, t)
  {
    hide Inv, Grows, ReserveTx, QuietStep, TablesValid, KeysAttached;
    TablesAreValid(s);
    ReserveIsQuiet(s.db, u, network, now);
    QuietKeepsInv(s, s.(db := ReserveTx(s.db, u, network, now)));
  }

  lemma SetUserStepKeepsInv(s: System, u: UserId, isVerified: bool, latestConsent: Option<string>)
    requires Inv(s)
    ensures var t := s.(db := WithUser(s.db, u, isVerified, latestConsent)); Inv(t) && Grows(s, t)
  {
    hide Inv, Grows, QuietStep, TablesValid, KeysAttached;
    TablesAreValid(s);
    SetUserIsQuiet(s.db, u, isVerified, latestConsent);
    QuietKeepsInv(s, s.(db := WithUser(s.db, u, isVerified, latestConsent)));
  }

  lemma AddressMoves(db: Db, db': Db)
    requires TablesValid(db) && db' == db.(users := db'.users) && db.users.Keys <= db'.users.Keys
    ensures TablesValid(db') && TablesMoved(db, db')
  {
  }

  lemma SetAddressKeepsAddresses(s: System, u: UserId, address: Option<PublicKey>)
    requires AddressesValid(s.db.users, s.nextKey) && OwnersValid(s.keyOwner, s.nextKey)
    requires Enabled(s, SetAddress(u, address))
    ensures var t := WithAddress(s, u, address);
      AddressesValid(t.db.users, t.nextKey) && OwnersValid(t.keyOwner, t.nextKey)
  {
    var t := WithAddress(s, u, address);
    forall v, p: PublicKey | HasAddress(t.db.users, v, p)
      ensures if v == u then Some(p) == address else HasAddress(s.db.users, v, p) && Some(p) != address
    {}
  }

  lemma SameWalletsKeepKeys(db: Db, db': Db, kms: map<WalletId, StoredKey>)
    requires KeysAttached(db, kms) && db' == db.(users := db'.users)
    ensures KeysAttached(db', kms)
  {
    forall w | w in db'.wallets ensures CarriesKey(db', kms, w) { assert CarriesKey(db, kms, w); }
  }

  lemma SetAddressKeepsInv(s: System, u: UserId, address: Option<PublicKey>)
    requires Inv(s) && Enabled(s, SetAddress(u, address))
    ensures Inv(WithAddress(s, u, address)) && Grows(s, WithAddress(s, u, address))
  {
    var t := WithAddress(s, u, address);
    hide TablesValid, TablesMoved, KmsValid, OwnersValid, LogValid, KeysAttached, AddressesValid, ClientsValid;
    hide DeadLettersSpent, AuditValid, AddressTaken;
    SetAddressKeepsAddresses(s, u, address);
    SameWalletsKeepKeys(s.db, t.db, s.kms);
    AddressMoves(s.db, t.db);
    JobsAndAuditAside(s.db, t.db);
    ClientsStayValid(s, t);
  }

  lemma JobsAndAuditAside(db: Db, db': Db)
    requires db' == db.(users := db'.users) && DeadLettersSpent(db) && AuditValid(db)
    ensures DeadLettersSpent(db') && AuditValid(db')
  {
  }

  /** Every step keeps the invariant; keys are never replaced and every status write is an edge or a stutter. */
  lemma StepKeepsInv(s: System, a: Action)
    requires Inv(s)
    ensures Inv(Apply(s, a)) && Grows(s, Apply(s, a))
  {
    hide Grows, AfterLookup, AfterGenerate, AfterStore, AfterComplete, AfterFailure, SetStage, Claimed, Effect;
    hide ReserveTx, WithUser, WithAddress, UserIndexUnique, RowsKnown, RowsPaired, TokensFresh, RowsMoved;
    hide TokensNotReissued, DeadLettersSpent, KmsValid, OwnersValid, LogValid;
    hide KeysAttached, AddressesValid, AuditValid;
    NothingGrows(s);
    if Enabled(s, a) {
      match a
      case SetUser(u, isVerified, latestConsent) => SetUserStepKeepsInv(s, u, isVerified, latestConsent);
      case SetAddress(u, address) => SetAddressKeepsInv(s, u, address);
      case Reserve(u, network, now) => ReserveStepKeepsInv(s, u, network, now);
      case ClaimJob(w, now, leaseMs) => ClaimedKeepsInv(s, w, now, leaseMs);
      case Lookup(c, replied) =>
        if replied { LookupKeepsInv(s, c, Generating); }
        else { SetStageKeepsInv(s, c, Failing(KmsUnavailable)); }
      case Generate(c, succeeded) =>
        if succeeded { GenerateKeepsInv(s, c); }
        else { SetStageKeepsInv(s, c, Failing(KeyGenerationFailed)); }
      case Store(c, provider, keyVersion, replied) => StoreStepKeepsInv(s, c, provider, keyVersion, replied);
      case Repair(c, replied) =>
        if replied { LookupKeepsInv(s, c, Failing(KmsStoreUncertain)); }
        else { SetStageKeepsInv(s, c, Failing(KmsStoreUncertain)); }
      case Complete(c, now, replied) =>
        if replied { CompleteAnsweredKeepsInv(s, c, now); } else { CompleteUnansweredKeepsInv(s, c, now); }
      case RecordFailure(c, baseRetryMs, failedAt, now, replied) =>
        FailureStepKeepsInv(s, c, baseRetryMs, failedAt, now, replied);
      case Deliver(m) => EffectKeepsInv(s, m);
      case Crash(c) => CrashKeepsInv(s, c);
    }
  }
}
