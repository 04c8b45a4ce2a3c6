/** What holds in every interleaving of provisioning: the theorems about whole runs. */
module WalletSafety {
  import opened Wrappers
  import opened WalletRepository
  import opened WalletProtocol

  lemma {:induction false} RunKeepsInv(s: System, actions: seq<Action>)
    requires Inv(s)
    ensures Inv(Run(s, actions))
    decreases |actions|
  {
    if actions != [] {
      StepKeepsInv(s, actions[0]);
      RunKeepsInv(Apply(s, actions[0]), actions[1..]);
    }
  }

  lemma InitialHoldsInv()
    ensures Inv(Initial())
  {
  }

  // ----- safety of every reachable state -----

  /** The key store never wrote two keys for one wallet. */
  ghost predicate OneKeyPerWallet(s: System) {
    forall i, j :: 0 <= i < |s.storeLog| && 0 <= j < |s.storeLog| && s.storeLog[i].0 == s.storeLog[j].0 ==> i == j
  }

  /** Every `completed` result names an ACTIVE wallet and the one key stored for it. */
  ghost predicate CompletedResultsTrue(s: System) {
    forall r :: r in s.results && r.CompletedResult? ==>
      && r.walletId in s.db.wallets && r.walletId in s.kms
      && s.db.wallets[r.walletId].status.Active?
      && s.kms[r.walletId].publicKey == r.publicKey
  }

  /** No two ACTIVE wallets share a public key or a managed key. */
  ghost predicate KeysDistinct(s: System) {
    forall v, w :: v in s.db.wallets && w in s.db.wallets && v != w && s.db.wallets[v].status.Active?
      ==> s.db.wallets[v].publicKey != s.db.wallets[w].publicKey
          && s.db.wallets[v].managedKey != s.db.wallets[w].managedKey
  }

  /** No two users have the same address. */
  ghost predicate AddressesDistinct(s: System) {
    forall u, v, p: PublicKey :: HasAddress(s.db.users, u, p) && HasAddress(s.db.users, v, p) ==> u == v
  }

  lemma ActiveKeysDiffer(s: System, v: WalletId, w: WalletId)
    requires Inv(s) && v in s.db.wallets && w in s.db.wallets && v != w && s.db.wallets[v].status.Active?
    ensures s.db.wallets[v].publicKey != s.db.wallets[w].publicKey
    ensures s.db.wallets[v].managedKey != s.db.wallets[w].managedKey
  {
    hide TablesValid, LogValid, AddressesValid, AuditValid, ClientsValid, DeadLettersSpent;
    assert CarriesKey(s.db, s.kms, v) && CarriesKey(s.db, s.kms, w);
  }

  lemma InvIsSafe(s: System)
    requires Inv(s)
    ensures OneKeyPerWallet(s) && CompletedResultsTrue(s) && KeysDistinct(s)
  {
    forall v, w | v in s.db.wallets && w in s.db.wallets && v != w && s.db.wallets[v].status.Active?
      ensures s.db.wallets[v].publicKey != s.db.wallets[w].publicKey
      ensures s.db.wallets[v].managedKey != s.db.wallets[w].managedKey
    {
      ActiveKeysDiffer(s, v, w);
    }
    hide TablesValid, KmsValid, OwnersValid, AddressesValid, AuditValid, DeadLettersSpent;
    forall r | r in s.results && r.CompletedResult?
      ensures r.walletId in s.db.wallets && r.walletId in s.kms && s.db.wallets[r.walletId].status.Active?
      ensures s.kms[r.walletId].publicKey == r.publicKey
    {
      assert ResultValid(s, r);
      assert CarriesKey(s.db, s.kms, r.walletId);
    }
  }

  /**
   * In every interleaving at most one key is stored per wallet, an ACTIVE wallet carries exactly
   * that key, every `completed` result reports it, and a user has at most one wallet and shares the
   * address with nobody.
   */
  lemma ProvisioningIsSafe(actions: seq<Action>)
    ensures var s := Run(Initial(), actions);
      && OneKeyPerWallet(s)
      && (forall w :: w in s.db.wallets ==> CarriesKey(s.db, s.kms, w))
      && CompletedResultsTrue(s)
      && KeysDistinct(s)
      && UserIndexUnique(s.db.wallets)
      && AddressesDistinct(s)
  {
    InitialHoldsInv();
    RunKeepsInv(Initial(), actions);
    InvIsSafe(Run(Initial(), actions));
  }

  /** Wallet and job rows agree, and a FAILED wallet has used up its attempts. */
  ghost predicate RowsAgree(db: Db) {
    && db.wallets.Keys == db.jobs.Keys
    && forall w :: w in db.wallets ==>
         && Coupled(db.wallets[w], db.jobs[w])
         && (db.jobs[w].status.Completed? <==> db.wallets[w].status.Active?)
         && (db.jobs[w].status.DeadLetter? <==> db.wallets[w].status.Failed?)
         && (db.wallets[w].status.Failed? ==> db.jobs[w].attempts >= db.jobs[w].maxAttempts)
  }

  /** Wallets are created RESERVED, and each status moves along the declared map or not at all. */
  ghost predicate FollowsTheMap(db: Db, db': Db) {
    && db.wallets.Keys <= db'.wallets.Keys
    && (forall w :: w in db'.wallets && w !in db.wallets ==> db'.wallets[w].status.Reserved?)
    && (forall w :: w in db.wallets ==>
          || db'.wallets[w].status == db.wallets[w].status
          || CanTransition(db.wallets[w].status, db'.wallets[w].status))
  }

  lemma ValidRowsAgree(db: Db)
    requires RowsPaired(db) && DeadLettersSpent(db)
    ensures RowsAgree(db)
  {
  }

  lemma MovesFollowTheMap(db: Db, db': Db)
    requires TablesMoved(db, db')
    ensures FollowsTheMap(db, db')
  {
  }

  /**
   * In every reachable state wallet and job rows agree, and whatever happens next every status
   * write is an edge of the declared map or a stutter, although no transaction consults the map.
   */
  lemma RowsAgreeAndFollowTheMap(actions: seq<Action>, a: Action)
    ensures var s := Run(Initial(), actions);
      RowsAgree(s.db) && FollowsTheMap(s.db, Apply(s, a).db)
  {
    InitialHoldsInv();
    RunKeepsInv(Initial(), actions);
    var s := Run(Initial(), actions);
    hide Apply, RowsAgree, FollowsTheMap, RowsPaired, UserIndexUnique, RowsKnown, TokensFresh, TablesMoved;
    hide KmsValid, OwnersValid, LogValid, KeysAttached, AddressesValid, AuditValid, ClientsValid, DeadLettersSpent;
    StepKeepsInv(s, a);
    ValidRowsAgree(s.db);
    MovesFollowTheMap(s.db, Apply(s, a).db);
  }

  // ----- what a run can never undo -----

  /** Stored keys and ACTIVE wallets stay exactly as they are; a wallet stays with its user. */
  ghost predicate Endures(s: System, t: System) {
    && (forall w :: w in s.kms ==> w in t.kms && t.kms[w] == s.kms[w])
    && s.storeLog <= t.storeLog && s.results <= t.results
    && s.db.wallets.Keys <= t.db.wallets.Keys
    && (forall w :: w in s.db.wallets ==> t.db.wallets[w].userId == s.db.wallets[w].userId)
    && (forall w :: w in s.db.wallets && s.db.wallets[w].status.Active? ==> t.db.wallets[w] == s.db.wallets[w])
  }

  lemma GrowthEndures(s: System, t: System)
    requires Grows(s, t)
    ensures Endures(s, t)
  {
  }

  lemma EnduresTransitive(s: System, t: System, u: System)
    requires Endures(s, t) && Endures(t, u)
    ensures Endures(s, u)
  {
  }

  /** No later step of any run replaces a stored key, changes an ACTIVE wallet or gives its user another one. */
  lemma {:induction false} KeysAndActiveWalletsEndure(s: System, actions: seq<Action>)
    requires Inv(s)
    ensures Endures(s, Run(s, actions))
    decreases |actions|
  {
    hide Inv, Grows, Endures, Apply;
    if actions == [] {
      NothingGrows(s);
      GrowthEndures(s, s);
    } else {
      var t := Apply(s, actions[0]);
      StepKeepsInv(s, actions[0]);
      GrowthEndures(s, t);
      KeysAndActiveWalletsEndure(t, actions[1..]);
      EnduresTransitive(s, t, Run(t, actions[1..]));
    }
  }

  // ----- displaced workers -----

  ghost predicate Held(db: Db, token: Token) {
    exists w :: w in db.jobs && db.jobs[w].leaseToken == Some(token)
  }

  lemma {:induction false} SupersededForever(s: System, actions: seq<Action>, token: Token)
    requires Inv(s) && token < s.db.nextToken && !Held(s.db, token)
    ensures !Held(Run(s, actions).db, token)
    decreases |actions|
  {
    if actions != [] {
      hide Inv, Apply;
      var t := Apply(s, actions[0]);
      StepKeepsInv(s, actions[0]);
      assert TokensNotReissued(s.db.jobs, t.db.jobs, s.db.nextToken);
      SupersededForever(t, actions[1..], token);
    }
  }

  /** Once a lease has been lost, its holder can neither complete nor fail the job, at any later time. */
  lemma DisplacedWorkerChangesNothing(
    s: System, actions: seq<Action>, token: Token,
    w: WalletId, m: StoredKey, code: FailureCode, retryAt: Option<int>, now: int)
    requires Inv(s) && token < s.db.nextToken && !Held(s.db, token)
    ensures var t := Run(s, actions);
      && !CompleteTx(t.db, w, token, m, now).Finalized?
      && RecordFailureTx(t.db, w, token, code, retryAt, now) == t.db
  {
    SupersededForever(s, actions, token);
    hide Inv, Run;
    assert forall v :: v in Run(s, actions).db.jobs ==> Run(s, actions).db.jobs[v].leaseToken != Some(token);
  }

  // ----- recovery -----

  lemma RunCons(s: System, a: Action, rest: seq<Action>)
    ensures Run(s, [a] + rest) == Run(Apply(s, a), rest)
  {
    assert ([a] + rest)[1..] == rest;
  }

  /** Generate and store a key only if there is none, and finalize. */
  function Tail(s: System, c: CallId, w: WalletId, now: int): seq<Action> {
    (if w in s.kms then [] else [Generate(c, true), Store(c, "kms", None, true)]) + [Complete(c, now, true)]
  }

  /** Requeue, claim, look the key up, and go on from there. */
  function Recovery(s: System, w: WalletId, now: int): seq<Action>
    requires w in s.db.wallets
  {
    var c := s.nextCall;
    [Reserve(s.db.wallets[w].userId, s.db.wallets[w].network, now)]
    + ([ClaimJob(w, now, 60000)] + ([Lookup(c, true)] + Tail(s, c, w, now)))
  }

  lemma RequeueMakesClaimable(s: System, w: WalletId, now: int)
    requires Inv(s) && w in s.db.wallets && !s.db.wallets[w].status.Active?
    requires AssertEligible(s.db.users, s.db.wallets[w].userId) == Eligible
    ensures var t := Apply(s, Reserve(s.db.wallets[w].userId, s.db.wallets[w].network, now));
      && CanClaim(t.db, w, now) && t == s.(db := t.db)
      && t.db.users == s.db.users && t.db.wallets[w].userId == s.db.wallets[w].userId
  {
    hide KmsValid, OwnersValid, LogValid, KeysAttached, AddressesValid, AuditValid, ClientsValid, DeadLettersSpent;
    var found := FindByUser(s.db.wallets, s.db.wallets[w].userId);
    assert found == Some(w);
  }

  /** Another user has the stored key of the wallet as address. */
  ghost predicate KeyIsAddressed(s: System, w: WalletId)
    requires w in s.db.wallets
  {
    w in s.kms && AddressTaken(s.db.users, s.db.wallets[w].userId, s.kms[w].publicKey)
  }

  lemma FinishFrom(s: System, c: CallId, w: WalletId, now: int)
    requires Inv(s) && c in s.calls && w in s.db.wallets && w in s.kms && s.calls[c].claim.walletId == w
    requires s.calls[c].stage == Finalizing(s.kms[w])
    requires w in s.db.jobs && HoldsLease(s.db.jobs[w], s.calls[c].claim.token) && !s.db.wallets[w].status.Active?
    ensures var t := Apply(s, Complete(c, now, true));
      && w in t.db.wallets && (t.db.wallets[w].status.Active? <==> !KeyIsAddressed(s, w)) && t.kms == s.kms
  {
    hide Inv, KeyTaken, AddressTaken, KeysAttached, UserIndexUnique, RowsPaired, TokensFresh;
    KeyTakenExactlyWhenAddressed(s, w);
    TablesAreValid(s);
  }

  lemma ClaimHoldsLease(s: System, w: WalletId, now: int)
    requires Inv(s) && CanClaim(s.db, w, now)
    ensures var t := Apply(s, ClaimJob(w, now, 60000)); var c := s.nextCall;
      && c in t.calls && t.calls[c].claim.walletId == w && t.calls[c].stage.Looking?
      && w in t.db.jobs && HoldsLease(t.db.jobs[w], t.calls[c].claim.token)
      && w in t.db.wallets && t.db.wallets[w].status.Provisioning? && t.kms == s.kms
      && t.db.users == s.db.users && t.db.wallets[w].userId == s.db.wallets[w].userId
  {
    hide Inv;
  }

  lemma LookupFinds(s: System, c: CallId, w: WalletId)
    requires c in s.calls && s.calls[c].claim.walletId == w && s.calls[c].stage.Looking?
    ensures var t := Apply(s, Lookup(c, true));
      && t == s.(calls := t.calls) && c in t.calls
      && t.calls[c] == Call(s.calls[c].claim, if w in s.kms then Finalizing(s.kms[w]) else Generating)
  {
  }

  lemma NewKeyIsNoAddress(s: System, owner: UserId)
    requires Inv(s)
    ensures !AddressTaken(s.db.users, owner, s.nextKey)
  {
    hide TablesValid, KmsValid, LogValid, KeysAttached, AuditValid, ClientsValid, DeadLettersSpent;
    forall v | v in s.db.users ensures s.db.users[v].walletAddress != Some(s.nextKey) {
      assert !HasAddress(s.db.users, v, s.nextKey);
    }
  }

  lemma GenerateMeans(s: System, c: CallId)
    requires c in s.calls && s.calls[c].stage.Generating?
    ensures var t := Apply(s, Generate(c, true));
      t.db == s.db && t.kms == s.kms && c in t.calls && t.calls[c] == s.calls[c].(stage := Storing(s.nextKey))
  {
  }

  lemma StoreMeans(s: System, c: CallId, w: WalletId, p: PublicKey)
    requires c in s.calls && s.calls[c].claim.walletId == w && s.calls[c].stage == Storing(p) && w !in s.kms
    ensures var t := Apply(s, Store(c, "kms", None, true));
      && t.db == s.db && c in t.calls && w in t.kms && t.kms[w].publicKey == p
      && t.calls[c] == s.calls[c].(stage := Finalizing(t.kms[w]))
  {
  }

  lemma StoreFrom(s: System, c: CallId, w: WalletId)
    requires Inv(s) && c in s.calls && s.calls[c].claim.walletId == w && s.calls[c].stage.Generating?
    requires w !in s.kms && w in s.db.wallets
    ensures var t := Apply(Apply(s, Generate(c, true)), Store(c, "kms", None, true));
      && Inv(t) && t.db == s.db && c in t.calls && w in t.kms
      && t.calls[c] == Call(s.calls[c].claim, Finalizing(t.kms[w]))
      && !KeyIsAddressed(t, w)
  {
    hide Inv, Grows, Apply, AddressTaken;
    NewKeyIsNoAddress(s, s.db.wallets[w].userId);
    GenerateMeans(s, c);
    StoreMeans(Apply(s, Generate(c, true)), c, w, s.nextKey);
    StepKeepsInv(s, Generate(c, true));
    StepKeepsInv(Apply(s, Generate(c, true)), Store(c, "kms", None, true));
  }

  /**
   * From every reachable state, a wallet that is not yet ACTIVE and whose user is eligible is
   * brought to ACTIVE by a requeue and one handler call, with the key already stored if there is
   * one, exactly when no other user has that key as address.
   */
  lemma RecoveryActivates(s: System, w: WalletId, now: int)
    requires Inv(s) && w in s.db.wallets && !s.db.wallets[w].status.Active?
    requires AssertEligible(s.db.users, s.db.wallets[w].userId) == Eligible
    ensures var t := Run(s, Recovery(s, w, now));
      && w in t.db.wallets && (t.db.wallets[w].status.Active? <==> !KeyIsAddressed(s, w))
      && w in t.kms && (w in s.kms ==> t.kms[w] == s.kms[w])
  {
    hide Inv, Grows, CanClaim, HoldsLease, Apply, AssertEligible, AddressTaken;
    var c := s.nextCall;
    var tail := Tail(s, c, w, now);
    var reserve := Reserve(s.db.wallets[w].userId, s.db.wallets[w].network, now);
    RequeueMakesClaimable(s, w, now);
    StepKeepsInv(s, reserve);
    var s1 := Apply(s, reserve);
    ClaimHoldsLease(s1, w, now);
    StepKeepsInv(s1, ClaimJob(w, now, 60000));
    var s2 := Apply(s1, ClaimJob(w, now, 60000));
    LookupFinds(s2, c, w);
    StepKeepsInv(s2, Lookup(c, true));
    var s3 := Apply(s2, Lookup(c, true));
    RunCons(s, reserve, [ClaimJob(w, now, 60000)] + ([Lookup(c, true)] + tail));
    RunCons(s1, ClaimJob(w, now, 60000), [Lookup(c, true)] + tail);
    RunCons(s2, Lookup(c, true), tail);
    TailActivates(s3, c, w, now, tail);
  }

  lemma TailActivates(s: System, c: CallId, w: WalletId, now: int, tail: seq<Action>)
    requires Inv(s) && c in s.calls && s.calls[c].claim.walletId == w && w in s.db.wallets
    requires w in s.db.jobs && HoldsLease(s.db.jobs[w], s.calls[c].claim.token) && !s.db.wallets[w].status.Active?
    requires s.calls[c].stage == if w in s.kms then Finalizing(s.kms[w]) else Generating
    requires tail == Tail(s, c, w, now)
    ensures var t := Run(s, tail);
      && w in t.db.wallets && (t.db.wallets[w].status.Active? <==> !KeyIsAddressed(s, w))
      && w in t.kms && (w in s.kms ==> t.kms == s.kms)
  {
    hide Inv, Grows, HoldsLease, Apply, AddressTaken;
    if w in s.kms {
      FinishFrom(s, c, w, now);
      assert tail == [Complete(c, now, true)] + [];
      RunCons(s, Complete(c, now, true), []);
    } else {
      StoreFrom(s, c, w);
      var generate, store := Generate(c, true), Store(c, "kms", None, true);
      var t := Apply(Apply(s, generate), store);
      FinishFrom(t, c, w, now);
      assert tail == [generate] + ([store] + ([Complete(c, now, true)] + []));
      RunCons(s, generate, [store] + ([Complete(c, now, true)] + []));
      RunCons(Apply(s, generate), store, [Complete(c, now, true)] + []);
      RunCons(t, Complete(c, now, true), []);
    }
  }

  /** The only user who has that key as address gives it up. */
  lemma GivenUpAddressIsFree(s: System, w: WalletId, v: UserId)
    requires Inv(s) && w in s.db.wallets && w in s.kms && v != s.db.wallets[w].userId
    requires HasAddress(s.db.users, v, s.kms[w].publicKey)
    ensures var t := Apply(s, SetAddress(v, None));
      && t.db == s.db.(users := t.db.users) && t.kms == s.kms && !KeyIsAddressed(t, w)
      && AssertEligible(t.db.users, s.db.wallets[w].userId) == AssertEligible(s.db.users, s.db.wallets[w].userId)
  {
    hide TablesValid, KmsValid, LogValid, KeysAttached, AuditValid, ClientsValid, DeadLettersSpent;
    var p := s.kms[w].publicKey;
    forall u | u in s.db.users && u != v ensures s.db.users[u].walletAddress != Some(p) {
      assert !HasAddress(s.db.users, u, p);
    }
  }

  ghost predicate CanBecomeActive(s: System, w: WalletId) {
    exists actions :: Activates(s, actions, w)
  }

  ghost predicate Activates(s: System, actions: seq<Action>, w: WalletId) {
    var t := Run(s, actions); w in t.db.wallets && t.db.wallets[w].status.Active?
  }

  /** Nothing is stuck for good: from every reachable state the wallet of an eligible user can become ACTIVE. */
  lemma NothingIsStuck(s: System, w: WalletId)
    requires Inv(s) && w in s.db.wallets && AssertEligible(s.db.users, s.db.wallets[w].userId) == Eligible
    ensures CanBecomeActive(s, w)
  {
    hide Inv, Grows, Apply, AssertEligible, AddressTaken, Recovery;
    if s.db.wallets[w].status.Active? {
      assert Activates(s, [], w);
    } else if KeyIsAddressed(s, w) {
      var v := Addressee(s, w);
      var t := Apply(s, SetAddress(v, None));
      GivenUpAddressIsFree(s, w, v);
      StepKeepsInv(s, SetAddress(v, None));
      RecoveryActivates(t, w, 0);
      RunCons(s, SetAddress(v, None), Recovery(t, w, 0));
      assert Activates(s, [SetAddress(v, None)] + Recovery(t, w, 0), w);
    } else {
      RecoveryActivates(s, w, 0);
      assert Activates(s, Recovery(s, w, 0), w);
    }
  }

  lemma Addressee(s: System, w: WalletId) returns (v: UserId)
    requires w in s.db.wallets && KeyIsAddressed(s, w)
    ensures v != s.db.wallets[w].userId && HasAddress(s.db.users, v, s.kms[w].publicKey)
  {
    v :| v in s.db.users && v != s.db.wallets[w].userId && s.db.users[v].walletAddress == Some(s.kms[w].publicKey);
  }

  // ----- the address of a user whose wallet is ACTIVE -----

  /** A user whose wallet is ACTIVE has its key as address. */
  ghost predicate HasOwnKey(db: Db, u: UserId) {
    forall w :: w in db.wallets && db.wallets[w].userId == u && db.wallets[w].status.Active?
      ==> u in db.users && db.users[u].walletAddress == db.wallets[w].publicKey
  }

  lemma QuietKeepsOwnKey(db: Db, db': Db, u: UserId)
    requires HasOwnKey(db, u) && ColumnsKept(db, db')
    ensures HasOwnKey(db', u)
  {
    forall w | w in db'.wallets ensures KeyColumnsKept(db, db', w) {}
  }

  lemma CompletionKeepsOwnKey(db: Db, w: WalletId, token: Token, m: StoredKey, now: int, u: UserId)
    requires HasOwnKey(db, u) && UserIndexUnique(db.wallets) && CompleteTx(db, w, token, m, now).Finalized?
    ensures HasOwnKey(CompleteTx(db, w, token, m, now).db, u)
  {
  }

  lemma EffectKeepsOwnKey(s: System, m: Message, u: UserId)
    requires Inv(s) && HasOwnKey(s.db, u)
    ensures HasOwnKey(Effect(s, m).db, u)
  {
    TablesAreValid(s);
    hide Inv, HasOwnKey, CompleteTx, RecordFailureTx;
    match m
    case StoreRequest(_, _, _, _) =>
    case CompleteRequest(w, token, material, now) =>
      if CompleteTx(s.db, w, token, material, now).Finalized? {
        CompletionKeepsOwnKey(s.db, w, token, material, now, u);
      }
    case FailureRequest(w, token, code, retryAt, now) =>
      FailureKeepsColumns(s.db, w, token, code, retryAt, now);
      QuietKeepsOwnKey(s.db, RecordFailureTx(s.db, w, token, code, retryAt, now), u);
  }

  lemma AddressChangeKeepsOwnKey(s: System, v: UserId, address: Option<PublicKey>, u: UserId)
    requires HasOwnKey(s.db, u) && v != u && Enabled(s, SetAddress(v, address))
    ensures HasOwnKey(Apply(s, SetAddress(v, address)).db, u)
  {
  }

  lemma CompleteKeepsOwnKey(s: System, c: CallId, now: int, replied: bool, u: UserId)
    requires Inv(s) && HasOwnKey(s.db, u) && c in s.calls && s.calls[c].stage.Finalizing?
    ensures HasOwnKey(AfterComplete(s, c, now, replied).db, u)
  {
    TablesAreValid(s);
    hide Inv, HasOwnKey, CompleteTx, SetStage, Finish;
    var claim, m := s.calls[c].claim, s.calls[c].stage.material;
    if CompleteTx(s.db, claim.walletId, claim.token, m, now).Finalized? {
      CompletionKeepsOwnKey(s.db, claim.walletId, claim.token, m, now, u);
    }
  }

  lemma FailureKeepsOwnKey(
      s: System, c: CallId, baseRetryMs: int, failedAt: int, now: int, replied: bool, u: UserId)
    requires Inv(s) && HasOwnKey(s.db, u) && c in s.calls && s.calls[c].stage.Failing?
    ensures HasOwnKey(AfterFailure(s, c, baseRetryMs, failedAt, now, replied).db, u)
  {
    hide Inv, HasOwnKey, Effect, Finish, Pow2;
    var claim, code := s.calls[c].claim, s.calls[c].stage.code;
    EffectKeepsOwnKey(
      s, FailureRequest(claim.walletId, claim.token, code, RetryAt(claim, baseRetryMs, failedAt), now), u);
  }

  lemma TablesKeepOwnKey(s: System, a: Action, u: UserId)
    requires TablesValid(s.db) && HasOwnKey(s.db, u) && Enabled(s, a) && (a.SetUser? || a.Reserve? || a.ClaimJob?)
    ensures HasOwnKey(Apply(s, a).db, u)
  {
    hide HasOwnKey, ColumnsKept, ReserveTx, WithUser, ClaimTx, TokensFresh, UserIndexUnique, TablesMoved;
    match a {
      case SetUser(v, isVerified, latestConsent) => SetUserIsQuiet(s.db, v, isVerified, latestConsent);
      case Reserve(v, network, now) => ReserveKeepsColumns(s.db, v, network, now);
      case ClaimJob(w, now, leaseMs) => ClaimKeepsColumns(s.db, w, now, leaseMs);
    }
    QuietKeepsOwnKey(s.db, Apply(s, a).db, u);
  }

  lemma CallsKeepOwnKey(s: System, a: Action, u: UserId)
    requires Inv(s) && HasOwnKey(s.db, u) && Enabled(s, a) && (a.Complete? || a.RecordFailure? || a.Deliver?)
    ensures HasOwnKey(Apply(s, a).db, u)
  {
    hide Inv, HasOwnKey, AfterComplete, AfterFailure, Effect, SetStage;
    match a
    case Complete(c, now, replied) => CompleteKeepsOwnKey(s, c, now, replied, u);
    case RecordFailure(c, baseRetryMs, failedAt, now, replied) =>
      FailureKeepsOwnKey(s, c, baseRetryMs, failedAt, now, replied, u);
    case Deliver(m) => EffectKeepsOwnKey(s, m, u);
  }

  lemma StepKeepsOwnKey(s: System, a: Action, u: UserId)
    requires Inv(s) && HasOwnKey(s.db, u) && !(a.SetAddress? && a.u == u)
    ensures HasOwnKey(Apply(s, a).db, u)
  {
    TablesAreValid(s);
    if !Enabled(s, a) {
      assert Apply(s, a) == s;
    } else if a.Lookup? || a.Generate? || a.Store? || a.Repair? || a.Crash? {
      StoresAside(s, a);
    } else {
      hide Inv, HasOwnKey, TablesValid, KeysAttached, Apply;
      if a.SetAddress? {
        AddressChangeKeepsOwnKey(s, a.u, a.address, u);
      } else if a.SetUser? || a.Reserve? || a.ClaimJob? {
        TablesKeepOwnKey(s, a, u);
      } else {
        CallsKeepOwnKey(s, a, u);
      }
    }
  }

  lemma StoresAside(s: System, a: Action)
    requires a.Lookup? || a.Generate? || a.Store? || a.Repair? || a.Crash?
    ensures Apply(s, a).db == s.db
  {
  }

  lemma {:induction false} RunKeepsOwnKey(s: System, actions: seq<Action>, u: UserId)
    requires Inv(s) && HasOwnKey(s.db, u) && forall address :: SetAddress(u, address) !in actions
    ensures HasOwnKey(Run(s, actions).db, u)
    decreases |actions|
  {
    if actions != [] {
      StepKeepsInv(s, actions[0]);
      assert actions[0] in actions && !(actions[0].SetAddress? && actions[0].u == u);
      StepKeepsOwnKey(s, actions[0], u);
      hide Inv, Apply, Grows, HasOwnKey;
      RunKeepsOwnKey(Apply(s, actions[0]), actions[1..], u);
    }
  }

  /** Only the user's own change of address, or erasure, parts a user from the key of the ACTIVE wallet. */
  lemma AddressIsKeyUntilChanged(actions: seq<Action>, u: UserId)
    requires forall address :: SetAddress(u, address) !in actions
    ensures HasOwnKey(Run(Initial(), actions).db, u)
  {
    InitialHoldsInv();
    RunKeepsOwnKey(Initial(), actions, u);
  }
}
