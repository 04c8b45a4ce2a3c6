/**
 * The reward ledger.  A withdrawal is two steps, with the payment in between: it reserves the
 * amount, and later completes or fails.  Claims pay first and are recorded afterwards.  An action
 * is one uninterrupted piece of code, so a sequence of actions is one overlap of such calls.
 */
module Ledger {
  import opened Wrappers

  type UserId = nat
  type ModuleId = nat
  type TxId = nat
  type ClaimId = nat

  datatype TxKind = ModuleReward | StreakBonus | ReferralReward | Withdrawal

  datatype TxStatus = Pending | Completed | Failed

  datatype Tx = Tx(id: TxId, userId: UserId, moduleId: Option<ModuleId>, amount: int, kind: TxKind, status: TxStatus)

  datatype Claim = Claim(userId: UserId, moduleId: ModuleId, total: nat)

  /**
   * `claims` are the claims whose payment is under way and `unsettled` the withdrawals whose
   * payment is; both live in suspended calls, not in the service.
   */
  datatype Books = Books(
    transactions: seq<Tx>,
    claimed: set<(UserId, ModuleId)>,
    pendingWithdrawals: set<TxId>,
    claims: map<ClaimId, Claim>,
    unsettled: set<TxId>,
    nextClaim: ClaimId)

  datatype Action =
    | ClaimStarts(u: UserId, m: ModuleId, total: nat)
    | ClaimPaid(c: ClaimId)
    | ClaimFails(c: ClaimId)
    | WithdrawalStarts(u: UserId, amount: int)
    | WithdrawalPaid(t: TxId)
    | WithdrawalFails(t: TxId)

  function Initial(): Books {
    Books([], {}, {}, map[], {}, 0)
  }

  // ----- balances -----

  datatype Column = Earned | Withdrawn | Reserved

  predicate Counts(t: Tx, u: UserId, column: Column) {
    t.userId == u &&
    match column
    case Earned => t.status.Completed? && !t.kind.Withdrawal?
    case Withdrawn => t.status.Completed? && t.kind.Withdrawal?
    case Reserved => t.status.Pending? && t.kind.Withdrawal?
  }

  function Share(t: Tx, u: UserId, column: Column): int {
    if Counts(t, u, column) then t.amount else 0
  }

  function Sum(ts: seq<Tx>, u: UserId, column: Column): int {
    if ts == [] then 0 else Sum(ts[..|ts| - 1], u, column) + Share(ts[|ts| - 1], u, column)
  }

  datatype Balance = Balance(available: int, pending: int, lifetime: int)

  function GetBalance(ts: seq<Tx>, u: UserId): Balance {
    var earned, withdrawn, pending := Sum(ts, u, Earned), Sum(ts, u, Withdrawn), Sum(ts, u, Reserved);
    Balance(if earned >= withdrawn + pending then earned - withdrawn - pending else 0, pending, earned)
  }

  // ----- the steps -----

  predicate CanWithdraw(s: Books, u: UserId, amount: int) {
    amount <= GetBalance(s.transactions, u).available && amount > 0
  }

  function SetStatus(ts: seq<Tx>, t: TxId, status: TxStatus): seq<Tx>
    requires t < |ts|
  {
    ts[t := ts[t].(status := status)]
  }

  predicate Unsettled(s: Books, t: TxId) {
    t in s.unsettled && t < |s.transactions|
  }

  predicate Enabled(s: Books, a: Action) {
    match a
    case ClaimStarts(u, m, _) => (u, m) !in s.claimed
    case ClaimPaid(c) => c in s.claims
    case ClaimFails(c) => c in s.claims
    case WithdrawalStarts(u, amount) => CanWithdraw(s, u, amount)
    case WithdrawalPaid(t) => Unsettled(s, t)
    case WithdrawalFails(t) => Unsettled(s, t)
  }

  function Apply(s: Books, a: Action): Books {
    if !Enabled(s, a) then s
    else
      var id := |s.transactions|;
      match a
      case ClaimStarts(u, m, total) =>
        s.(claims := s.claims[s.nextClaim := Claim(u, m, total)], nextClaim := s.nextClaim + 1)
      case ClaimPaid(c) =>
        var claim := s.claims[c];
        s.(claims := s.claims - {c}, claimed := s.claimed + {(claim.userId, claim.moduleId)},
           transactions := s.transactions
             + [Tx(id, claim.userId, Some(claim.moduleId), claim.total, ModuleReward, Completed)])
      case ClaimFails(c) => s.(claims := s.claims - {c})
      case WithdrawalStarts(u, amount) =>
        s.(transactions := s.transactions + [Tx(id, u, None, amount, Withdrawal, Pending)],
           pendingWithdrawals := s.pendingWithdrawals + {id}, unsettled := s.unsettled + {id})
      case WithdrawalPaid(t) =>
        s.(transactions := SetStatus(s.transactions, t, Completed), unsettled := s.unsettled - {t})
      case WithdrawalFails(t) =>
        s.(transactions := SetStatus(s.transactions, t, Failed), unsettled := s.unsettled - {t},
           pendingWithdrawals := s.pendingWithdrawals - {t})
  }

  function Run(s: Books, actions: seq<Action>): Books
    decreases |actions|
  {
    if actions == [] then s else Run(Apply(s, actions[0]), actions[1..])
  }

  // ----- sums -----

  lemma {:induction false} SumUpdate(ts: seq<Tx>, i: TxId, t: Tx, u: UserId, column: Column)
    requires i < |ts|
    ensures Sum(ts[i := t], u, column) == Sum(ts, u, column) - Share(ts[i], u, column) + Share(t, u, column)
    decreases |ts|
  {
    var ts' := ts[i := t];
    var n := |ts| - 1;
    if i == n {
      assert ts'[..n] == ts[..n];
    } else {
      assert ts'[..n] == ts[..n][i := t];
      SumUpdate(ts[..n], i, t, u, column);
    }
  }

  lemma SumAppend(ts: seq<Tx>, t: Tx, u: UserId, column: Column)
    ensures Sum(ts + [t], u, column) == Sum(ts, u, column) + Share(t, u, column)
  {
    assert (ts + [t])[..|ts|] == ts;
  }

  // ----- what every step keeps -----

  /** An unsettled withdrawal is exactly a pending one, and only withdrawals are ever pending. */
  predicate TxValid(s: Books, i: TxId)
    requires i < |s.transactions|
  {
    var t := s.transactions[i];
    && t.id == i && t.amount >= 0
    && (t.status.Pending? <==> i in s.unsettled)
    && (t.status.Pending? ==> t.kind.Withdrawal?)
    && (i in s.pendingWithdrawals <==> t.kind.Withdrawal? && !t.status.Failed?)
  }

  ghost predicate TxsValid(s: Books) {
    && (forall i :: 0 <= i < |s.transactions| ==> TxValid(s, i))
    && (forall i :: i in s.unsettled || i in s.pendingWithdrawals ==> i < |s.transactions|)
  }

  /** What a user has earned covers what was withdrawn and what is reserved. */
  predicate Covered(ts: seq<Tx>, u: UserId) {
    Sum(ts, u, Earned) >= Sum(ts, u, Withdrawn) + Sum(ts, u, Reserved)
  }

  ghost predicate Inv(s: Books) {
    TxsValid(s) && (forall u :: Covered(s.transactions, u)) && (forall c :: c in s.claims ==> c < s.nextClaim)
  }

  lemma StepKeepsTxs(s: Books, a: Action)
    requires TxsValid(s)
    ensures TxsValid(Apply(s, a))
  {
    var t := Apply(s, a);
    forall i | 0 <= i < |t.transactions| ensures TxValid(t, i) {
      if i < |s.transactions| { assert TxValid(s, i); }
    }
  }

  /** What one step adds to one column of one user's balance. */
  function Delta(s: Books, a: Action, u: UserId, column: Column): int {
    if !Enabled(s, a) then 0
    else
      match a
      case ClaimPaid(c) => if s.claims[c].userId == u && column.Earned? then s.claims[c].total else 0
      case WithdrawalStarts(v, amount) => if v == u && column.Reserved? then amount else 0
      case WithdrawalPaid(t) =>
        var tx := s.transactions[t];
        if tx.userId != u then 0
        else if column.Withdrawn? then tx.amount else if column.Reserved? then -tx.amount else 0
      case WithdrawalFails(t) =>
        if s.transactions[t].userId == u && column.Reserved? then -s.transactions[t].amount else 0
      case _ => 0
  }

  lemma StepOnSum(s: Books, a: Action, u: UserId, column: Column)
    requires TxsValid(s)
    ensures Sum(Apply(s, a).transactions, u, column) == Sum(s.transactions, u, column) + Delta(s, a, u, column)
  {
    hide Sum;
    var t := Apply(s, a);
    if Enabled(s, a) {
      match a
      case ClaimPaid(c) => SumAppend(s.transactions, t.transactions[|s.transactions|], u, column);
      case WithdrawalStarts(v, amount) => SumAppend(s.transactions, t.transactions[|s.transactions|], u, column);
      case WithdrawalPaid(i) =>
        assert TxValid(s, i);
        SumUpdate(s.transactions, i, t.transactions[i], u, column);
      case WithdrawalFails(i) =>
        assert TxValid(s, i);
        SumUpdate(s.transactions, i, t.transactions[i], u, column);
      case _ =>
    }
  }

  lemma StepKeepsCovered(s: Books, a: Action, u: UserId)
    requires Inv(s)
    ensures Covered(Apply(s, a).transactions, u)
    ensures Sum(s.transactions, u, Earned) <= Sum(Apply(s, a).transactions, u, Earned)
  {
    assert Covered(s.transactions, u);
    StepOnSum(s, a, u, Earned);
    StepOnSum(s, a, u, Withdrawn);
    StepOnSum(s, a, u, Reserved);
    if Enabled(s, a) && (a.WithdrawalPaid? || a.WithdrawalFails?) { assert TxValid(s, a.t); }
  }

  lemma StepKeepsInv(s: Books, a: Action)
    requires Inv(s)
    ensures Inv(Apply(s, a))
  {
    StepKeepsTxs(s, a);
    forall u ensures Covered(Apply(s, a).transactions, u) { StepKeepsCovered(s, a, u); }
  }

  lemma {:induction false} RunKeepsInv(s: Books, actions: seq<Action>)
    requires Inv(s)
    ensures Inv(Run(s, actions))
    decreases |actions|
  {
    if actions != [] {
      hide Inv, Apply;
      StepKeepsInv(s, actions[0]);
      RunKeepsInv(Apply(s, actions[0]), actions[1..]);
    }
  }

  // ----- theorems -----

  /**
   * For any overlap of withdrawals that later succeed or fail, and for every user, available plus
   * pending plus withdrawn is exactly what was earned; the fall-back to zero is never taken.
   */
  lemma BalanceIsConserved(actions: seq<Action>, u: UserId)
    ensures var ts := Run(Initial(), actions).transactions; var b := GetBalance(ts, u);
      && b.available + b.pending + Sum(ts, u, Withdrawn) == b.lifetime
      && Sum(ts, u, Earned) >= Sum(ts, u, Withdrawn) + Sum(ts, u, Reserved)
  {
    RunKeepsInv(Initial(), actions);
    assert Covered(Run(Initial(), actions).transactions, u);
  }

  /** No column is ever negative, so nothing available was ever spent twice. */
  lemma {:induction false} ColumnsAreNonNegative(ts: seq<Tx>, u: UserId, column: Column)
    requires forall i :: 0 <= i < |ts| ==> ts[i].amount >= 0
    ensures Sum(ts, u, column) >= 0
    decreases |ts|
  {
    if ts != [] {
      ColumnsAreNonNegative(ts[..|ts| - 1], u, column);
    }
  }

  lemma WithdrawnNeverExceedsEarned(actions: seq<Action>, u: UserId)
    ensures var ts := Run(Initial(), actions).transactions;
      0 <= Sum(ts, u, Withdrawn) <= Sum(ts, u, Earned) && 0 <= GetBalance(ts, u).available
  {
    RunKeepsInv(Initial(), actions);
    var s := Run(Initial(), actions);
    hide Run;
    forall i | 0 <= i < |s.transactions| ensures s.transactions[i].amount >= 0 { assert TxValid(s, i); }
    ColumnsAreNonNegative(s.transactions, u, Withdrawn);
    ColumnsAreNonNegative(s.transactions, u, Reserved);
    assert Covered(s.transactions, u);
  }

  /** Lifetime earnings never decrease. */
  lemma {:induction false} LifetimeNeverDecreases(s: Books, actions: seq<Action>, u: UserId)
    requires Inv(s)
    ensures GetBalance(s.transactions, u).lifetime <= GetBalance(Run(s, actions).transactions, u).lifetime
    decreases |actions|
  {
    if actions != [] {
      StepKeepsInv(s, actions[0]);
      StepKeepsCovered(s, actions[0], u);
      hide Inv, Apply;
      LifetimeNeverDecreases(Apply(s, actions[0]), actions[1..], u);
    }
  }

  /** A withdrawal is accepted exactly up to what was earned and is neither withdrawn nor reserved, all included. */
  lemma WithdrawableExactly(actions: seq<Action>, u: UserId, amount: int)
    ensures var s := Run(Initial(), actions); var ts := s.transactions;
      Apply(s, WithdrawalStarts(u, amount)) != s
      <==> 0 < amount <= Sum(ts, u, Earned) - Sum(ts, u, Withdrawn) - Sum(ts, u, Reserved)
  {
    RunKeepsInv(Initial(), actions);
    var s := Run(Initial(), actions);
    hide Run, Sum;
    assert Covered(s.transactions, u);
    var t := Apply(s, WithdrawalStarts(u, amount));
    assert CanWithdraw(s, u, amount) ==> |t.transactions| == |s.transactions| + 1;
  }

  /** What is offered is the rest after withdrawals and reservations, or nothing if they exceed what was earned. */
  lemma OfferedIsTheRest(ts: seq<Tx>, u: UserId)
    ensures var rest := Sum(ts, u, Earned) - Sum(ts, u, Withdrawn) - Sum(ts, u, Reserved);
      GetBalance(ts, u) == Balance(if rest >= 0 then rest else 0, Sum(ts, u, Reserved), Sum(ts, u, Earned))
  {
  }

  /** What the three columns count: completed earnings, completed withdrawals, pending withdrawals. */
  lemma ColumnsCount(t: Tx, u: UserId)
    ensures var mine := if t.userId == u then t.amount else 0;
      && Sum([t], u, Earned) == (if t.status == Completed && t.kind != Withdrawal then mine else 0)
      && Sum([t], u, Withdrawn) == (if t.status == Completed && t.kind == Withdrawal then mine else 0)
      && Sum([t], u, Reserved) == (if t.status == Pending && t.kind == Withdrawal then mine else 0)
  {
    assert [t][..0] == [];
  }

  /** A claim whose payment fails leaves nothing behind, not even itself. */
  lemma FailedClaimLeavesNothing(s: Books, c: ClaimId)
    requires c in s.claims
    ensures var t := Apply(s, ClaimFails(c));
      t.transactions == s.transactions && t.claimed == s.claimed && t.claims == s.claims - {c}
  {
  }

  /** A claim that is paid adds its total to what its user has available and ever earned, and to nobody else's. */
  lemma ClaimEarns(s: Books, c: ClaimId, u: UserId)
    requires Inv(s) && c in s.claims
    ensures var before, after := GetBalance(s.transactions, u), GetBalance(Apply(s, ClaimPaid(c)).transactions, u);
      var gain := if s.claims[c].userId == u then s.claims[c].total else 0;
      && after.available == before.available + gain && after.lifetime == before.lifetime + gain
      && after.pending == before.pending
  {
    StepKeepsInv(s, ClaimPaid(c));
    AllColumns(s, ClaimPaid(c), u);
    hide Sum;
    assert Covered(s.transactions, u) && Covered(Apply(s, ClaimPaid(c)).transactions, u);
  }

  /** A withdrawal that fails gives back exactly what it reserved; one that succeeds moves it to withdrawn. */
  lemma WithdrawalSettles(s: Books, u: UserId, amount: int, v: UserId)
    requires Inv(s) && CanWithdraw(s, u, amount)
    ensures var started := Apply(s, WithdrawalStarts(u, amount)); var t := |s.transactions|;
      var failed := Apply(started, WithdrawalFails(t)); var paid := Apply(started, WithdrawalPaid(t));
      && GetBalance(failed.transactions, v) == GetBalance(s.transactions, v)
      && GetBalance(paid.transactions, v).available
         == GetBalance(s.transactions, v).available - (if v == u then amount else 0)
      && Sum(paid.transactions, v, Withdrawn) == Sum(s.transactions, v, Withdrawn) + (if v == u then amount else 0)
      && GetBalance(paid.transactions, v).pending == GetBalance(s.transactions, v).pending
  {
    var started := Apply(s, WithdrawalStarts(u, amount));
    var t := |s.transactions|;
    StepKeepsInv(s, WithdrawalStarts(u, amount));
    StepKeepsInv(started, WithdrawalPaid(t));
    AllColumns(s, WithdrawalStarts(u, amount), v);
    AllColumns(started, WithdrawalFails(t), v);
    AllColumns(started, WithdrawalPaid(t), v);
    assert Covered(s.transactions, v) && Covered(Apply(started, WithdrawalPaid(t)).transactions, v);
  }

  lemma AllColumns(s: Books, a: Action, u: UserId)
    requires Inv(s)
    ensures forall column ::
      Sum(Apply(s, a).transactions, u, column) == Sum(s.transactions, u, column) + Delta(s, a, u, column)
  {
    forall column ensures
      Sum(Apply(s, a).transactions, u, column) == Sum(s.transactions, u, column) + Delta(s, a, u, column)
    {
      StepOnSum(s, a, u, column);
    }
  }

  /** The record of pending withdrawals keeps completed ones too: it lists exactly those that did not fail. */
  lemma PendingWithdrawalsKeepCompleted(actions: seq<Action>, t: TxId)
    ensures var s := Run(Initial(), actions);
      t in s.pendingWithdrawals <==>
        t < |s.transactions| && s.transactions[t].kind.Withdrawal? && !s.transactions[t].status.Failed?
  {
    RunKeepsInv(Initial(), actions);
    var s := Run(Initial(), actions);
    if t < |s.transactions| { assert TxValid(s, t); }
  }

  // ----- one reward per user and module -----

  predicate RewardFor(t: Tx, u: UserId, m: ModuleId) {
    t.kind.ModuleReward? && t.userId == u && t.moduleId == Some(m)
  }

  function Rewards(ts: seq<Tx>, u: UserId, m: ModuleId): nat {
    if ts == [] then 0 else Rewards(ts[..|ts| - 1], u, m) + (if RewardFor(ts[|ts| - 1], u, m) then 1 else 0)
  }

  predicate ClaimFor(claim: Claim, u: UserId, m: ModuleId) {
    claim.userId == u && claim.moduleId == m
  }

  function InFlight(s: Books, u: UserId, m: ModuleId): set<ClaimId> {
    ClaimsFor(s.claims, u, m)
  }

  function ClaimsFor(claims: map<ClaimId, Claim>, u: UserId, m: ModuleId): set<ClaimId> {
    set c | c in claims && ClaimFor(claims[c], u, m)
  }

  lemma ClaimsForAdded(claims: map<ClaimId, Claim>, c: ClaimId, claim: Claim, u: UserId, m: ModuleId)
    requires c !in claims
    ensures |ClaimsFor(claims[c := claim], u, m)|
         == |ClaimsFor(claims, u, m)| + (if ClaimFor(claim, u, m) then 1 else 0)
  {
    var before := ClaimsFor(claims, u, m);
    assert ClaimsFor(claims[c := claim], u, m) == if ClaimFor(claim, u, m) then before + {c} else before;
  }

  lemma ClaimsForRemoved(claims: map<ClaimId, Claim>, c: ClaimId, u: UserId, m: ModuleId)
    requires c in claims
    ensures |ClaimsFor(claims - {c}, u, m)| == |ClaimsFor(claims, u, m)| - (if ClaimFor(claims[c], u, m) then 1 else 0)
  {
    assert ClaimsFor(claims - {c}, u, m) == ClaimsFor(claims, u, m) - {c};
  }

  predicate Starts(a: Action, u: UserId, m: ModuleId) {
    a.ClaimStarts? && a.u == u && a.m == m
  }

  lemma {:induction false} RewardsUpdate(ts: seq<Tx>, i: TxId, status: TxStatus, u: UserId, m: ModuleId)
    requires i < |ts|
    ensures Rewards(SetStatus(ts, i, status), u, m) == Rewards(ts, u, m)
    decreases |ts|
  {
    var ts' := SetStatus(ts, i, status);
    var n := |ts| - 1;
    if i == n {
      assert ts'[..n] == ts[..n];
    } else {
      assert ts'[..n] == SetStatus(ts[..n], i, status);
      RewardsUpdate(ts[..n], i, status, u, m);
    }
  }

  predicate Pays(s: Books, a: Action, u: UserId, m: ModuleId) {
    a.ClaimPaid? && a.c in s.claims && ClaimFor(s.claims[a.c], u, m)
  }

  /** Only a payment adds a reward. */
  lemma StepOnRewards(s: Books, a: Action, u: UserId, m: ModuleId)
    requires TxsValid(s)
    ensures Rewards(Apply(s, a).transactions, u, m)
         == Rewards(s.transactions, u, m) + (if Pays(s, a, u, m) then 1 else 0)
  {
    var t := Apply(s, a);
    if Enabled(s, a) {
      match a
      case ClaimPaid(c) => assert t.transactions[..|s.transactions|] == s.transactions;
      case WithdrawalStarts(_, _) => assert t.transactions[..|s.transactions|] == s.transactions;
      case WithdrawalPaid(i) => RewardsUpdate(s.transactions, i, Completed, u, m);
      case WithdrawalFails(i) => RewardsUpdate(s.transactions, i, Failed, u, m);
      case _ =>
    }
  }

  /** Only a start adds a claim in flight, and a payment uses up the claim that it pays. */
  lemma StepOnInFlight(s: Books, a: Action, u: UserId, m: ModuleId)
    requires forall c :: c in s.claims ==> c < s.nextClaim
    ensures Starts(a, u, m) && Enabled(s, a) ==> |InFlight(Apply(s, a), u, m)| == |InFlight(s, u, m)| + 1
    ensures !Starts(a, u, m) ==>
      |InFlight(Apply(s, a), u, m)| <= |InFlight(s, u, m)| - (if Pays(s, a, u, m) then 1 else 0)
  {
    hide GetBalance, SetStatus, CanWithdraw, ClaimsFor;
    if Enabled(s, a) {
      match a
      case ClaimStarts(v, n, total) => ClaimsForAdded(s.claims, s.nextClaim, Claim(v, n, total), u, m);
      case ClaimPaid(c) => ClaimsForRemoved(s.claims, c, u, m);
      case ClaimFails(c) => ClaimsForRemoved(s.claims, c, u, m);
      case _ =>
    }
  }

  /** The record of claims lists exactly the pairs that have been rewarded. */
  lemma {:induction false} ClaimedMeansRewarded(s: Books, actions: seq<Action>, u: UserId, m: ModuleId)
    requires Inv(s) && ((u, m) in s.claimed <==> Rewards(s.transactions, u, m) > 0)
    ensures (u, m) in Run(s, actions).claimed <==> Rewards(Run(s, actions).transactions, u, m) > 0
    decreases |actions|
  {
    if actions != [] {
      StepKeepsInv(s, actions[0]);
      StepOnRewards(s, actions[0], u, m);
      assert (u, m) in Apply(s, actions[0]).claimed
        <==> (u, m) in s.claimed || Pays(s, actions[0], u, m);
      hide Inv, Apply, InFlight, Rewards;
      ClaimedMeansRewarded(Apply(s, actions[0]), actions[1..], u, m);
    }
  }

  // ----- claims that overlap -----

  /** A claim for the pair starts only when no other one is in flight. */
  ghost predicate Apart(s: Books, a: Action, u: UserId, m: ModuleId) {
    Starts(a, u, m) ==> InFlight(s, u, m) == {}
  }

  ghost predicate AllApart(s: Books, actions: seq<Action>, u: UserId, m: ModuleId)
    decreases |actions|
  {
    actions == [] || (Apart(s, actions[0], u, m) && AllApart(Apply(s, actions[0]), actions[1..], u, m))
  }

  lemma RunFrom(s: Books, a: Action, rest: seq<Action>, u: UserId, m: ModuleId)
    ensures Run(s, [a] + rest) == Run(Apply(s, a), rest)
    ensures AllApart(Apply(s, a), rest, u, m) && Apart(s, a, u, m) ==> AllApart(s, [a] + rest, u, m)
  {
    hide Apply;
    assert ([a] + rest)[1..] == rest;
  }

  lemma OneMorePaid(s: Books, c: ClaimId, u: UserId, m: ModuleId)
    requires Inv(s) && c in InFlight(s, u, m)
    ensures var t := Apply(s, ClaimPaid(c));
      && Inv(t) && Rewards(t.transactions, u, m) == Rewards(s.transactions, u, m) + 1
      && InFlight(t, u, m) == InFlight(s, u, m) - {c}
  {
    StepKeepsInv(s, ClaimPaid(c));
    StepOnRewards(s, ClaimPaid(c), u, m);
  }

  lemma PaidAgain(s: Books, c: ClaimId, u: UserId, m: ModuleId)
    requires Inv(s) && c in InFlight(s, u, m)
    ensures var actions := [ClaimPaid(c)] + [];
      && AllApart(s, actions, u, m)
      && Rewards(Run(s, actions).transactions, u, m) == Rewards(s.transactions, u, m) + 1
  {
    OneMorePaid(s, c, u, m);
    hide Inv, Rewards;
    RunFrom(s, ClaimPaid(c), [], u, m);
  }

  /** Any two claims in flight for one pair can both be paid: each then adds a reward. */
  lemma TwoInFlightPayTwice(s: Books, c: ClaimId, d: ClaimId, u: UserId, m: ModuleId)
    requires Inv(s) && c != d && c in InFlight(s, u, m) && d in InFlight(s, u, m)
    ensures var actions := [ClaimPaid(c)] + ([ClaimPaid(d)] + []);
      && AllApart(s, actions, u, m)
      && Rewards(Run(s, actions).transactions, u, m) == Rewards(s.transactions, u, m) + 2
  {
    var t := Apply(s, ClaimPaid(c));
    OneMorePaid(s, c, u, m);
    OneMorePaid(t, d, u, m);
    hide Inv, Rewards, InFlight;
    RunFrom(s, ClaimPaid(c), [ClaimPaid(d)] + [], u, m);
    RunFrom(t, ClaimPaid(d), [], u, m);
  }

  /** The pair has been rewarded, or one claim for it is in flight, or neither. */
  ghost predicate OneAtATime(s: Books, u: UserId, m: ModuleId) {
    && Rewards(s.transactions, u, m) + |InFlight(s, u, m)| <= 1
    && ((u, m) in s.claimed <==> Rewards(s.transactions, u, m) > 0)
  }

  lemma StepKeepsOneAtATime(s: Books, a: Action, u: UserId, m: ModuleId)
    requires Inv(s) && OneAtATime(s, u, m)
    requires Apart(s, a, u, m) || (u, m) in s.claimed
    ensures OneAtATime(Apply(s, a), u, m)
    ensures (u, m) in s.claimed ==> (u, m) in Apply(s, a).claimed
  {
    StepOnRewards(s, a, u, m);
    StepOnInFlight(s, a, u, m);
    assert (u, m) in Apply(s, a).claimed <==> (u, m) in s.claimed || Pays(s, a, u, m);
    assert Starts(a, u, m) && !Enabled(s, a) ==> Apply(s, a) == s;
  }

  lemma {:induction false} RunKeepsOneAtATime(s: Books, actions: seq<Action>, u: UserId, m: ModuleId)
    requires Inv(s) && OneAtATime(s, u, m)
    requires AllApart(s, actions, u, m) || (u, m) in s.claimed
    ensures OneAtATime(Run(s, actions), u, m)
    decreases |actions|
  {
    if actions != [] {
      StepKeepsInv(s, actions[0]);
      StepKeepsOneAtATime(s, actions[0], u, m);
      hide Inv, Apply, Apart, OneAtATime;
      RunKeepsOneAtATime(Apply(s, actions[0]), actions[1..], u, m);
    }
  }

  /** Whatever happens later, as long as no later claim for the pair overlaps with another. */
  ghost predicate PaidAtMostOnce(s: Books, u: UserId, m: ModuleId) {
    forall actions :: AllApart(s, actions, u, m) ==> Rewards(Run(s, actions).transactions, u, m) <= 1
  }

  /** Whatever happens later. */
  ghost predicate NeverPaidTwice(s: Books, u: UserId, m: ModuleId) {
    forall actions :: Rewards(Run(s, actions).transactions, u, m) <= 1
  }

  lemma TwoMembers(claims: set<ClaimId>) returns (c: ClaimId, d: ClaimId)
    requires |claims| > 1
    ensures c != d && c in claims && d in claims
  {
    c :| c in claims;
    assert |claims - {c}| == |claims| - 1;
    d :| d in claims - {c};
  }

  lemma PaidAtMostOnceIn(s: Books, u: UserId, m: ModuleId)
    requires Inv(s) && ((u, m) in s.claimed <==> Rewards(s.transactions, u, m) > 0)
    ensures PaidAtMostOnce(s, u, m) <==> Rewards(s.transactions, u, m) + |InFlight(s, u, m)| <= 1
  {
    hide Inv, Rewards, InFlight;
    if OneAtATime(s, u, m) {
      forall later | AllApart(s, later, u, m) ensures Rewards(Run(s, later).transactions, u, m) <= 1 {
        RunKeepsOneAtATime(s, later, u, m);
      }
    } else if Rewards(s.transactions, u, m) > 1 {
      assert AllApart(s, [], u, m) && Run(s, []) == s;
    } else if |InFlight(s, u, m)| > 1 {
      var c, d := TwoMembers(InFlight(s, u, m));
      TwoInFlightPayTwice(s, c, d, u, m);
    } else {
      var c :| c in InFlight(s, u, m);
      PaidAgain(s, c, u, m);
    }
  }

  /**
   * From any reachable state, as long as no later claim for the pair overlaps with another: it is
   * paid at most once exactly when its rewards and the claims in flight now are together at most one.
   */
  lemma PaidAtMostOnceExactlyWhen(actions: seq<Action>, u: UserId, m: ModuleId)
    ensures var s := Run(Initial(), actions);
      PaidAtMostOnce(s, u, m) <==> Rewards(s.transactions, u, m) + |InFlight(s, u, m)| <= 1
  {
    RunKeepsInv(Initial(), actions);
    ClaimedMeansRewarded(Initial(), actions, u, m);
    PaidAtMostOnceIn(Run(Initial(), actions), u, m);
  }

  /**
   * The check against claiming twice is separated by the payment from the mark that it tests.  A
   * claim that passes the check is safe from a second reward, as long as no later claim for the pair
   * overlaps with another, exactly when no other claim for it was in flight.
   */
  lemma ClaimIsSafeExactlyWhenAlone(actions: seq<Action>, u: UserId, m: ModuleId, total: nat)
    requires (u, m) !in Run(Initial(), actions).claimed
    ensures var s := Run(Initial(), actions);
      PaidAtMostOnce(Apply(s, ClaimStarts(u, m, total)), u, m) <==> InFlight(s, u, m) == {}
  {
    var s := Run(Initial(), actions);
    var start := ClaimStarts(u, m, total);
    RunKeepsInv(Initial(), actions);
    ClaimedMeansRewarded(Initial(), actions, u, m);
    StepKeepsInv(s, start);
    StepOnRewards(s, start, u, m);
    StepOnInFlight(s, start, u, m);
    hide Inv, Rewards, InFlight;
    PaidAtMostOnceIn(Apply(s, start), u, m);
  }

  /** Two claims that start now and overlap are both paid, if the pair is not marked. */
  lemma NewOverlapPaysTwice(s: Books, u: UserId, m: ModuleId, total: nat) returns (actions: seq<Action>)
    requires Inv(s) && (u, m) !in s.claimed
    ensures Rewards(Run(s, actions).transactions, u, m) == Rewards(s.transactions, u, m) + 2
  {
    var start := ClaimStarts(u, m, total);
    var one := Apply(s, start);
    var two := Apply(one, start);
    var c, d := s.nextClaim, s.nextClaim + 1;
    StepKeepsInv(s, start);
    StepKeepsInv(one, start);
    assert c in InFlight(two, u, m) && d in InFlight(two, u, m);
    TwoInFlightPayTwice(two, c, d, u, m);
    hide Inv, Rewards, InFlight, Apply;
    var rest := [ClaimPaid(c)] + ([ClaimPaid(d)] + []);
    RunFrom(one, start, rest, u, m);
    RunFrom(s, start, [start] + rest, u, m);
    actions := [start] + ([start] + rest);
  }

  /** With claims overlapping as they like, only a pair that was rewarded once, with no claim in flight, is safe. */
  lemma NeverPaidTwiceExactlyWhen(actions: seq<Action>, u: UserId, m: ModuleId)
    ensures var s := Run(Initial(), actions);
      NeverPaidTwice(s, u, m) <==> Rewards(s.transactions, u, m) == 1 && InFlight(s, u, m) == {}
  {
    var s := Run(Initial(), actions);
    RunKeepsInv(Initial(), actions);
    ClaimedMeansRewarded(Initial(), actions, u, m);
    hide Inv, Rewards, InFlight, Run;
    if Rewards(s.transactions, u, m) == 0 {
      var later := NewOverlapPaysTwice(s, u, m, 0);
    } else if OneAtATime(s, u, m) {
      forall later ensures Rewards(Run(s, later).transactions, u, m) <= 1 { RunKeepsOneAtATime(s, later, u, m); }
    } else {
      PaidAtMostOnceExactlyWhen(actions, u, m);
    }
  }

  // ----- the service -----

  /**
   * The module-level stores in place.  A call that awaits a payment is split at the await; the
   * ghost fields stand for the suspended calls.
   */
  class RewardService {
    var transactions: seq<Tx>
    var claimed: set<(UserId, ModuleId)>
    var pendingWithdrawals: set<TxId>
    ghost var claims: map<ClaimId, Claim>
    ghost var unsettled: set<TxId>
    ghost var nextClaim: ClaimId

    ghost function View(): Books
      reads this
    {
      Books(transactions, claimed, pendingWithdrawals, claims, unsettled, nextClaim)
    }

    constructor ()
      ensures View() == Initial()
    {
      transactions, claimed, pendingWithdrawals := [], {}, {};
      claims, unsettled, nextClaim := map[], {}, 0;
    }

    method Total(u: UserId, column: Column) returns (sum: int)
      ensures sum == Sum(transactions, u, column)
    {
      sum := 0;
      for i := 0 to |transactions|
        invariant sum == Sum(transactions[..i], u, column)
      {
        assert transactions[..i + 1][..i] == transactions[..i];
        if Counts(transactions[i], u, column) {
          sum := sum + transactions[i].amount;
        }
      }
      assert transactions[..|transactions|] == transactions;
    }

    method ReadBalance(u: UserId) returns (b: Balance)
      ensures b == GetBalance(transactions, u)
    {
      var earned := Total(u, Earned);
      var withdrawn := Total(u, Withdrawn);
      var pending := Total(u, Reserved);
      var available := 0;
      if earned >= withdrawn + pending {
        available := earned - withdrawn - pending;
      }
      b := Balance(available, pending, earned);
    }

    /** Ids are told apart by position, which is where a new transaction is put. */
    method UpdateTransactionStatus(t: TxId, status: TxStatus)
      requires forall i :: 0 <= i < |transactions| ==> transactions[i].id == i
      modifies this`transactions
      ensures t < |old(transactions)| ==> transactions == SetStatus(old(transactions), t, status)
      ensures t >= |old(transactions)| ==> transactions == old(transactions)
    {
      var i := 0;
      while i < |transactions| && transactions[i].id != t
        invariant 0 <= i <= |transactions|
        invariant forall j :: 0 <= j < i ==> transactions[j].id != t
      {
        i := i + 1;
      }
      if i < |transactions| {
        transactions := transactions[i := transactions[i].(status := status)];
      }
    }

    /** Up to the payment; a refusal changes nothing. */
    method BeginWithdrawal(u: UserId, amount: int) returns (t: Option<TxId>)
      modifies this
      ensures View() == Apply(old(View()), WithdrawalStarts(u, amount))
      ensures t == if CanWithdraw(old(View()), u, amount) then Some(|old(transactions)|) else None
    {
      var balance := ReadBalance(u);
      if amount > balance.available {
        return None;
      }
      if amount <= 0 {
        return None;
      }
      var id := |transactions|;
      transactions := transactions + [Tx(id, u, None, amount, Withdrawal, Pending)];
      pendingWithdrawals := pendingWithdrawals + {id};
      unsettled := unsettled + {id};
      t := Some(id);
    }

    method FinishWithdrawal(t: TxId, paid: bool)
      requires Inv(View()) && t in unsettled
      modifies this
      ensures View() == Apply(old(View()), if paid then WithdrawalPaid(t) else WithdrawalFails(t))
    {
      forall i | 0 <= i < |transactions| ensures transactions[i].id == i { assert TxValid(View(), i); }
      if paid {
        UpdateTransactionStatus(t, Completed);
      } else {
        UpdateTransactionStatus(t, Failed);
        pendingWithdrawals := pendingWithdrawals - {t};
      }
      unsettled := unsettled - {t};
    }

    method BeginClaim(u: UserId, m: ModuleId, total: nat) returns (ok: bool)
      modifies this
      ensures View() == Apply(old(View()), ClaimStarts(u, m, total))
      ensures ok <==> (u, m) !in old(claimed)
    {
      ok := (u, m) !in claimed;
      if ok {
        claims := claims[nextClaim := Claim(u, m, total)];
        nextClaim := nextClaim + 1;
      }
    }

    /** `claim` is what the suspended call `c` holds. */
    method FinishClaim(ghost c: ClaimId, claim: Claim, paid: bool)
      requires c in claims && claims[c] == claim
      modifies this
      ensures View() == Apply(old(View()), if paid then ClaimPaid(c) else ClaimFails(c))
    {
      if paid {
        claimed := claimed + {(claim.userId, claim.moduleId)};
        transactions := transactions
          + [Tx(|transactions|, claim.userId, Some(claim.moduleId), claim.total, ModuleReward, Completed)];
      }
      claims := claims - {c};
    }
  }
}
