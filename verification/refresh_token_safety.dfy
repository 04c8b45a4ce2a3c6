/** Refresh-token rotation: theorems about whole runs, and the service that takes the steps. */
module RefreshTokenSafety {
  import opened Wrappers
  import opened RefreshTokens

  lemma InitialHoldsInv(ttlMs: int)
    ensures Inv(Initial(ttlMs))
  {
  }

  // ----- one live item per family -----

  function ActiveTokens(s: Store, f: FamilyId): set<TokenId> {
    set t | t in s.tokens && s.tokens[t].familyId == f && s.tokens[t].status.Active?
  }

  function ClaimedUnminted(s: Store, f: FamilyId): set<RotationId> {
    set r | r in s.rotations && s.rotations[r].familyId == f && s.rotations[r].stage.Minting?
  }

  lemma AtMostOneElement(a: set<nat>)
    requires forall x, y :: x in a && y in a ==> x == y
    ensures |a| <= 1
  {
    if a != {} {
      var x :| x in a;
      assert a == {x};
    }
  }

  /** ACTIVE tokens plus rotations that have claimed but not yet minted never exceed one per family. */
  lemma OneUsableTokenPerFamily(ttlMs: int, actions: seq<Action>, f: FamilyId)
    ensures var s := Run(Initial(ttlMs), actions);
      |ActiveTokens(s, f)| + |ClaimedUnminted(s, f)| <= 1
  {
    InitialHoldsInv(ttlMs);
    RunKeepsInv(Initial(ttlMs), actions);
    var s := Run(Initial(ttlMs), actions);
    hide Run, RowsValid, RotationsValid, OutcomesValid, OkOnce;
    var active, minting := ActiveTokens(s, f), ClaimedUnminted(s, f);
    forall t, u | t in active && u in active ensures t == u {
      assert LiveIn(s, TokenItem(t), f) && LiveIn(s, TokenItem(u), f);
    }
    forall q, r | q in minting && r in minting ensures q == r {
      assert LiveIn(s, MintItem(q), f) && LiveIn(s, MintItem(r), f);
    }
    forall t, r | t in active ensures r !in minting {
      assert LiveIn(s, TokenItem(t), f);
      assert !LiveIn(s, MintItem(r), f);
    }
    AtMostOneElement(active);
    AtMostOneElement(minting);
  }

  /** Each token yields `ok` at most once, however many calls present it at the same time. */
  lemma EachTokenRotatesOnce(ttlMs: int, actions: seq<Action>, i: nat, j: nat)
    requires i < |Run(Initial(ttlMs), actions).outcomes| && j < |Run(Initial(ttlMs), actions).outcomes|
    ensures var o := Run(Initial(ttlMs), actions).outcomes;
      o[i].kind.IsOk? && o[j].kind.IsOk? && o[i].tokenId == o[j].tokenId ==> i == j
  {
    InitialHoldsInv(ttlMs);
    RunKeepsInv(Initial(ttlMs), actions);
    var s := Run(Initial(ttlMs), actions);
    hide Run, RowsValid, RotationsValid, OutcomesValid, OneLive;
    assert i < j ==> !BothOk(s.outcomes[i], s.outcomes[j]);
    assert j < i ==> !BothOk(s.outcomes[j], s.outcomes[i]);
  }

  /** From any reachable state on, every token's status only moves ACTIVE, ROTATED, REVOKED. */
  lemma StatusOnlyMovesForward(s: Store, actions: seq<Action>, t: TokenId)
    requires Inv(s) && t in s.tokens
    ensures var s' := Run(s, actions);
      t in s'.tokens && Rank(s.tokens[t].status) <= Rank(s'.tokens[t].status)
  {
    RunKeepsInv(s, actions);
    hide Inv, Run;
    assert TokenMoved(s.tokens[t], Run(s, actions).tokens[t]);
  }

  /** A call that reports reuse has revoked the session, whoever presented the token first. */
  lemma ReuseRevokesTheSession(ttlMs: int, actions: seq<Action>, i: nat)
    requires i < |Run(Initial(ttlMs), actions).outcomes|
    ensures var s := Run(Initial(ttlMs), actions); var o := s.outcomes[i];
      o.kind.IsReuse? ==> o.sessionId in s.sessions && s.sessions[o.sessionId].isRevoked
  {
    InitialHoldsInv(ttlMs);
    RunKeepsInv(Initial(ttlMs), actions);
    hide Run;
    assert OutcomeValid(Run(Initial(ttlMs), actions), Run(Initial(ttlMs), actions).outcomes[i]);
  }

  // ----- revocation is final for everyone who reads afterwards -----

  predicate DeadRotation(s: Store, i: SessionId, n: RotationId, r: RotationId) {
    r in s.rotations && r >= n && s.rotations[r].sessionId == i ==> s.rotations[r].stage.RevokingFamily?
  }

  predicate DeadOutcome(o: Outcome, i: SessionId, n: RotationId) {
    o.rotationId >= n && o.sessionId == i ==> !o.kind.IsOk?
  }

  /** Calls numbered from `n` on can only refuse or revoke on session `i`. */
  ghost predicate DeadFrom(s: Store, i: SessionId, n: RotationId) {
    && i in s.sessions && s.sessions[i].isRevoked && n <= s.nextRotation
    && (forall r :: r in s.rotations ==> DeadRotation(s, i, n, r))
    && (forall k :: 0 <= k < |s.outcomes| ==> DeadOutcome(s.outcomes[k], i, n))
  }

  lemma StepKeepsDeadRotation(s: Store, a: Action, i: SessionId, n: RotationId, r: RotationId)
    requires RowsValid(s) && DeadFrom(s, i, n)
    ensures DeadRotation(Apply(s, a), i, n, r)
  {
    if r in s.rotations { assert DeadRotation(s, i, n, r); }
  }

  lemma StepKeepsDeadOutcome(s: Store, a: Action, i: SessionId, n: RotationId, k: nat)
    requires RowsValid(s) && DeadFrom(s, i, n) && k < |Apply(s, a).outcomes|
    ensures DeadOutcome(Apply(s, a).outcomes[k], i, n)
  {
    if k < |s.outcomes| {
      assert DeadOutcome(s.outcomes[k], i, n);
    } else {
      forall r | r in s.rotations ensures DeadRotation(s, i, n, r) {}
    }
  }

  lemma StepKeepsDead(s: Store, a: Action, i: SessionId, n: RotationId)
    requires Inv(s) && DeadFrom(s, i, n)
    ensures DeadFrom(Apply(s, a), i, n)
  {
    StepKeepsInv(s, a);
    var t := Apply(s, a);
    forall r | r in t.rotations ensures DeadRotation(t, i, n, r) { StepKeepsDeadRotation(s, a, i, n, r); }
    forall k | 0 <= k < |t.outcomes| ensures DeadOutcome(t.outcomes[k], i, n) { StepKeepsDeadOutcome(s, a, i, n, k); }
    hide RowsValid, RotationsValid, OutcomesValid, OkOnce, OneLive, DeadRotation, DeadOutcome, Apply;
    assert SessionMoved(s.sessions[i], t.sessions[i]);
  }

  lemma {:induction false} RunKeepsDead(s: Store, actions: seq<Action>, i: SessionId, n: RotationId)
    requires Inv(s) && DeadFrom(s, i, n)
    ensures DeadFrom(Run(s, actions), i, n)
    decreases |actions|
  {
    if actions != [] {
      hide Inv, DeadFrom, Apply, Moved;
      StepKeepsInv(s, actions[0]);
      StepKeepsDead(s, actions[0], i, n);
      RunKeepsDead(Apply(s, actions[0]), actions[1..], i, n);
    }
  }

  /**
   * Once a session is revoked, no call to `rotate` that reads afterwards ever returns `ok` for it:
   * not for a token minted later by a rotation that was in flight, nor for any successor.
   */
  lemma RevokedSessionNeverRotates(s: Store, i: SessionId, actions: seq<Action>, k: nat)
    requires Inv(s) && i in s.sessions && s.sessions[i].isRevoked
    requires k < |Run(s, actions).outcomes|
    ensures var o := Run(s, actions).outcomes[k];
      o.rotationId >= s.nextRotation && o.sessionId == i ==> !o.kind.IsOk?
  {
    assert DeadFrom(s, i, s.nextRotation);
    RunKeepsDead(s, actions, i, s.nextRotation);
  }

  // ----- what a revocation cannot stop, exactly -----

  predicate NewOk(s: Store, t: Store, i: SessionId) {
    exists k :: |s.outcomes| <= k < |t.outcomes| && t.outcomes[k].sessionId == i && t.outcomes[k].kind.IsOk?
  }

  /** The rotation has claimed its token, or still can. */
  predicate WillMint(s: Store, r: RotationId, i: SessionId) {
    && r in s.rotations && s.rotations[r].sessionId == i
    && (s.rotations[r].stage.Minting? || (s.rotations[r].stage.Claiming? && s.rotations[r].tokenId in s.tokens
                                          && s.tokens[s.rotations[r].tokenId].status.Active?))
  }

  ghost predicate Drained(s: Store, i: SessionId) {
    i in s.sessions && s.sessions[i].isRevoked && forall r :: !WillMint(s, r, i)
  }

  ghost predicate NoActive(s: Store, i: SessionId) {
    forall t :: t in s.tokens && s.tokens[t].sessionId == i ==> !s.tokens[t].status.Active?
  }

  ghost predicate CanReturnOk(s: Store, i: SessionId) {
    exists actions :: NewOk(s, Run(s, actions), i)
  }

  ghost predicate CanHoldActive(s: Store, i: SessionId) {
    exists actions :: !NoActive(Run(s, actions), i)
  }

  /** A call that reads a revoked session never gets as far as claiming. */
  lemma NewRotationWillNotMint(s: Store, a: Action, i: SessionId, r: RotationId)
    requires RowsValid(s) && i in s.sessions && s.sessions[i].isRevoked && r !in s.rotations
    ensures !WillMint(Apply(s, a), r, i)
  {
  }

  lemma OldRotationWillNotMint(s: Store, a: Action, i: SessionId, r: RotationId)
    requires r in s.rotations && RotationValid(s, s.rotations[r]) && !WillMint(s, r, i)
    requires var x := s.rotations[r].tokenId; x in Apply(s, a).tokens && TokenMoved(s.tokens[x], Apply(s, a).tokens[x])
    requires r < s.nextRotation
    ensures !WillMint(Apply(s, a), r, i)
  {
  }

  lemma StepKeepsUnminted(s: Store, a: Action, i: SessionId, r: RotationId)
    requires Inv(s) && Drained(s, i) && Moved(s, Apply(s, a))
    ensures !WillMint(Apply(s, a), r, i)
  {
    hide OneLive, OutcomesValid, OkOnce, Apply, WillMint, TokenMoved;
    assert !WillMint(s, r, i);
    if r in s.rotations {
      assert RotationValid(s, s.rotations[r]);
      OldRotationWillNotMint(s, a, i, r);
    } else {
      NewRotationWillNotMint(s, a, i, r);
    }
  }

  lemma StepYieldsNoOk(s: Store, a: Action, i: SessionId)
    requires Inv(s) && Drained(s, i)
    ensures !NewOk(s, Apply(s, a), i)
    ensures NoActive(s, i) ==> NoActive(Apply(s, a), i)
  {
    hide OneLive, OutcomesValid, OkOnce, OutcomeValid;
    if a.Mint? && Enabled(s, a) {
      assert !WillMint(s, a.r, i);
    }
  }

  lemma StepKeepsDrained(s: Store, a: Action, i: SessionId)
    requires Inv(s) && Drained(s, i)
    ensures Drained(Apply(s, a), i)
  {
    StepKeepsInv(s, a);
    var t := Apply(s, a);
    forall r ensures !WillMint(t, r, i) { StepKeepsUnminted(s, a, i, r); }
    hide Apply, Inv, WillMint;
    assert SessionMoved(s.sessions[i], t.sessions[i]);
  }

  lemma NewOkSplits(s: Store, t: Store, u: Store, i: SessionId)
    requires Moved(s, t) && Moved(t, u) && !NewOk(s, t, i) && !NewOk(t, u, i)
    ensures !NewOk(s, u, i)
  {
    forall k | |s.outcomes| <= k < |u.outcomes| ensures !(u.outcomes[k].sessionId == i && u.outcomes[k].kind.IsOk?) {
      if k < |t.outcomes| { assert u.outcomes[k] == t.outcomes[k]; }
    }
  }

  lemma {:induction false} DrainedYieldsNothing(s: Store, actions: seq<Action>, i: SessionId)
    requires Inv(s) && Drained(s, i)
    ensures !NewOk(s, Run(s, actions), i)
    ensures NoActive(s, i) ==> NoActive(Run(s, actions), i)
    decreases |actions|
  {
    if actions != [] {
      hide Inv, Drained, Apply, Moved, NewOk, NoActive;
      var t := Apply(s, actions[0]);
      StepKeepsInv(s, actions[0]);
      StepKeepsDrained(s, actions[0], i);
      StepYieldsNoOk(s, actions[0], i);
      DrainedYieldsNothing(t, actions[1..], i);
      RunKeepsInv(t, actions[1..]);
      NewOkSplits(s, t, Run(t, actions[1..]), i);
    }
  }

  lemma MintYieldsOk(s: Store, r: RotationId, i: SessionId)
    requires Inv(s) && r in s.rotations && s.rotations[r].sessionId == i && s.rotations[r].stage.Minting?
    ensures var t := Apply(s, Mint(r, true)); NewOk(s, t, i) && !NoActive(t, i)
  {
    hide OneLive, OutcomesValid, OkOnce;
    assert RotationValid(s, s.rotations[r]);
    var t := Apply(s, Mint(r, true));
    assert t.outcomes[|s.outcomes|].kind.IsOk?;
    assert t.tokens[s.nextToken].status.Active?;
  }

  lemma WillMintYieldsOk(s: Store, r: RotationId, i: SessionId)
    requires Inv(s) && WillMint(s, r, i)
    ensures CanReturnOk(s, i) && CanHoldActive(s, i)
  {
    var mint := Mint(r, true);
    if s.rotations[r].stage.Minting? {
      MintYieldsOk(s, r, i);
      assert Run(s, [mint]) == Run(Apply(s, mint), []) == Apply(s, mint);
    } else {
      assert RotationValid(s, s.rotations[r]);
      var t := Apply(s, Claim(r));
      StepKeepsInv(s, Claim(r));
      assert t.rotations[r].stage.Minting? && t.rotations[r].sessionId == i && t.outcomes == s.outcomes;
      MintYieldsOk(t, r, i);
      var both := [Claim(r), mint];
      assert both[1..] == [mint];
      assert Run(s, both) == Run(t, [mint]) == Run(Apply(t, mint), []) == Apply(t, mint);
      assert NewOk(s, Run(s, both), i);
    }
  }

  /**
   * In a revoked session some continuation still returns `ok` exactly when a rotation has claimed
   * its token, or read an ACTIVE one before and can still claim it.
   */
  lemma OkAfterRevocationExactlyWhenClaimed(s: Store, i: SessionId)
    requires Inv(s) && i in s.sessions && s.sessions[i].isRevoked
    ensures CanReturnOk(s, i) <==> exists r :: WillMint(s, r, i)
    ensures NoActive(s, i) ==> (CanHoldActive(s, i) <==> exists r :: WillMint(s, r, i))
  {
    hide Inv, WillMint, NewOk, NoActive;
    if r :| WillMint(s, r, i) {
      WillMintYieldsOk(s, r, i);
    } else {
      forall actions ensures !NewOk(s, Run(s, actions), i) && (NoActive(s, i) ==> NoActive(Run(s, actions), i)) {
        DrainedYieldsNothing(s, actions, i);
      }
    }
  }

  /** The step revokes session `i`: by logout, by reuse detection or by logout-all. */
  predicate Revokes(s: Store, a: Action, i: SessionId) {
    i in s.sessions &&
    match a
    case Logout(t) => Known(s, t) && s.tokens[t].sessionId == i
    case RevokeAfterReuse(r) => At(s, r, RevokingFamily) && s.rotations[r].sessionId == i
    case LogoutAllWrite(k) => k in s.sweeps && i in s.sweeps[k]
    case _ => false
  }

  lemma RevocationLeaves(s: Store, a: Action, i: SessionId)
    requires Inv(s) && Revokes(s, a, i)
    ensures var t := Apply(s, a);
      && i in t.sessions && t.sessions[i].isRevoked && NoActive(t, i)
      && (forall r :: WillMint(t, r, i) <==> r in ClaimedUnminted(s, i))
  {
    hide OneLive, OutcomesValid, OkOnce;
    var t := Apply(s, a);
    forall x | x in t.tokens && t.tokens[x].sessionId == i ensures !t.tokens[x].status.Active? {
      assert s.tokens[x].familyId == s.tokens[x].sessionId;
    }
    forall r ensures WillMint(t, r, i) <==> r in ClaimedUnminted(s, i) {
      if r in s.rotations { assert RotationValid(s, s.rotations[r]); }
    }
  }

  /**
   * After any of the three revocations some continuation still returns `ok` for the session, and
   * some leaves an ACTIVE token in it, exactly when a rotation of its family had claimed its token
   * and not yet minted the successor.
   */
  lemma RevocationIsFinalExactlyWhenNoneInFlight(s: Store, a: Action, i: SessionId)
    requires Inv(s) && Revokes(s, a, i)
    ensures CanReturnOk(Apply(s, a), i) <==> ClaimedUnminted(s, i) != {}
    ensures CanHoldActive(Apply(s, a), i) <==> ClaimedUnminted(s, i) != {}
  {
    RevocationLeaves(s, a, i);
    StepKeepsInv(s, a);
    hide Inv, WillMint, NoActive, Revokes, Apply, CanReturnOk, CanHoldActive, ClaimedUnminted;
    var t := Apply(s, a);
    OkAfterRevocationExactlyWhenClaimed(t, i);
    if r :| r in ClaimedUnminted(s, i) { assert WillMint(t, r, i); }
  }

  /** One such run: a rotation that claimed its token before the logout returns `ok` after it. */
  lemma InFlightRotationStillMints(ttlMs: int, u: UserId, now: int)
    requires ttlMs > 0
    ensures var s := Run(Initial(ttlMs), [Issue(u, now), Read(0, now), Claim(0)]);
      && Revokes(s, Logout(0), 0) && ClaimedUnminted(s, 0) == {0}
      && CanReturnOk(Apply(s, Logout(0)), 0) && CanHoldActive(Apply(s, Logout(0)), 0)
  {
    var a := Apply(Initial(ttlMs), Issue(u, now));
    var b := Apply(a, Read(0, now));
    assert At(b, 0, Claiming);
    var s := Apply(b, Claim(0));
    var all := [Issue(u, now), Read(0, now), Claim(0)];
    assert all[1..] == [Read(0, now), Claim(0)] && all[1..][1..] == [Claim(0)] && all[1..][1..][1..] == [];
    assert Run(b, [Claim(0)]) == Run(s, []) == s;
    assert Run(Initial(ttlMs), all) == Run(a, all[1..]) == Run(b, [Claim(0)]);
    assert 0 in ClaimedUnminted(s, 0);
    InitialHoldsInv(ttlMs);
    RunKeepsInv(Initial(ttlMs), all);
    RevocationIsFinalExactlyWhenNoneInFlight(s, Logout(0), 0);
  }

  /** No chain of rotations outlives the session: every `ok` was read before the expiry fixed at login. */
  lemma RotationsEndWithTheSession(s: Store, u: UserId, now: int, actions: seq<Action>, k: nat)
    requires Inv(s) && k < |Run(Apply(s, Issue(u, now)), actions).outcomes|
    ensures var o := Run(Apply(s, Issue(u, now)), actions).outcomes[k];
      o.kind.IsOk? && o.sessionId == s.nextSession ==> o.readAt < now + s.ttlMs
  {
    var s1 := Apply(s, Issue(u, now));
    StepKeepsInv(s, Issue(u, now));
    RunKeepsInv(s1, actions);
    hide Run, RowsValid, RotationsValid, OneLive, OkOnce;
    var t := Run(s1, actions);
    assert SessionMoved(s1.sessions[s.nextSession], t.sessions[s.nextSession]);
    assert OutcomeValid(t, t.outcomes[k]);
  }

  // ----- whom a step concerns -----

  predicate SameRows(s: Store, t: Store) {
    t.tokens == s.tokens && t.sessions == s.sessions
  }

  /** A logout, or a detected reuse, revokes the session and every token of one family and nothing else. */
  lemma RevocationHitsOneFamily(s: Store, a: Action, i: SessionId)
    requires Inv(s) && (a.Logout? || a.RevokeAfterReuse?) && Revokes(s, a, i)
    ensures var t := Apply(s, a);
      && t.sessions == s.sessions[i := s.sessions[i].(isRevoked := true)] && t.tokens.Keys == s.tokens.Keys
      && forall x :: x in s.tokens ==>
           t.tokens[x] == if s.tokens[x].sessionId == i then s.tokens[x].(status := Revoked) else s.tokens[x]
  {
    if a.RevokeAfterReuse? { assert RotationValid(s, s.rotations[a.r]); }
    hide RotationsValid, OneLive, OutcomesValid, OkOnce;
  }

  /** A logout everywhere notes the sessions that the user has open when it reads. */
  lemma LogoutAllReadsLiveSessions(s: Store, k: nat, u: UserId, i: SessionId)
    requires k !in s.sweeps
    ensures var t := Apply(s, LogoutAllRead(k, u));
      && SameRows(s, t) && k in t.sweeps
      && (i in t.sweeps[k] <==> i in s.sessions && s.sessions[i].userId == u && !s.sessions[i].isRevoked)
  {
  }

  /**
   * When it writes it revokes those sessions and their tokens and nothing else, so a session that
   * began in between stays open.
   */
  lemma LogoutAllRevokesExactlyTheRead(s: Store, k: nat)
    requires k in s.sweeps
    ensures var t := Apply(s, LogoutAllWrite(k));
      && t.sessions.Keys == s.sessions.Keys && t.tokens.Keys == s.tokens.Keys && k !in t.sweeps
      && (forall i :: i in s.sessions ==>
            t.sessions[i] == if i in s.sweeps[k] then s.sessions[i].(isRevoked := true) else s.sessions[i])
      && (forall x :: x in s.tokens ==>
            t.tokens[x] == if s.tokens[x].sessionId in s.sweeps[k] then s.tokens[x].(status := Revoked)
                           else s.tokens[x])
  {
  }

  /** The session of a login that comes between the two steps outlives the logout. */
  lemma LoginDuringLogoutAllSurvives(s: Store, k: nat, u: UserId, v: UserId, now: int)
    requires Inv(s) && k !in s.sweeps
    ensures var t := Apply(Apply(Apply(s, LogoutAllRead(k, u)), Issue(v, now)), LogoutAllWrite(k));
      && s.nextSession in t.sessions && !t.sessions[s.nextSession].isRevoked
      && s.nextToken in t.tokens && t.tokens[s.nextToken].status.Active?
  {
    var read := Apply(s, LogoutAllRead(k, u));
    var issued := Apply(read, Issue(v, now));
    hide RotationsValid, OneLive, OutcomesValid, OkOnce;
    assert s.nextSession !in s.sessions && s.nextSession !in read.sweeps[k] && issued.sweeps == read.sweeps;
    LogoutAllRevokesExactlyTheRead(issued, k);
  }

  /** A refused call is told why, and nothing else happens. */
  lemma RefusalIsTold(s: Store, t: TokenId, now: int)
    requires Known(s, t) && !Usable(s, t, now) && !s.tokens[t].status.Rotated?
    ensures var s' := Apply(s, Read(t, now));
      && SameRows(s, s') && s'.rotations == s.rotations
      && s'.outcomes == s.outcomes + [Outcome(s.nextRotation, t, s.tokens[t].sessionId, now, Answer(s, t, now))]
  {
  }

  /** Of two calls that both found the token usable, the one that claims second is on its way to revoke the family. */
  lemma LateClaimIsReuse(s: Store, q: RotationId, r: RotationId)
    requires q != r && At(s, q, Claiming) && At(s, r, Claiming) && s.rotations[q].tokenId == s.rotations[r].tokenId
    ensures var t := Apply(Apply(s, Claim(q)), Claim(r));
      && At(t, r, RevokingFamily) && !t.tokens[s.rotations[r].tokenId].status.Active?
  {
  }

  /** A call whose reply is lost has minted and told nobody; one that is abandoned is over and writes nothing more. */
  lemma SilentEndings(s: Store, r: RotationId)
    ensures At(s, r, Minting) ==>
      var lost := Apply(s, Mint(r, false));
      SameRows(Apply(s, Mint(r, true)), lost) && lost.outcomes == s.outcomes && r !in lost.rotations
    ensures var over := Apply(s, Abandon(r)); SameRows(s, over) && over.outcomes == s.outcomes && r !in over.rotations
  {
  }

  // ----- how long a token lives -----

  /** One undisturbed call that is told `ok`. */
  function Call(s: Store, t: TokenId, now: int): seq<Action> {
    [Read(t, now), Claim(s.nextRotation), Mint(s.nextRotation, true)]
  }

  predicate GetsOk(s: Store, t: TokenId, now: int) {
    var after := Run(s, Call(s, t, now)).outcomes;
    |after| > |s.outcomes| && after[|s.outcomes|].kind.IsOk? && after[|s.outcomes|].tokenId == t
  }

  lemma CallUnfolds(s: Store, t: TokenId, now: int)
    ensures Run(s, Call(s, t, now))
         == Apply(Apply(Apply(s, Read(t, now)), Claim(s.nextRotation)), Mint(s.nextRotation, true))
  {
    hide Apply;
    var all, r := Call(s, t, now), s.nextRotation;
    assert all[1..] == [Claim(r), Mint(r, true)] && all[1..][1..] == [Mint(r, true)] && all[1..][1..][1..] == [];
    var read := Apply(s, Read(t, now));
    assert Run(s, all) == Run(read, all[1..]) == Run(Apply(read, Claim(r)), [Mint(r, true)]);
    assert Run(Apply(Apply(read, Claim(r)), Mint(r, true)), []) == Apply(Apply(read, Claim(r)), Mint(r, true));
  }

  /** An unusable token is refused at the look-up, or its family is to be revoked: neither claims nor mints. */
  lemma UnusableGetsNoOk(s: Store, t: TokenId, now: int)
    requires Inv(s) && Known(s, t) && !Usable(s, t, now)
    ensures !GetsOk(s, t, now)
  {
    ReadMeans(s, t, now);
    CallUnfolds(s, t, now);
    hide Run;
  }

  lemma UsableIsClaimed(s: Store, t: TokenId, now: int)
    requires Inv(s) && Known(s, t) && Usable(s, t, now)
    ensures var r := s.nextRotation; var claimed := Apply(Apply(s, Read(t, now)), Claim(r));
      && Inv(claimed) && At(claimed, r, Minting) && claimed.nextToken == s.nextToken && claimed.ttlMs == s.ttlMs
      && claimed.rotations[r] == Rotation(t, s.tokens[t].sessionId, s.tokens[t].familyId, now, Minting)
      && claimed.sessions == s.sessions && claimed.outcomes == s.outcomes
  {
    var r := s.nextRotation;
    var read := Apply(s, Read(t, now));
    ReadMeans(s, t, now);
    hide Inv, Moved, Apply, Judge;
    StepKeepsInv(s, Read(t, now));
    StepKeepsInv(read, Claim(r));
    ClaimMeans(read, r);
  }

  lemma UsableIsRotated(s: Store, t: TokenId, now: int)
    requires Inv(s) && Known(s, t) && Usable(s, t, now)
    ensures var r := s.nextRotation; var i := s.tokens[t].sessionId; var next := s.nextToken;
      var s' := Apply(Apply(Apply(s, Read(t, now)), Claim(r)), Mint(r, true));
      && Inv(s') && s'.ttlMs == s.ttlMs && s'.outcomes == s.outcomes + [Outcome(r, t, i, now, IsOk)]
      && next in s'.tokens && s'.tokens[next] == Token(i, s.tokens[t].familyId, Active, now + s.ttlMs)
      && i in s'.sessions && s'.sessions[i] == s.sessions[i].(lastUsedAt := Some(now))
  {
    var claimed := Apply(Apply(s, Read(t, now)), Claim(s.nextRotation));
    UsableIsClaimed(s, t, now);
    hide Inv, Moved, Apply;
    StepKeepsInv(claimed, Mint(s.nextRotation, true));
    MintedToken(claimed, s.nextRotation);
  }

  lemma UsableGetsOk(s: Store, t: TokenId, now: int)
    requires Inv(s) && Known(s, t) && Usable(s, t, now)
    ensures GetsOk(s, t, now)
    ensures var s' := Run(s, Call(s, t, now)); var i := s.tokens[t].sessionId; var next := s.nextToken;
      && Inv(s') && s'.ttlMs == s.ttlMs
      && next in s'.tokens && s'.tokens[next] == Token(i, s.tokens[t].familyId, Active, now + s.ttlMs)
      && i in s'.sessions && s'.sessions[i] == s.sessions[i].(lastUsedAt := Some(now))
  {
    CallUnfolds(s, t, now);
    UsableIsRotated(s, t, now);
    hide Inv, Run, Apply, Call, Usable;
  }

  /** A call is told `ok` exactly for a usable token. */
  lemma OkExactlyWhenUsable(s: Store, t: TokenId, now: int)
    requires Inv(s) && Known(s, t)
    ensures GetsOk(s, t, now) <==> Usable(s, t, now)
  {
    if Usable(s, t, now) { UsableGetsOk(s, t, now); } else { UnusableGetsNoOk(s, t, now); }
  }

  /** The first token of a session can be rotated exactly before its time to live is over. */
  lemma FirstTokenLivesItsTime(s: Store, u: UserId, now: int, later: int)
    requires Inv(s)
    ensures GetsOk(Apply(s, Issue(u, now)), s.nextToken, later) <==> later < now + s.ttlMs
  {
    StepKeepsInv(s, Issue(u, now));
    var s' := Apply(s, Issue(u, now));
    hide Inv, Moved, GetsOk;
    OkExactlyWhenUsable(s', s.nextToken, later);
  }

  /**
   * After an `ok` at `now` the token that it returned can be rotated at `later` exactly when its own
   * time to live, counted from `now`, is not over, and the session's expiry, fixed at login, is not reached.
   */
  lemma NextTokenLivesItsTime(s: Store, t: TokenId, now: int, later: int)
    requires Inv(s) && Known(s, t) && GetsOk(s, t, now)
    ensures GetsOk(Run(s, Call(s, t, now)), s.nextToken, later)
      <==> later < now + s.ttlMs && later < s.sessions[s.tokens[t].sessionId].expiresAt
  {
    OkExactlyWhenUsable(s, t, now);
    UsableGetsOk(s, t, now);
    hide Inv, Run, GetsOk, Call;
    OkExactlyWhenUsable(Run(s, Call(s, t, now)), s.nextToken, later);
  }

  // ----- the service -----

  class RefreshTokenService {
    var sessions: map<SessionId, Session>
    var tokens: map<TokenId, Token>
    var rotations: map<RotationId, Rotation>
    var sweeps: map<nat, set<SessionId>>
    var outcomes: seq<Outcome>
    const ttlMs: int
    var nextSession: SessionId
    var nextToken: TokenId
    var nextRotation: RotationId

    ghost function View(): Store
      reads this
    {
      Store(sessions, tokens, rotations, sweeps, outcomes, ttlMs, nextSession, nextToken, nextRotation)
    }

    constructor (ttlMs: int)
      ensures View() == Initial(ttlMs)
    {
      sessions, tokens, rotations, sweeps, outcomes := map[], map[], map[], map[], [];
      nextSession, nextToken, nextRotation := 0, 0, 0;
      this.ttlMs := ttlMs;
    }

    method IssueSession(u: UserId, now: int) returns (t: TokenId)
      modifies this
      ensures View() == Apply(old(View()), Issue(u, now))
      ensures t == old(nextToken) && t in tokens && tokens[t].sessionId in sessions
      ensures tokens[t].status.Active? && tokens[t].expiresAt == now + ttlMs
      ensures var session := sessions[tokens[t].sessionId];
        session.userId == u && !session.isRevoked && session.expiresAt == now + ttlMs
    {
      var expiresAt := now + ttlMs;
      sessions := sessions[nextSession := Session(u, false, expiresAt, None)];
      tokens := tokens[nextToken := Token(nextSession, nextSession, Active, expiresAt)];
      t := nextToken;
      nextSession, nextToken := nextSession + 1, nextToken + 1;
    }

    /** The checks on the row found, in order; `kind` is the answer if the call ends here. */
    method Lookup(t: TokenId, now: int) returns (r: RotationId, kind: Option<Kind>)
      requires t in tokens && tokens[t].sessionId in sessions
      modifies this
      ensures View() == Apply(old(View()), Read(t, now))
      ensures r == old(nextRotation)
      ensures var verdict := Judge(old(tokens)[t], old(sessions)[old(tokens)[t].sessionId], now);
        kind == if verdict.Refuse? then Some(verdict.kind) else None
    {
      var token := tokens[t];
      var session := sessions[token.sessionId];
      r := nextRotation;
      nextRotation := nextRotation + 1;
      kind := None;
      var stage := Claiming;
      if token.status.Rotated? {
        stage := RevokingFamily;
      } else if token.status.Revoked? {
        kind := Some(IsRevoked);
      } else if token.expiresAt <= now {
        kind := Some(IsExpired);
      } else if session.isRevoked {
        kind := Some(IsRevoked);
      } else if session.expiresAt <= now {
        kind := Some(IsExpired);
      }
      if kind.Some? {
        outcomes := outcomes + [Outcome(r, t, token.sessionId, now, kind.value)];
      } else {
        rotations := rotations[r := Rotation(t, token.sessionId, token.familyId, now, stage)];
      }
    }

    method ClaimToken(r: RotationId) returns (won: bool)
      requires At(View(), r, Claiming)
      modifies this
      ensures View() == Apply(old(View()), Claim(r))
      ensures won <==> old(tokens[rotations[r].tokenId].status.Active?)
    {
      var rotation := rotations[r];
      var token := tokens[rotation.tokenId];
      won := token.status.Active?;
      if won {
        tokens := tokens[rotation.tokenId := token.(status := Rotated)];
        rotations := rotations[r := rotation.(stage := Minting)];
      } else {
        rotations := rotations[r := rotation.(stage := RevokingFamily)];
      }
    }

    method MintToken(r: RotationId) returns (t: TokenId)
      requires At(View(), r, Minting)
      modifies this
      ensures View() == Apply(old(View()), Mint(r, true))
      ensures t == old(nextToken)
    {
      var rotation := rotations[r];
      tokens := tokens[nextToken := Token(rotation.sessionId, rotation.familyId, Active, rotation.readAt + ttlMs)];
      sessions := sessions[rotation.sessionId := sessions[rotation.sessionId].(lastUsedAt := Some(rotation.readAt))];
      outcomes := outcomes + [Outcome(r, rotation.tokenId, rotation.sessionId, rotation.readAt, IsOk)];
      rotations := rotations - {r};
      t := nextToken;
      nextToken := nextToken + 1;
    }

    method RevokeRows(f: FamilyId, i: SessionId)
      requires i in sessions
      modifies this
      ensures View() == RevokeFamily(old(View()), f, i)
    {
      tokens := map t | t in tokens :: if tokens[t].familyId == f then tokens[t].(status := Revoked) else tokens[t];
      sessions := sessions[i := sessions[i].(isRevoked := true)];
    }

    /** Logout of one session; an unknown token is a no-op. */
    method RevokeByRefreshToken(t: TokenId) returns (revokedCount: nat)
      requires Inv(View())
      modifies this
      ensures View() == Apply(old(View()), Logout(t))
      ensures revokedCount == (if t in old(tokens) then 1 else 0)
      ensures t in old(tokens) ==> FamilyRevoked(View(), t)
    {
      if t !in tokens {
        return 0;
      }
      RowsKnown(View(), t);
      LogoutMeans(View(), t);
      hide Inv;
      RevokeRows(tokens[t].familyId, tokens[t].sessionId);
      revokedCount := 1;
    }

    /** Logout everywhere: every live session of the user and all their tokens. */
    method RevokeAllForUser(u: UserId) returns (revokedCount: nat)
      modifies this
      ensures View() == RevokeSessions(old(View()), LiveSessions(old(View()), u))
      ensures revokedCount == |LiveSessions(old(View()), u)|
      ensures LiveSessions(View(), u) == {}
    {
      var ids := set i | i in sessions && sessions[i].userId == u && !sessions[i].isRevoked;
      assert ids == LiveSessions(View(), u);
      tokens := map t | t in tokens :: if tokens[t].sessionId in ids then tokens[t].(status := Revoked) else tokens[t];
      sessions := map i | i in sessions :: if i in ids then sessions[i].(isRevoked := true) else sessions[i];
      revokedCount := |ids|;
    }

    /**
     * One undisturbed call.  It returns `ok` exactly for an ACTIVE, unexpired token of a live,
     * unexpired session, leaving that token ROTATED and one new ACTIVE token in its family; shown a
     * token that was rotated before, it revokes the session and every token of the family.
     */
    method Rotate(t: TokenId, now: int) returns (kind: Option<Kind>, next: Option<TokenId>)
      requires Inv(View())
      modifies this
      ensures Inv(View())
      ensures kind.None? <==> t !in old(tokens)
      ensures kind == Some(IsOk) <==> next.Some?
      ensures kind == Some(IsOk) <==> t in old(tokens) && Usable(old(View()), t, now)
      ensures next.Some? ==> next.value !in old(tokens)
      ensures next.Some? ==> ActiveTokens(View(), old(tokens)[t].familyId) == {next.value}
      ensures next.Some? ==> t in tokens && tokens[t].status.Rotated?
      ensures next.Some? ==> next.value in tokens && tokens[next.value].expiresAt == now + ttlMs
      ensures next.Some? ==> tokens[next.value].sessionId == old(tokens)[t].sessionId
      ensures t in old(tokens) && Known(old(View()), t) ==> kind == Some(Answer(old(View()), t, now))
      ensures t in old(tokens) && old(tokens)[t].status.Rotated? ==> kind == Some(IsReuse)
      ensures kind == Some(IsReuse) ==> FamilyRevoked(View(), t)
    {
      hide Inv, Run, Apply, Moved;
      if t !in tokens {
        return None, None;
      }
      RowsKnown(View(), t);
      ghost var start := View();
      var r, refused := Lookup(t, now);
      StepKeepsInv(start, Read(t, now));
      ReadMeans(start, t, now);
      if refused.Some? {
        return refused, None;
      }
      if rotations[r].stage.Claiming? {
        ghost var read := View();
        var won := ClaimToken(r);
        StepKeepsInv(read, Claim(r));
        ClaimMeans(read, r);
        ghost var claimed := View();
        var minted := MintToken(r);
        StepKeepsInv(claimed, Mint(r, true));
        MintMeans(claimed, r);
        MintedToken(claimed, r);
        return Some(IsOk), Some(minted);
      }
      var rotation := rotations[r];
      ghost var before := View();
      RevokeRows(rotation.familyId, rotation.sessionId);
      rotations := rotations - {r};
      outcomes := outcomes + [Outcome(r, t, rotation.sessionId, now, IsReuse)];
      assert View() == AfterRevoke(before, r);
      RevokeMeans(before, r);
      StepKeepsInv(before, RevokeAfterReuse(r));
      kind, next := Some(IsReuse), None;
    }
  }

  lemma LogoutMeans(s: Store, t: TokenId)
    requires Inv(s) && Known(s, t)
    ensures FamilyRevoked(Apply(s, Logout(t)), t)
  {
  }

  /** What a call is told about a token that is known: the first of these that applies. */
  function Answer(s: Store, t: TokenId, now: int): Kind
    requires Known(s, t)
  {
    var token, session := s.tokens[t], s.sessions[s.tokens[t].sessionId];
    if token.status.Rotated? then IsReuse
    else if token.status.Revoked? || (session.isRevoked && now < token.expiresAt) then IsRevoked
    else if now < token.expiresAt && now < session.expiresAt then IsOk
    else IsExpired
  }

  predicate Usable(s: Store, t: TokenId, now: int)
    requires t in s.tokens
  {
    && s.tokens[t].sessionId in s.sessions
    && s.tokens[t].status.Active? && now < s.tokens[t].expiresAt
    && !s.sessions[s.tokens[t].sessionId].isRevoked && now < s.sessions[s.tokens[t].sessionId].expiresAt
  }

  /** The token's session is revoked, and so is every token of its family. */
  predicate FamilyRevoked(s: Store, t: TokenId) {
    && Known(s, t) && s.sessions[s.tokens[t].sessionId].isRevoked
    && forall u :: u in s.tokens && s.tokens[u].familyId == s.tokens[t].familyId ==> s.tokens[u].status.Revoked?
  }

  lemma RowsKnown(s: Store, t: TokenId)
    requires Inv(s) && t in s.tokens
    ensures Known(s, t)
  {
  }

  lemma ReadMeans(s: Store, t: TokenId, now: int)
    requires Known(s, t)
    ensures var s' := Apply(s, Read(t, now)); var r := s.nextRotation;
      && s'.tokens == s.tokens && s'.sessions == s.sessions && s'.nextToken == s.nextToken && s'.ttlMs == s.ttlMs
      && match Judge(s.tokens[t], s.sessions[s.tokens[t].sessionId], now)
         case Proceed(stage) => At(s', r, stage) && s'.rotations[r].tokenId == t
                                && s'.rotations[r].familyId == s.tokens[t].familyId
                                && s'.rotations[r].sessionId == s.tokens[t].sessionId
                                && s'.rotations[r].readAt == now && s'.outcomes == s.outcomes
                                && (stage.RevokingFamily? <==> s.tokens[t].status.Rotated?)
                                && (stage.Claiming? <==> Usable(s, t, now))
         case Refuse(kind) => !Usable(s, t, now) && !s.tokens[t].status.Rotated? && kind == Answer(s, t, now)
  {
  }

  lemma ClaimMeans(s: Store, r: RotationId)
    requires Inv(s) && At(s, r, Claiming) && s.tokens[s.rotations[r].tokenId].status.Active?
    ensures var s' := Apply(s, Claim(r)); var t := s.rotations[r].tokenId;
      && At(s', r, Minting) && s'.rotations[r] == s.rotations[r].(stage := Minting) && s'.tokens.Keys == s.tokens.Keys
      && s'.tokens[t] == s.tokens[t].(status := Rotated) && s'.nextToken == s.nextToken
      && s'.sessions == s.sessions && s'.outcomes == s.outcomes && s'.ttlMs == s.ttlMs
  {
  }

  /** After a mint the new token is the family's only ACTIVE one. */
  lemma MintMeans(s: Store, r: RotationId)
    requires Inv(s) && At(s, r, Minting)
    ensures var s' := Apply(s, Mint(r, true)); var t := s.rotations[r].tokenId;
      && t in s'.tokens && s'.tokens[t] == s.tokens[t]
      && s.nextToken !in s.tokens
      && ActiveTokens(s', s.tokens[t].familyId) == {s.nextToken}
  {
    var s' := Apply(s, Mint(r, true));
    assert RotationValid(s, s.rotations[r]);
    var f := s.rotations[r].familyId;
    assert LiveIn(s, MintItem(r), f);
    forall u | u in ActiveTokens(s', f) ensures u == s.nextToken {
      if u != s.nextToken { assert LiveIn(s, TokenItem(u), f); }
    }
    assert s.nextToken in ActiveTokens(s', f);
  }

  lemma MintedToken(s: Store, r: RotationId)
    requires At(s, r, Minting)
    ensures var s' := Apply(s, Mint(r, true)); var rotation := s.rotations[r];
      && s.nextToken in s'.tokens && s'.nextToken == s.nextToken + 1
      && s'.tokens[s.nextToken] == Token(rotation.sessionId, rotation.familyId, Active, rotation.readAt + s.ttlMs)
      && s'.sessions == s.sessions[rotation.sessionId :=
           s.sessions[rotation.sessionId].(lastUsedAt := Some(rotation.readAt))]
      && s'.outcomes == s.outcomes + [OutcomeOf(r, rotation, IsOk)] && s'.ttlMs == s.ttlMs
  {
  }

  lemma RevokeMeans(s: Store, r: RotationId)
    requires Inv(s) && At(s, r, RevokingFamily)
    ensures var s' := AfterRevoke(s, r); var t := s.rotations[r].tokenId;
      && s' == Apply(s, RevokeAfterReuse(r))
      && FamilyRevoked(s', t)
  {
    assert RotationValid(s, s.rotations[r]);
  }
}