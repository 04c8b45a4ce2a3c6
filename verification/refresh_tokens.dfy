/**
 * Refresh-token rotation.  A rotation is several database steps (look the token up, claim it,
 * mint its successor, or revoke the family) and any number of them run at once, beside logouts.
 * An action is one such step; a sequence of actions is one interleaving, crashes included.
 */
module RefreshTokens {
  import opened Wrappers

  type UserId = nat
  type SessionId = nat
  type FamilyId = nat
  type TokenId = nat
  type RotationId = nat

  datatype Status = Active | Rotated | Revoked

  datatype Token = Token(sessionId: SessionId, familyId: FamilyId, status: Status, expiresAt: int)

  datatype Session = Session(userId: UserId, isRevoked: bool, expiresAt: int, lastUsedAt: Option<int>)

  /** What is left for a call to `rotate` to do once it has looked its token up. */
  datatype Stage = Claiming | Minting | RevokingFamily

  datatype Rotation = Rotation(
    tokenId: TokenId, sessionId: SessionId, familyId: FamilyId, readAt: int, stage: Stage)

  datatype Kind = IsOk | IsReuse | IsRevoked | IsExpired

  /** What a call to `rotate` returned, and for which token and session. */
  datatype Outcome = Outcome(rotationId: RotationId, tokenId: TokenId, sessionId: SessionId, readAt: int, kind: Kind)

  datatype Store = Store(
    sessions: map<SessionId, Session>,
    tokens: map<TokenId, Token>,
    rotations: map<RotationId, Rotation>,
    sweeps: map<nat, set<SessionId>>,
    outcomes: seq<Outcome>,
    ttlMs: int,
    nextSession: SessionId,
    nextToken: TokenId,
    nextRotation: RotationId)

  datatype Action =
    | Issue(u: UserId, now: int)
    | Read(t: TokenId, now: int)
    | Claim(r: RotationId)
    | Mint(r: RotationId, reported: bool)
    | RevokeAfterReuse(r: RotationId)
    | Abandon(r: RotationId)
    | Logout(t: TokenId)
    | LogoutAllRead(k: nat, u: UserId)
    | LogoutAllWrite(k: nat)

  function Initial(ttlMs: int): Store {
    Store(map[], map[], map[], map[], [], ttlMs, 0, 0, 0)
  }

  // ----- the steps -----

  /** A session and its first token commit together; the session's id stands for its family too. */
  function Issued(s: Store, u: UserId, now: int): Store {
    var expiresAt := now + s.ttlMs;
    s.(sessions := s.sessions[s.nextSession := Session(u, false, expiresAt, None)],
       tokens := s.tokens[s.nextToken := Token(s.nextSession, s.nextSession, Active, expiresAt)],
       nextSession := s.nextSession + 1, nextToken := s.nextToken + 1)
  }

  datatype Verdict = Proceed(stage: Stage) | Refuse(kind: Kind)

  /** The checks `rotate` makes on the row it read, in its order. */
  function Judge(token: Token, session: Session, now: int): Verdict {
    if token.status.Rotated? then Proceed(RevokingFamily)
    else if token.status.Revoked? then Refuse(IsRevoked)
    else if token.expiresAt <= now then Refuse(IsExpired)
    else if session.isRevoked then Refuse(IsRevoked)
    else if session.expiresAt <= now then Refuse(IsExpired)
    else Proceed(Claiming)
  }

  predicate Known(s: Store, t: TokenId) {
    t in s.tokens && s.tokens[t].sessionId in s.sessions
  }

  function AfterRead(s: Store, t: TokenId, now: int): Store
    requires Known(s, t)
  {
    var token := s.tokens[t];
    var id := s.nextRotation;
    match Judge(token, s.sessions[token.sessionId], now)
    case Proceed(stage) =>
      s.(rotations := s.rotations[id := Rotation(t, token.sessionId, token.familyId, now, stage)],
         nextRotation := id + 1)
    case Refuse(kind) =>
      s.(outcomes := s.outcomes + [Outcome(id, t, token.sessionId, now, kind)], nextRotation := id + 1)
  }

  predicate At(s: Store, r: RotationId, stage: Stage) {
    r in s.rotations && s.rotations[r].stage == stage && s.rotations[r].tokenId in s.tokens
    && s.rotations[r].sessionId in s.sessions
  }

  /** The conditional update: only a token that is still ACTIVE is claimed. */
  function AfterClaim(s: Store, r: RotationId): Store
    requires At(s, r, Claiming)
  {
    var rotation := s.rotations[r];
    var token := s.tokens[rotation.tokenId];
    if token.status.Active? then
      s.(tokens := s.tokens[rotation.tokenId := token.(status := Rotated)],
         rotations := s.rotations[r := rotation.(stage := Minting)])
    else s.(rotations := s.rotations[r := rotation.(stage := RevokingFamily)])
  }

  function OutcomeOf(r: RotationId, rotation: Rotation, kind: Kind): Outcome {
    Outcome(r, rotation.tokenId, rotation.sessionId, rotation.readAt, kind)
  }

  function AfterMint(s: Store, r: RotationId, reported: bool): Store
    requires At(s, r, Minting)
  {
    var rotation := s.rotations[r];
    var token := Token(rotation.sessionId, rotation.familyId, Active, rotation.readAt + s.ttlMs);
    var session := s.sessions[rotation.sessionId].(lastUsedAt := Some(rotation.readAt));
    s.(tokens := s.tokens[s.nextToken := token],
       sessions := s.sessions[rotation.sessionId := session],
       rotations := s.rotations - {r},
       outcomes := if reported then s.outcomes + [OutcomeOf(r, rotation, IsOk)] else s.outcomes,
       nextToken := s.nextToken + 1)
  }

  function RevokedToken(token: Token, hit: bool): Token {
    if hit then token.(status := Revoked) else token
  }

  function RevokeFamily(s: Store, familyId: FamilyId, sessionId: SessionId): (t: Store)
    requires sessionId in s.sessions
    ensures t.tokens.Keys == s.tokens.Keys && t.sessions.Keys == s.sessions.Keys
    ensures t.rotations == s.rotations && t.outcomes == s.outcomes
  {
    s.(tokens := map t | t in s.tokens :: RevokedToken(s.tokens[t], s.tokens[t].familyId == familyId),
       sessions := s.sessions[sessionId := s.sessions[sessionId].(isRevoked := true)])
  }

  function AfterRevoke(s: Store, r: RotationId): Store
    requires At(s, r, RevokingFamily)
  {
    var rotation := s.rotations[r];
    RevokeFamily(s, rotation.familyId, rotation.sessionId).(
      rotations := s.rotations - {r}, outcomes := s.outcomes + [OutcomeOf(r, rotation, IsReuse)])
  }

  function LiveSessions(s: Store, u: UserId): set<SessionId> {
    set i | i in s.sessions && s.sessions[i].userId == u && !s.sessions[i].isRevoked
  }

  function RevokeSessions(s: Store, ids: set<SessionId>): (t: Store)
    ensures t.tokens.Keys == s.tokens.Keys && t.sessions.Keys == s.sessions.Keys
    ensures t.rotations == s.rotations && t.outcomes == s.outcomes
  {
    s.(tokens := map t | t in s.tokens :: RevokedToken(s.tokens[t], s.tokens[t].sessionId in ids),
       sessions := map i | i in s.sessions ::
         if i in ids then s.sessions[i].(isRevoked := true) else s.sessions[i])
  }

  predicate Enabled(s: Store, a: Action) {
    match a
    case Issue(_, _) => true
    case Read(t, _) => Known(s, t)
    case Claim(r) => At(s, r, Claiming)
    case Mint(r, _) => At(s, r, Minting)
    case RevokeAfterReuse(r) => At(s, r, RevokingFamily)
    case Abandon(r) => r in s.rotations
    case Logout(t) => Known(s, t)
    case LogoutAllRead(k, _) => k !in s.sweeps
    case LogoutAllWrite(k) => k in s.sweeps
  }

  function Apply(s: Store, a: Action): Store {
    if !Enabled(s, a) then s
    else
      match a
      case Issue(u, now) => Issued(s, u, now)
      case Read(t, now) => AfterRead(s, t, now)
      case Claim(r) => AfterClaim(s, r)
      case Mint(r, reported) => AfterMint(s, r, reported)
      case RevokeAfterReuse(r) => AfterRevoke(s, r)
      case Abandon(r) => s.(rotations := s.rotations - {r})
      case Logout(t) => RevokeFamily(s, s.tokens[t].familyId, s.tokens[t].sessionId)
      case LogoutAllRead(k, u) => s.(sweeps := s.sweeps[k := LiveSessions(s, u)])
      case LogoutAllWrite(k) => RevokeSessions(s, s.sweeps[k]).(sweeps := s.sweeps - {k})
  }

  function Run(s: Store, actions: seq<Action>): Store
    decreases |actions|
  {
    if actions == [] then s else Run(Apply(s, actions[0]), actions[1..])
  }

  // ----- what every step keeps -----

  /** A family has exactly one session, and ids are never handed out twice. */
  ghost predicate RowsValid(s: Store) {
    && (forall t :: t in s.tokens ==> t < s.nextToken && s.tokens[t].sessionId in s.sessions
                                      && s.tokens[t].familyId == s.tokens[t].sessionId)
    && (forall i :: i in s.sessions ==> i < s.nextSession)
    && (forall r :: r in s.rotations ==> r < s.nextRotation)
    && (forall i :: 0 <= i < |s.outcomes| ==> s.outcomes[i].rotationId < s.nextRotation)
  }

  /** A rotation under way knows its token, was entitled to start, and has claimed before it mints. */
  predicate RotationValid(s: Store, rotation: Rotation) {
    && rotation.tokenId in s.tokens && rotation.sessionId in s.sessions
    && rotation.familyId == s.tokens[rotation.tokenId].familyId
    && rotation.sessionId == s.tokens[rotation.tokenId].sessionId
    && (!rotation.stage.RevokingFamily? ==> rotation.readAt < s.sessions[rotation.sessionId].expiresAt)
    && (rotation.stage.Minting? ==> !s.tokens[rotation.tokenId].status.Active?)
  }

  ghost predicate RotationsValid(s: Store) {
    forall r :: r in s.rotations ==> RotationValid(s, s.rotations[r])
  }

  /** What can still yield a usable token: an ACTIVE token, or a rotation that has claimed and not yet minted. */
  datatype Item = TokenItem(t: TokenId) | MintItem(r: RotationId)

  predicate LiveIn(s: Store, x: Item, f: FamilyId) {
    match x
    case TokenItem(t) => t in s.tokens && s.tokens[t].familyId == f && s.tokens[t].status.Active?
    case MintItem(r) => r in s.rotations && s.rotations[r].familyId == f && s.rotations[r].stage.Minting?
  }

  /** No family has two live items. */
  ghost predicate OneLive(s: Store) {
    forall x, y, f :: LiveIn(s, x, f) && LiveIn(s, y, f) ==> x == y
  }

  predicate OutcomeValid(s: Store, o: Outcome) {
    && o.sessionId in s.sessions && o.tokenId in s.tokens && s.tokens[o.tokenId].sessionId == o.sessionId
    && (o.kind.IsOk? ==> !s.tokens[o.tokenId].status.Active? && o.readAt < s.sessions[o.sessionId].expiresAt)
    && (o.kind.IsReuse? ==> s.sessions[o.sessionId].isRevoked)
  }

  ghost predicate OutcomesValid(s: Store) {
    forall i :: 0 <= i < |s.outcomes| ==> OutcomeValid(s, s.outcomes[i])
  }

  /** No token is rotated successfully twice, nor while a rotation of it is still to mint. */
  ghost predicate OkOnce(s: Store) {
    && (forall i, j :: 0 <= i < j < |s.outcomes| ==> !BothOk(s.outcomes[i], s.outcomes[j]))
    && (forall i, r :: 0 <= i < |s.outcomes| && r in s.rotations ==> !OkAndMinting(s.outcomes[i], s.rotations[r]))
  }

  predicate BothOk(o: Outcome, p: Outcome) {
    o.kind.IsOk? && p.kind.IsOk? && o.tokenId == p.tokenId
  }

  predicate OkAndMinting(o: Outcome, rotation: Rotation) {
    o.kind.IsOk? && rotation.stage.Minting? && o.tokenId == rotation.tokenId
  }

  ghost predicate Inv(s: Store) {
    RowsValid(s) && RotationsValid(s) && OneLive(s) && OutcomesValid(s) && OkOnce(s)
  }

  function Rank(status: Status): nat {
    match status case Active => 0 case Rotated => 1 case Revoked => 2
  }

  predicate TokenMoved(before: Token, after: Token) {
    && after == before.(status := after.status)
    && Rank(before.status) <= Rank(after.status)
  }

  predicate SessionMoved(before: Session, after: Session) {
    && after.userId == before.userId && after.expiresAt == before.expiresAt
    && (before.isRevoked ==> after.isRevoked)
  }

  /** Rows are only added, token status only moves forward, revocation is final, expiry never moves. */
  ghost predicate Moved(s: Store, t: Store) {
    && s.tokens.Keys <= t.tokens.Keys && s.sessions.Keys <= t.sessions.Keys
    && (forall k :: k in s.tokens ==> TokenMoved(s.tokens[k], t.tokens[k]))
    && (forall i :: i in s.sessions ==> SessionMoved(s.sessions[i], t.sessions[i]))
    && s.nextRotation <= t.nextRotation && s.nextToken <= t.nextToken && s.nextSession <= t.nextSession
    && s.outcomes <= t.outcomes
  }

  lemma OutcomesStayValid(s: Store, t: Store)
    requires OutcomesValid(s) && Moved(s, t)
    ensures forall i :: 0 <= i < |s.outcomes| ==> OutcomeValid(t, t.outcomes[i])
  {
    forall i | 0 <= i < |s.outcomes| ensures OutcomeValid(t, t.outcomes[i]) {
      assert OutcomeValid(s, s.outcomes[i]) && t.outcomes[i] == s.outcomes[i];
    }
  }

  lemma RotationsStayValid(s: Store, t: Store, r: RotationId)
    requires RotationsValid(s) && Moved(s, t) && r in s.rotations
    ensures RotationValid(t, s.rotations[r])
  {
    assert RotationValid(s, s.rotations[r]);
  }

  // ----- the steps, one at a time -----

  lemma IssueKeepsOneLive(s: Store, u: UserId, now: int)
    requires RowsValid(s) && RotationsValid(s) && OneLive(s)
    ensures OneLive(Issued(s, u, now))
  {
    var t := Issued(s, u, now);
    forall x, f | LiveIn(t, x, f)
      ensures if f == s.nextSession then x == TokenItem(s.nextToken) else LiveIn(s, x, f)
    {
      if x.MintItem? { assert RotationValid(s, s.rotations[x.r]); }
    }
  }

  lemma IssueKeepsInv(s: Store, u: UserId, now: int)
    requires Inv(s)
    ensures Inv(Issued(s, u, now)) && Moved(s, Issued(s, u, now))
  {
    var t := Issued(s, u, now);
    IssueKeepsOneLive(s, u, now);
    assert Moved(s, t);
    assert RowsValid(t);
    hide OneLive, RowsValid;
    OutcomesStayValid(s, t);
    forall r | r in t.rotations ensures RotationValid(t, t.rotations[r]) { RotationsStayValid(s, t, r); }
  }

  lemma ReadKeepsInv(s: Store, k: TokenId, now: int)
    requires Inv(s) && Known(s, k)
    ensures Inv(AfterRead(s, k, now)) && Moved(s, AfterRead(s, k, now))
  {
    var t := AfterRead(s, k, now);
    ReadKeepsOneLive(s, k, now);
    hide OneLive;
    assert Moved(s, t);
    assert RowsValid(t);
    hide RowsValid;
    OutcomesStayValid(s, t);
    forall r | r in t.rotations ensures RotationValid(t, t.rotations[r]) {
      if r in s.rotations { RotationsStayValid(s, t, r); }
    }
    assert OkOnce(t);
  }

  lemma ReadKeepsOneLive(s: Store, k: TokenId, now: int)
    requires RowsValid(s) && OneLive(s) && Known(s, k)
    ensures OneLive(AfterRead(s, k, now))
  {
    assert forall x, f :: LiveIn(AfterRead(s, k, now), x, f) ==> LiveIn(s, x, f);
  }

  lemma ClaimKeepsOneLive(s: Store, r: RotationId)
    requires RotationsValid(s) && OneLive(s) && At(s, r, Claiming)
    ensures OneLive(AfterClaim(s, r))
  {
    var t := AfterClaim(s, r);
    assert RotationValid(s, s.rotations[r]);
    var k := s.rotations[r].tokenId;
    forall x, f | LiveIn(t, x, f)
      ensures LiveIn(s, if x == MintItem(r) then TokenItem(k) else x, f)
    {
    }
    forall x, y, f | LiveIn(t, x, f) && LiveIn(t, y, f) ensures x == y {
      assert !LiveIn(t, TokenItem(k), f);
    }
  }

  lemma ClaimKeepsOutcomes(s: Store, r: RotationId)
    requires Inv(s) && At(s, r, Claiming)
    ensures OkOnce(AfterClaim(s, r)) && Moved(s, AfterClaim(s, r)) && RowsValid(AfterClaim(s, r))
  {
    var t := AfterClaim(s, r);
    forall i, q | 0 <= i < |t.outcomes| && q in t.rotations ensures !OkAndMinting(t.outcomes[i], t.rotations[q]) {
      assert OutcomeValid(s, s.outcomes[i]);
      assert !OkAndMinting(s.outcomes[i], s.rotations[q]);
    }
  }

  lemma ClaimKeepsInv(s: Store, r: RotationId)
    requires Inv(s) && At(s, r, Claiming)
    ensures Inv(AfterClaim(s, r)) && Moved(s, AfterClaim(s, r))
  {
    var t := AfterClaim(s, r);
    hide OneLive, RowsValid, OkOnce, Moved;
    ClaimKeepsOneLive(s, r);
    ClaimKeepsOutcomes(s, r);
    OutcomesStayValid(s, t);
    forall q | q in t.rotations ensures RotationValid(t, t.rotations[q]) {
      RotationsStayValid(s, t, q);
    }
  }

  lemma MintKeepsOneLive(s: Store, r: RotationId, reported: bool)
    requires RowsValid(s) && OneLive(s) && At(s, r, Minting)
    ensures OneLive(AfterMint(s, r, reported))
  {
    var t := AfterMint(s, r, reported);
    forall x, f | LiveIn(t, x, f)
      ensures LiveIn(s, if x == TokenItem(s.nextToken) then MintItem(r) else x, f)
    {
    }
    forall x, y, f | LiveIn(t, x, f) && LiveIn(t, y, f) ensures x == y {
      assert !LiveIn(t, MintItem(r), f);
    }
  }

  lemma MintKeepsOutcomes(s: Store, r: RotationId, reported: bool)
    requires Inv(s) && At(s, r, Minting)
    ensures var t := AfterMint(s, r, reported); OkOnce(t) && Moved(s, t) && RowsValid(t)
  {
    var t := AfterMint(s, r, reported);
    assert RotationValid(s, s.rotations[r]);
    forall i, j | 0 <= i < j < |t.outcomes| ensures !BothOk(t.outcomes[i], t.outcomes[j]) {
      if j == |s.outcomes| {
        assert !OkAndMinting(s.outcomes[i], s.rotations[r]);
      } else {
        assert !BothOk(s.outcomes[i], s.outcomes[j]);
      }
    }
    forall i, q | 0 <= i < |t.outcomes| && q in t.rotations ensures !OkAndMinting(t.outcomes[i], t.rotations[q]) {
      if i == |s.outcomes| {
        assert RotationValid(s, s.rotations[q]);
        if s.rotations[q].stage.Minting? && s.rotations[q].tokenId == s.rotations[r].tokenId {
          assert LiveIn(s, MintItem(q), s.rotations[r].familyId) && LiveIn(s, MintItem(r), s.rotations[r].familyId);
        }
      } else {
        assert !OkAndMinting(s.outcomes[i], s.rotations[q]);
      }
    }
  }

  lemma MintKeepsInv(s: Store, r: RotationId, reported: bool)
    requires Inv(s) && At(s, r, Minting)
    ensures Inv(AfterMint(s, r, reported)) && Moved(s, AfterMint(s, r, reported))
  {
    var t := AfterMint(s, r, reported);
    assert RotationValid(s, s.rotations[r]);
    hide OneLive, RowsValid, OkOnce, Moved;
    MintKeepsOneLive(s, r, reported);
    MintKeepsOutcomes(s, r, reported);
    OutcomesStayValid(s, t);
    RotationsStayValid(s, t, r);
    forall q | q in t.rotations ensures RotationValid(t, t.rotations[q]) {
      RotationsStayValid(s, t, q);
    }
  }

  /** A step that only revokes: tokens and sessions keep their keys, and nothing becomes ACTIVE. */
  lemma RevokingKeepsInv(s: Store, t: Store)
    requires Inv(s) && Moved(s, t)
    requires t.tokens.Keys == s.tokens.Keys && t.sessions.Keys == s.sessions.Keys
    requires t.rotations == s.rotations && t.outcomes == s.outcomes
    requires t.nextSession == s.nextSession && t.nextToken == s.nextToken && t.nextRotation == s.nextRotation
    ensures Inv(t)
  {
    assert RowsValid(t);
    assert forall x, f :: LiveIn(t, x, f) ==> LiveIn(s, x, f);
    assert OneLive(t);
    assert OkOnce(t);
    hide OneLive, RowsValid, OkOnce, Moved;
    OutcomesStayValid(s, t);
    forall q | q in t.rotations ensures RotationValid(t, t.rotations[q]) {
      RotationsStayValid(s, t, q);
    }
  }

  lemma RevokeFamilyKeepsInv(s: Store, f: FamilyId, i: SessionId)
    requires Inv(s) && i in s.sessions
    ensures Inv(RevokeFamily(s, f, i)) && Moved(s, RevokeFamily(s, f, i))
  {
    assert Moved(s, RevokeFamily(s, f, i)) by { hide Inv; }
    hide Inv, Moved;
    RevokingKeepsInv(s, RevokeFamily(s, f, i));
  }

  lemma RevokeSessionsKeepsInv(s: Store, ids: set<SessionId>)
    requires Inv(s)
    ensures Inv(RevokeSessions(s, ids)) && Moved(s, RevokeSessions(s, ids))
  {
    assert Moved(s, RevokeSessions(s, ids)) by { hide Inv; }
    hide Inv, Moved;
    RevokingKeepsInv(s, RevokeSessions(s, ids));
  }

  lemma FinishKeepsInv(s: Store, t: Store, r: RotationId)
    requires Inv(s) && r in s.rotations
    requires s.rotations[r].sessionId in s.sessions && s.sessions[s.rotations[r].sessionId].isRevoked
    requires t == s.(rotations := s.rotations - {r}, outcomes := s.outcomes + [OutcomeOf(r, s.rotations[r], IsReuse)])
    ensures Inv(t) && Moved(s, t)
  {
    assert RotationValid(s, s.rotations[r]);
    assert Moved(s, t);
    assert RowsValid(t);
    assert forall x, f :: LiveIn(t, x, f) ==> LiveIn(s, x, f);
    assert OneLive(t);
    assert OkOnce(t);
    hide OneLive, RowsValid, OkOnce;
    OutcomesStayValid(s, t);
    forall q | q in t.rotations ensures RotationValid(t, t.rotations[q]) {
      RotationsStayValid(s, t, q);
    }
  }

  lemma AbandonKeepsInv(s: Store, r: RotationId)
    requires Inv(s)
    ensures var t := s.(rotations := s.rotations - {r}); Inv(t) && Moved(s, t)
  {
    var t := s.(rotations := s.rotations - {r});
    assert Moved(s, t);
    assert forall x, f :: LiveIn(t, x, f) ==> LiveIn(s, x, f);
    assert OneLive(t);
    assert RowsValid(t) && OkOnce(t);
    hide OneLive, RowsValid, OkOnce;
    OutcomesStayValid(s, t);
    forall q | q in t.rotations ensures RotationValid(t, t.rotations[q]) {
      RotationsStayValid(s, t, q);
    }
  }

  lemma SweepsAreFree(s: Store, t: Store)
    requires Inv(s) && t == s.(sweeps := t.sweeps)
    ensures Inv(t) && Moved(s, t)
  {
    assert forall x, f :: LiveIn(t, x, f) ==> LiveIn(s, x, f);
    assert OneLive(t) && RowsValid(t) && OkOnce(t) && Moved(s, t);
    hide OneLive, RowsValid, OkOnce;
    OutcomesStayValid(s, t);
    forall q | q in t.rotations ensures RotationValid(t, t.rotations[q]) {
      RotationsStayValid(s, t, q);
    }
  }

  lemma MovedTwice(s: Store, t: Store, u: Store)
    requires Moved(s, t) && Moved(t, u)
    ensures Moved(s, u)
  {
    forall k | k in s.tokens ensures TokenMoved(s.tokens[k], u.tokens[k]) {
      assert TokenMoved(s.tokens[k], t.tokens[k]) && TokenMoved(t.tokens[k], u.tokens[k]);
    }
  }

  lemma RevokeStepKeepsInv(s: Store, r: RotationId)
    requires Inv(s) && At(s, r, RevokingFamily)
    ensures Inv(AfterRevoke(s, r)) && Moved(s, AfterRevoke(s, r))
  {
    hide Inv, Moved;
    var t := RevokeFamily(s, s.rotations[r].familyId, s.rotations[r].sessionId);
    RevokeFamilyKeepsInv(s, s.rotations[r].familyId, s.rotations[r].sessionId);
    FinishKeepsInv(t, AfterRevoke(s, r), r);
    MovedTwice(s, t, AfterRevoke(s, r));
  }

  lemma NothingMoved(s: Store)
    ensures Moved(s, s)
  {
  }

  /** Every step keeps the invariant and only moves rows forward. */
  lemma StepKeepsInv(s: Store, a: Action)
    requires Inv(s)
    ensures Inv(Apply(s, a)) && Moved(s, Apply(s, a))
  {
    hide Inv, Moved, AfterRead, AfterClaim, AfterMint, AfterRevoke, Issued;
    NothingMoved(s);
    if Enabled(s, a) {
      match a
      case Issue(u, now) => IssueKeepsInv(s, u, now);
      case Read(t, now) => ReadKeepsInv(s, t, now);
      case Claim(r) => ClaimKeepsInv(s, r);
      case Mint(r, reported) => MintKeepsInv(s, r, reported);
      case RevokeAfterReuse(r) => RevokeStepKeepsInv(s, r);
      case Abandon(r) => AbandonKeepsInv(s, r);
      case Logout(t) => RevokeFamilyKeepsInv(s, s.tokens[t].familyId, s.tokens[t].sessionId);
      case LogoutAllRead(k, u) => SweepsAreFree(s, Apply(s, a));
      case LogoutAllWrite(k) =>
        RevokeSessionsKeepsInv(s, s.sweeps[k]);
        SweepsAreFree(RevokeSessions(s, s.sweeps[k]), Apply(s, a));
        MovedTwice(s, RevokeSessions(s, s.sweeps[k]), Apply(s, a));
    }
  }

  lemma {:induction false} RunKeepsInv(s: Store, actions: seq<Action>)
    requires Inv(s)
    ensures Inv(Run(s, actions)) && Moved(s, Run(s, actions))
    decreases |actions|
  {
    hide Inv, Moved, Apply;
    if actions == [] {
      NothingMoved(s);
    } else {
      var t := Apply(s, actions[0]);
      StepKeepsInv(s, actions[0]);
      RunKeepsInv(t, actions[1..]);
      MovedTwice(s, t, Run(t, actions[1..]));
    }
  }
}
