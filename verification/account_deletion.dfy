/**
 * Account deletion.  A request waits out a cooling-off period; sweeps work through lists of due
 * requests that may be stale, claim each one, finalize it and, on an error, report the failure.
 * Every guarded write is one step, so a sequence of actions is one interleaving of sweeps, user
 * requests, cancellations, crashes, late commits and the clock.
 */
module AccountDeletion {
  import opened Wrappers

  type UserId = nat
  type RequestId = nat
  type SweepId = nat

  /** Both the column default and the literal that the due query compares with. */
  const MAX_ATTEMPTS := 5

  datatype Status = Pending | Processing | Completed | Cancelled | Failed

  datatype Request = Request(
    userId: UserId, status: Status, scheduledFor: int, attemptCount: nat, nextAttemptAt: Option<int>)

  /** What a sweep read of a request, and works with until it is done with it. */
  datatype Snapshot = Snapshot(id: RequestId, attemptCount: nat)

  /** `Committed` is a finalization that took effect and whose reply has not arrived. */
  datatype Stage = Choosing | Finalizing | Committed | Reporting

  /** The head of `due` is the request that the sweep is working on. */
  datatype Sweep = Sweep(due: seq<Snapshot>, stage: Stage)

  /**
   * `transit` are the finalizing transactions that no sweep waits for any more and that can still
   * commit; `finalized` records every finalization that took effect, in order.
   */
  datatype System = System(
    requests: seq<Request>,
    sweeps: map<SweepId, Sweep>,
    nextSweep: SweepId,
    now: int,
    transit: multiset<RequestId>,
    finalized: seq<RequestId>)

  datatype Action =
    | RequestDeletion(u: UserId, coolingMs: int)
    | CancelDeletion(u: UserId)
    | Tick(ms: nat)
    | SweepReads(ids: seq<RequestId>)
    | SweepClaims(w: SweepId)
    | Commits(w: SweepId)
    | Replies(w: SweepId)
    | Throws(w: SweepId, undecided: bool)
    | Reports(w: SweepId)
    | Ends(w: SweepId, undecided: bool)
    | LateCommits(id: RequestId)

  function Initial(): System {
    System([], map[], 0, 0, multiset{}, [])
  }

  // ----- the steps -----

  predicate Active(status: Status) {
    status.Pending? || status.Processing?
  }

  predicate HasActive(requests: seq<Request>, u: UserId) {
    exists i :: 0 <= i < |requests| && requests[i].userId == u && Active(requests[i].status)
  }

  predicate Due(r: Request, now: int) {
    && r.status.Pending? && r.scheduledFor <= now && r.attemptCount < MAX_ATTEMPTS
    && (r.nextAttemptAt.None? || r.nextAttemptAt.value <= now)
  }

  /** A result of the due query, whose order is not specified. */
  predicate Lists(s: System, ids: seq<RequestId>) {
    && (forall i :: 0 <= i < |ids| ==> ids[i] < |s.requests|)
    && (forall i, j :: 0 <= i < j < |ids| ==> ids[i] != ids[j])
    && (forall r :: 0 <= r < |s.requests| ==> (r in ids <==> Due(s.requests[r], s.now)))
  }

  predicate Busy(s: System, w: SweepId, stage: Stage) {
    && w in s.sweeps && s.sweeps[w].stage == stage && s.sweeps[w].due != []
    && s.sweeps[w].due[0].id < |s.requests|
  }

  function CancelOne(r: Request, u: UserId): Request {
    if r.userId == u && r.status.Pending? then r.(status := Cancelled) else r
  }

  function CancelAll(requests: seq<Request>, u: UserId): seq<Request> {
    seq(|requests|, i requires 0 <= i < |requests| => CancelOne(requests[i], u))
  }

  function Pow5(n: nat): nat {
    if n == 0 then 1 else 5 * Pow5(n - 1)
  }

  /** What a failure report makes of the row, given the attempt count the sweep had read. */
  function Failure(r: Request, seen: nat, now: int): Request {
    if !r.status.Processing? then r
    else if seen + 1 >= MAX_ATTEMPTS then r.(status := Failed)
    else r.(status := Pending, nextAttemptAt := Some(now + Pow5(seen) * 60_000))
  }

  predicate Enabled(s: System, a: Action) {
    match a
    case RequestDeletion(u, _) => !HasActive(s.requests, u)
    case CancelDeletion(_) => true
    case Tick(_) => true
    case SweepReads(ids) => Lists(s, ids)
    case SweepClaims(w) => Busy(s, w, Choosing)
    case Commits(w) => Busy(s, w, Finalizing)
    case Replies(w) => Busy(s, w, Committed)
    case Throws(w, undecided) => Busy(s, w, Finalizing) || (Busy(s, w, Committed) && !undecided)
    case Reports(w) => Busy(s, w, Reporting)
    case Ends(w, undecided) => w in s.sweeps && (undecided ==> Busy(s, w, Finalizing))
    case LateCommits(id) => id in s.transit && id < |s.requests|
  }

  function Snapshots(requests: seq<Request>, ids: seq<RequestId>): seq<Snapshot>
    requires forall i :: 0 <= i < |ids| ==> ids[i] < |requests|
  {
    seq(|ids|, i requires 0 <= i < |ids| => Snapshot(ids[i], requests[ids[i]].attemptCount))
  }

  function Update(s: System, w: SweepId, sweep: Sweep, id: RequestId, r: Request): System
    requires id < |s.requests|
  {
    s.(sweeps := s.sweeps[w := sweep], requests := s.requests[id := r])
  }

  /** A sweep gives up on its transaction, which may or may not be over. */
  function GivenUp(s: System, w: SweepId, undecided: bool): System
    requires undecided ==> Busy(s, w, Finalizing)
  {
    if undecided then s.(transit := s.transit + multiset{s.sweeps[w].due[0].id}) else s
  }

  /** The finalizing transaction writes without asking for the status that it finds. */
  function Finalized(s: System, id: RequestId): System
    requires id < |s.requests|
  {
    s.(requests := s.requests[id := s.requests[id].(status := Completed)], finalized := s.finalized + [id])
  }

  function Apply(s: System, a: Action): System {
    if !Enabled(s, a) then s
    else
      match a
      case RequestDeletion(u, coolingMs) =>
        s.(requests := s.requests + [Request(u, Pending, s.now + coolingMs, 0, None)])
      case CancelDeletion(u) => s.(requests := CancelAll(s.requests, u))
      case Tick(ms) => s.(now := s.now + ms)
      case SweepReads(ids) =>
        s.(sweeps := s.sweeps[s.nextSweep := Sweep(Snapshots(s.requests, ids), Choosing)], nextSweep := s.nextSweep + 1)
      case SweepClaims(w) =>
        var sweep := s.sweeps[w];
        var r := s.requests[sweep.due[0].id];
        if r.status.Pending? then
          Update(s, w, sweep.(stage := Finalizing), sweep.due[0].id,
                 r.(status := Processing, attemptCount := r.attemptCount + 1))
        else
          s.(sweeps := s.sweeps[w := sweep.(due := sweep.due[1..])])
      case Commits(w) =>
        Finalized(s, s.sweeps[w].due[0].id).(sweeps := s.sweeps[w := s.sweeps[w].(stage := Committed)])
      case Replies(w) =>
        s.(sweeps := s.sweeps[w := Sweep(s.sweeps[w].due[1..], Choosing)])
      case Throws(w, undecided) =>
        GivenUp(s, w, undecided).(sweeps := s.sweeps[w := s.sweeps[w].(stage := Reporting)])
      case Reports(w) =>
        var sweep := s.sweeps[w];
        var x := sweep.due[0];
        Update(s, w, Sweep(sweep.due[1..], Choosing), x.id, Failure(s.requests[x.id], x.attemptCount, s.now))
      case Ends(w, undecided) => GivenUp(s, w, undecided).(sweeps := s.sweeps - {w})
      case LateCommits(id) => Finalized(s, id).(transit := s.transit - multiset{id})
  }

  function Run(s: System, actions: seq<Action>): System
    decreases |actions|
  {
    if actions == [] then s else Run(Apply(s, actions[0]), actions[1..])
  }

  // ----- what every step keeps -----

  predicate Holds(s: System, w: SweepId, r: RequestId) {
    w in s.sweeps && !s.sweeps[w].stage.Choosing? && s.sweeps[w].due != [] && s.sweeps[w].due[0].id == r
  }

  predicate Terminal(status: Status) {
    status.Completed? || status.Cancelled? || status.Failed?
  }

  predicate StageFits(stage: Stage, status: Status) {
    match stage
    case Choosing => true
    case Finalizing => status.Processing? || status.Completed?
    case Committed => status.Completed?
    case Reporting => status.Processing? || status.Completed?
  }

  predicate SweepValid(sweep: Sweep, requests: seq<Request>) {
    && (forall i :: 0 <= i < |sweep.due| ==> sweep.due[i].id < |requests|)
    && (!sweep.stage.Choosing? ==> sweep.due != [] && StageFits(sweep.stage, requests[sweep.due[0].id].status))
  }

  ghost predicate SweepsValid(s: System) {
    forall w :: w in s.sweeps ==> w < s.nextSweep && SweepValid(s.sweeps[w], s.requests)
  }

  ghost predicate OneHolder(s: System) {
    forall w, v, r :: Holds(s, w, r) && Holds(s, v, r) ==> w == v
  }

  predicate Rival(requests: seq<Request>, i: RequestId, j: RequestId) {
    i < j < |requests| && requests[i].userId == requests[j].userId
    && Active(requests[i].status) && Active(requests[j].status)
  }

  ghost predicate OneActive(s: System) {
    forall i, j :: !Rival(s.requests, i, j)
  }

  predicate FinalizedExactly(s: System, r: RequestId) {
    r in s.finalized <==> r < |s.requests| && s.requests[r].status.Completed?
  }

  ghost predicate LogExact(s: System) {
    forall r: RequestId :: FinalizedExactly(s, r)
  }

  /** The sweep waits for a transaction that finalizes the request. */
  predicate WaitsFor(s: System, w: SweepId, r: RequestId) {
    Holds(s, w, r) && s.sweeps[w].stage.Finalizing?
  }

  ghost predicate AtWork(s: System, r: RequestId) {
    exists w :: WaitsFor(s, w, r)
  }

  /** Every attempt starts one transaction, which commits at most once. */
  ghost predicate Accounted(s: System, r: RequestId) {
    multiset(s.finalized)[r] + s.transit[r] + (if AtWork(s, r) then 1 else 0)
      <= if r < |s.requests| then s.requests[r].attemptCount else 0
  }

  ghost predicate AllAccounted(s: System) {
    forall r: RequestId :: Accounted(s, r)
  }

  ghost predicate RowsValid(s: System) {
    SweepsValid(s) && OneHolder(s) && OneActive(s) && LogExact(s)
  }

  ghost predicate Inv(s: System) {
    RowsValid(s) && AllAccounted(s)
  }

  /** A decided row is written again only to complete it, and no row disappears. */
  predicate RowMoved(before: Request, after: Request) {
    && after.userId == before.userId && before.attemptCount <= after.attemptCount
    && (Terminal(before.status) ==> after == before || after == before.(status := Completed))
    && (after.status != before.status && Active(after.status) ==> Active(before.status))
  }

  ghost predicate Moved(s: System, t: System) {
    |s.requests| <= |t.requests| && forall r :: 0 <= r < |s.requests| ==> RowMoved(s.requests[r], t.requests[r])
  }

  /** One sweep changes the row that only it may change, and moves on to `sweep`. */
  lemma UpdateKeepsSweeps(s: System, w: SweepId, sweep: Sweep, id: RequestId, r: Request)
    requires SweepsValid(s) && OneHolder(s) && OneActive(s)
    requires w in s.sweeps && id < |s.requests| && RowMoved(s.requests[id], r)
    requires SweepValid(sweep, s.requests[id := r])
    requires !sweep.stage.Choosing? ==> sweep.due[0].id == id
    requires forall v :: v != w ==> !Holds(s, v, id)
    ensures var t := Update(s, w, sweep, id, r);
      SweepsValid(t) && OneHolder(t) && OneActive(t) && Moved(s, t)
  {
    var t := Update(s, w, sweep, id, r);
    forall v | v in t.sweeps ensures v < t.nextSweep && SweepValid(t.sweeps[v], t.requests) {
      if v != w {
        assert SweepValid(s.sweeps[v], s.requests) && !Holds(s, v, id);
      }
    }
    UpdateKeepsHolder(s, w, sweep, id, r);
    forall i, j ensures !Rival(t.requests, i, j) {
      assert !Rival(s.requests, i, j);
    }
  }

  lemma UpdateKeepsHolder(s: System, w: SweepId, sweep: Sweep, id: RequestId, r: Request)
    requires OneHolder(s) && w in s.sweeps && id < |s.requests|
    requires !sweep.stage.Choosing? && sweep.due != [] ==> sweep.due[0].id == id
    requires forall v :: v != w ==> !Holds(s, v, id)
    ensures OneHolder(Update(s, w, sweep, id, r))
  {
    var t := Update(s, w, sweep, id, r);
    forall v, x, q | Holds(t, v, q) && Holds(t, x, q) ensures v == x {
      assert v != w ==> Holds(s, v, q);
      assert x != w ==> Holds(s, x, q);
    }
  }

  /** A sweep moves on without touching a row. */
  lemma MoveOnKeepsRows(s: System, t: System, w: SweepId, sweep: Sweep)
    requires RowsValid(s) && w in s.sweeps && SweepValid(sweep, s.requests)
    requires !sweep.stage.Choosing? ==> Holds(s, w, sweep.due[0].id)
    requires t == s.(sweeps := s.sweeps[w := sweep], transit := t.transit)
    ensures RowsValid(t) && Moved(s, t)
  {
    hide LogExact, OneActive;
    forall v, x, q | Holds(t, v, q) && Holds(t, x, q) ensures v == x {
      assert Holds(s, v, q) && Holds(s, x, q);
    }
    FinalizedSame(s, t);
  }

  lemma FinalizedSame(s: System, t: System)
    requires LogExact(s) && OneActive(s) && t.requests == s.requests && t.finalized == s.finalized
    ensures LogExact(t) && OneActive(t)
  {
    forall r: RequestId ensures FinalizedExactly(t, r) {
      assert FinalizedExactly(s, r);
    }
    forall i, j ensures !Rival(t.requests, i, j) {
      assert !Rival(s.requests, i, j);
    }
  }

  /** No sweep is at work on a request that has not been claimed. */
  lemma HolderFits(s: System, v: SweepId, r: RequestId)
    requires SweepsValid(s) && Holds(s, v, r)
    ensures r < |s.requests| && StageFits(s.sweeps[v].stage, s.requests[r].status)
  {
    assert SweepValid(s.sweeps[v], s.requests);
  }

  lemma ClaimKeepsRows(s: System, w: SweepId)
    requires RowsValid(s)
    ensures RowsValid(Apply(s, SweepClaims(w))) && Moved(s, Apply(s, SweepClaims(w)))
  {
    if Enabled(s, SweepClaims(w)) {
      var sweep := s.sweeps[w];
      var id := sweep.due[0].id;
      var r := s.requests[id];
      assert SweepValid(sweep, s.requests);
      if r.status.Pending? {
        forall v | v != w ensures !Holds(s, v, id) {
          if Holds(s, v, id) { HolderFits(s, v, id); }
        }
        var r' := r.(status := Processing, attemptCount := r.attemptCount + 1);
        UpdateKeepsSweeps(s, w, sweep.(stage := Finalizing), id, r');
        UpdateKeepsFinalized(s, w, sweep.(stage := Finalizing), id, r');
      } else {
        MoveOnKeepsRows(s, Apply(s, SweepClaims(w)), w, sweep.(due := sweep.due[1..]));
      }
    } else {
      StutterMoves(s);
    }
  }

  lemma UpdateKeepsFinalized(s: System, w: SweepId, sweep: Sweep, id: RequestId, r: Request)
    requires LogExact(s) && id < |s.requests| && (r.status.Completed? <==> s.requests[id].status.Completed?)
    ensures LogExact(Update(s, w, sweep, id, r))
  {
    var t := Update(s, w, sweep, id, r);
    forall q: RequestId ensures FinalizedExactly(t, q) {
      assert FinalizedExactly(s, q);
    }
  }

  lemma StutterMoves(s: System)
    ensures Moved(s, s)
  {
  }

  /** Completing a row fits every sweep that is at work on it. */
  lemma CompletionKeepsSweeps(s: System, id: RequestId)
    requires RowsValid(s) && id < |s.requests|
    ensures var t := Finalized(s, id); SweepsValid(t) && OneHolder(t) && OneActive(t) && Moved(s, t)
  {
    var t := Finalized(s, id);
    hide LogExact;
    forall v | v in t.sweeps ensures v < t.nextSweep && SweepValid(t.sweeps[v], t.requests) {
      assert SweepValid(s.sweeps[v], s.requests);
    }
    forall v, x, q | Holds(t, v, q) && Holds(t, x, q) ensures v == x {
      assert Holds(s, v, q) && Holds(s, x, q);
    }
    forall i, j ensures !Rival(t.requests, i, j) {
      assert !Rival(s.requests, i, j);
    }
  }

  lemma CompletionKeepsLog(s: System, id: RequestId)
    requires LogExact(s) && id < |s.requests|
    ensures LogExact(Finalized(s, id))
  {
    var t := Finalized(s, id);
    forall r: RequestId ensures FinalizedExactly(t, r) {
      assert FinalizedExactly(s, r);
      assert r in t.finalized <==> r in s.finalized || r == id;
    }
  }

  lemma CompletionKeepsRows(s: System, id: RequestId)
    requires RowsValid(s) && id < |s.requests|
    ensures RowsValid(Finalized(s, id)) && Moved(s, Finalized(s, id))
  {
    CompletionKeepsSweeps(s, id);
    CompletionKeepsLog(s, id);
  }

  lemma CommitKeepsRows(s: System, w: SweepId)
    requires RowsValid(s)
    ensures RowsValid(Apply(s, Commits(w))) && Moved(s, Apply(s, Commits(w)))
  {
    if Enabled(s, Commits(w)) {
      var sweep := s.sweeps[w];
      var id := sweep.due[0].id;
      var u := Finalized(s, id);
      var t := Apply(s, Commits(w));
      assert Holds(s, w, id);
      CompletionKeepsRows(s, id);
      assert SweepValid(u.sweeps[w], u.requests) && Holds(u, w, id);
      MoveOnKeepsRows(u, t, w, sweep.(stage := Committed));
      MovedTrans(s, u, t);
    } else {
      StutterMoves(s);
    }
  }

  /** Nothing that the rows have to agree with is read from `transit`. */
  lemma TransitKeepsRows(u: System, t: System)
    requires RowsValid(u) && t == u.(transit := t.transit)
    ensures RowsValid(t)
  {
    hide LogExact, OneActive;
    forall v, x, q | Holds(t, v, q) && Holds(t, x, q) ensures v == x {
      assert Holds(u, v, q) && Holds(u, x, q);
    }
    FinalizedSame(u, t);
  }

  lemma LateCommitKeepsRows(s: System, id: RequestId)
    requires RowsValid(s)
    ensures var t := Apply(s, LateCommits(id)); RowsValid(t) && Moved(s, t)
  {
    if Enabled(s, LateCommits(id)) {
      CompletionKeepsRows(s, id);
      TransitKeepsRows(Finalized(s, id), Apply(s, LateCommits(id)));
    } else {
      StutterMoves(s);
    }
  }

  lemma ReportKeepsRows(s: System, w: SweepId)
    requires RowsValid(s)
    ensures RowsValid(Apply(s, Reports(w))) && Moved(s, Apply(s, Reports(w)))
  {
    if Enabled(s, Reports(w)) {
      var sweep := s.sweeps[w];
      var x := sweep.due[0];
      var r := Failure(s.requests[x.id], x.attemptCount, s.now);
      assert SweepValid(sweep, s.requests) && Holds(s, w, x.id);
      var next := Sweep(sweep.due[1..], Choosing);
      UpdateKeepsSweeps(s, w, next, x.id, r);
      UpdateKeepsFinalized(s, w, next, x.id, r);
    } else {
      StutterMoves(s);
    }
  }

  lemma RequestKeepsRows(s: System, u: UserId, coolingMs: int)
    requires RowsValid(s)
    ensures var t := Apply(s, RequestDeletion(u, coolingMs)); RowsValid(t) && Moved(s, t)
  {
    if Enabled(s, RequestDeletion(u, coolingMs)) {
      var t := Apply(s, RequestDeletion(u, coolingMs));
      forall r: RequestId ensures FinalizedExactly(t, r) {
        assert FinalizedExactly(s, r);
      }
      forall v | v in t.sweeps ensures SweepValid(t.sweeps[v], t.requests) {
        assert SweepValid(s.sweeps[v], s.requests);
      }
      forall i, j ensures !Rival(t.requests, i, j) {
        assert !Rival(s.requests, i, j);
      }
      forall v, x, q | Holds(t, v, q) && Holds(t, x, q) ensures v == x {
        assert Holds(s, v, q) && Holds(s, x, q);
      }
    } else {
      StutterMoves(s);
    }
  }

  lemma CancelKeepsRows(s: System, u: UserId)
    requires RowsValid(s)
    ensures var t := Apply(s, CancelDeletion(u)); RowsValid(t) && Moved(s, t)
  {
    var t := Apply(s, CancelDeletion(u));
    forall r: RequestId ensures FinalizedExactly(t, r) {
      assert FinalizedExactly(s, r);
    }
    forall v | v in t.sweeps ensures SweepValid(t.sweeps[v], t.requests) {
      assert SweepValid(s.sweeps[v], s.requests);
    }
    forall i, j ensures !Rival(t.requests, i, j) {
      assert !Rival(s.requests, i, j);
    }
    forall v, x, q | Holds(t, v, q) && Holds(t, x, q) ensures v == x {
      assert Holds(s, v, q) && Holds(s, x, q);
    }
  }

  lemma ReadKeepsRows(s: System, ids: seq<RequestId>)
    requires RowsValid(s)
    ensures var t := Apply(s, SweepReads(ids)); RowsValid(t) && Moved(s, t)
  {
    var t := Apply(s, SweepReads(ids));
    hide LogExact, OneActive, Due;
    forall v | v in t.sweeps ensures v < t.nextSweep && SweepValid(t.sweeps[v], t.requests) {
      if v in s.sweeps { assert SweepValid(s.sweeps[v], s.requests); }
    }
    forall v, x, q | Holds(t, v, q) && Holds(t, x, q) ensures v == x {
      assert Holds(s, v, q) && Holds(s, x, q);
    }
    FinalizedSame(s, t);
  }

  lemma EndKeepsRows(s: System, w: SweepId, undecided: bool)
    requires RowsValid(s)
    ensures var t := Apply(s, Ends(w, undecided)); RowsValid(t) && Moved(s, t)
  {
    var t := Apply(s, Ends(w, undecided));
    hide LogExact, OneActive;
    forall v, x, q | Holds(t, v, q) && Holds(t, x, q) ensures v == x {
      assert Holds(s, v, q) && Holds(s, x, q);
    }
    FinalizedSame(s, t);
  }

  lemma TickKeepsRows(s: System, ms: nat)
    requires RowsValid(s)
    ensures var t := Apply(s, Tick(ms)); RowsValid(t) && Moved(s, t)
  {
    var t := Apply(s, Tick(ms));
    forall v, x, q | Holds(t, v, q) && Holds(t, x, q) ensures v == x {
      assert Holds(s, v, q) && Holds(s, x, q);
    }
    FinalizedSame(s, t);
  }

  lemma ReplyKeepsRows(s: System, w: SweepId, undecided: bool)
    requires RowsValid(s)
    ensures var t := Apply(s, Replies(w)); RowsValid(t) && Moved(s, t)
    ensures var t := Apply(s, Throws(w, undecided)); RowsValid(t) && Moved(s, t)
  {
    StutterMoves(s);
    if Enabled(s, Replies(w)) {
      assert SweepValid(s.sweeps[w], s.requests);
      MoveOnKeepsRows(s, Apply(s, Replies(w)), w, Sweep(s.sweeps[w].due[1..], Choosing));
    }
    if Enabled(s, Throws(w, undecided)) {
      assert SweepValid(s.sweeps[w], s.requests);
      MoveOnKeepsRows(s, Apply(s, Throws(w, undecided)), w, s.sweeps[w].(stage := Reporting));
    }
  }

  lemma StepKeepsRows(s: System, a: Action)
    requires RowsValid(s)
    ensures RowsValid(Apply(s, a)) && Moved(s, Apply(s, a))
  {
    hide RowsValid, Moved, Apply;
    match a
    case RequestDeletion(u, coolingMs) => RequestKeepsRows(s, u, coolingMs);
    case CancelDeletion(u) => CancelKeepsRows(s, u);
    case Tick(ms) => TickKeepsRows(s, ms);
    case SweepReads(ids) => ReadKeepsRows(s, ids);
    case SweepClaims(w) => ClaimKeepsRows(s, w);
    case Commits(w) => CommitKeepsRows(s, w);
    case Replies(w) => ReplyKeepsRows(s, w, false);
    case Throws(w, undecided) => ReplyKeepsRows(s, w, undecided);
    case Reports(w) => ReportKeepsRows(s, w);
    case Ends(w, undecided) => EndKeepsRows(s, w, undecided);
    case LateCommits(id) => LateCommitKeepsRows(s, id);
  }

  // ----- every attempt is accounted for -----

  predicate StartsWork(s: System, a: Action, r: RequestId) {
    a.SweepClaims? && Enabled(s, a) && s.sweeps[a.w].due[0].id == r && s.requests[r].status.Pending?
  }

  predicate EndsWork(s: System, a: Action, r: RequestId) {
    (a.Commits? || a.Throws? || a.Ends?) && Enabled(s, a) && WaitsFor(s, a.w, r)
  }

  lemma StepOnWaitsFor(s: System, a: Action, w: SweepId, r: RequestId)
    ensures WaitsFor(Apply(s, a), w, r) ==> WaitsFor(s, w, r) || StartsWork(s, a, r)
    ensures EndsWork(s, a, r) && a.w == w ==> !WaitsFor(Apply(s, a), w, r)
  {
    hide Lists, HasActive;
  }

  /** What a step does to the transaction that a sweep waits for. */
  lemma StepOnAtWork(s: System, a: Action, r: RequestId)
    requires OneHolder(s)
    ensures AtWork(Apply(s, a), r) ==> StartsWork(s, a, r) || (AtWork(s, r) && !EndsWork(s, a, r))
  {
    if w :| WaitsFor(Apply(s, a), w, r) {
      StepOnWaitsFor(s, a, w, r);
      hide Apply;
      assert WaitsFor(s, w, r) ==> Holds(s, w, r);
      assert EndsWork(s, a, r) ==> Holds(s, a.w, r);
    }
  }

  lemma StepKeepsAccounted(s: System, a: Action, r: RequestId)
    requires Inv(s)
    ensures Accounted(Apply(s, a), r)
  {
    assert Accounted(s, r);
    StepOnAtWork(s, a, r);
    hide AtWork, OneHolder, OneActive, LogExact, Apply, EndsWork, StartsWork;
    match a
    case Commits(w) => CommitKeepsAccounted(s, w, r);
    case Throws(w, undecided) => GivingUpKeepsAccounted(s, w, undecided, r);
    case Ends(w, undecided) => GivingUpKeepsAccounted(s, w, undecided, r);
    case LateCommits(id) => LateCommitKeepsAccounted(s, id, r);
    case _ => OthersKeepAccounted(s, a, r);
  }

  lemma CommitKeepsAccounted(s: System, w: SweepId, r: RequestId)
    requires Accounted(s, r)
    requires AtWork(Apply(s, Commits(w)), r) ==> AtWork(s, r) && !EndsWork(s, Commits(w), r)
    ensures Accounted(Apply(s, Commits(w)), r)
  {
    WaitingIsAtWork(s, w, r);
    hide AtWork;
    if Enabled(s, Commits(w)) { assert WaitsFor(s, w, s.sweeps[w].due[0].id); }
  }

  /** A transaction that its sweep gives up is at most in transit. */
  lemma GivingUpKeepsAccounted(s: System, w: SweepId, undecided: bool, r: RequestId)
    requires Accounted(s, r)
    ensures var t := Apply(s, Throws(w, undecided));
      (AtWork(t, r) ==> AtWork(s, r) && !EndsWork(s, Throws(w, undecided), r)) ==> Accounted(t, r)
    ensures var t := Apply(s, Ends(w, undecided));
      (AtWork(t, r) ==> AtWork(s, r) && !EndsWork(s, Ends(w, undecided), r)) ==> Accounted(t, r)
  {
    WaitingIsAtWork(s, w, r);
    hide AtWork;
  }

  lemma LateCommitKeepsAccounted(s: System, id: RequestId, r: RequestId)
    requires Accounted(s, r) && (AtWork(Apply(s, LateCommits(id)), r) ==> AtWork(s, r))
    ensures Accounted(Apply(s, LateCommits(id)), r)
  {
    hide AtWork;
  }

  /** Only a claim starts a transaction, and it counts an attempt. */
  lemma OthersKeepAccounted(s: System, a: Action, r: RequestId)
    requires Accounted(s, r) && !(a.Commits? || a.Throws? || a.Ends? || a.LateCommits?)
    requires AtWork(Apply(s, a), r) ==> AtWork(s, r) || StartsWork(s, a, r)
    ensures Accounted(Apply(s, a), r)
  {
    hide AtWork, Lists, HasActive;
  }

  lemma WaitingIsAtWork(s: System, w: SweepId, r: RequestId)
    ensures WaitsFor(s, w, r) ==> AtWork(s, r)
  {
  }

  lemma StepKeepsInv(s: System, a: Action)
    requires Inv(s)
    ensures Inv(Apply(s, a)) && Moved(s, Apply(s, a))
  {
    hide RowsValid, Accounted, Moved, Apply;
    StepKeepsRows(s, a);
    forall r: RequestId ensures Accounted(Apply(s, a), r) { StepKeepsAccounted(s, a, r); }
  }

  lemma MovedTrans(s: System, t: System, u: System)
    requires Moved(s, t) && Moved(t, u)
    ensures Moved(s, u)
  {
    forall r | 0 <= r < |s.requests| ensures RowMoved(s.requests[r], u.requests[r]) {
      assert RowMoved(s.requests[r], t.requests[r]) && RowMoved(t.requests[r], u.requests[r]);
    }
  }

  lemma {:induction false} RunKeepsInv(s: System, actions: seq<Action>)
    requires Inv(s)
    ensures Inv(Run(s, actions)) && Moved(s, Run(s, actions))
    decreases |actions|
  {
    if actions == [] {
      StutterMoves(s);
    } else {
      hide Inv, Moved, Apply;
      var t := Apply(s, actions[0]);
      StepKeepsInv(s, actions[0]);
      RunKeepsInv(t, actions[1..]);
      MovedTrans(s, t, Run(s, actions));
    }
  }

  lemma InitialHoldsInv()
    ensures Inv(Initial())
  {
  }
}
