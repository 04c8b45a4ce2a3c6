/** What the deletion protocol guarantees over whole runs, and the two ways a request can get stuck. */
module AccountDeletionSafety {
  import opened AccountDeletion
  import opened Wrappers

  // ----- one winner -----

  predicate BothOpen(s: System, i: RequestId, j: RequestId) {
    && i < |s.requests| && j < |s.requests| && s.requests[i].userId == s.requests[j].userId
    && Active(s.requests[i].status) && Active(s.requests[j].status)
  }

  /**
   * In every interleaving: at most one sweep is between claim and outcome for a request, a user has
   * at most one request that is still open, and the requests that were finalized are exactly the
   * completed ones, each at most as often as it was tried.
   */
  lemma DeletionIsSafe(actions: seq<Action>)
    ensures var s := Run(Initial(), actions);
      && (forall w, v, r :: Holds(s, w, r) && Holds(s, v, r) ==> w == v)
      && (forall i, j :: BothOpen(s, i, j) ==> i == j)
      && (forall r: RequestId :: r in s.finalized <==> r < |s.requests| && s.requests[r].status.Completed?)
      && (forall r :: 0 <= r < |s.requests| ==> multiset(s.finalized)[r] <= s.requests[r].attemptCount)
  {
    InitialHoldsInv();
    RunKeepsInv(Initial(), actions);
    var s := Run(Initial(), actions);
    hide Run, SweepsValid, Moved, AtWork;
    forall i, j | BothOpen(s, i, j) ensures i == j {
      assert !Rival(s.requests, i, j) && !Rival(s.requests, j, i);
    }
    forall r: RequestId ensures r in s.finalized <==> r < |s.requests| && s.requests[r].status.Completed? {
      assert FinalizedExactly(s, r);
    }
    forall r | 0 <= r < |s.requests| ensures multiset(s.finalized)[r] <= s.requests[r].attemptCount {
      assert Accounted(s, r);
    }
  }

  // ----- transactions that commit after their sweep has given them up -----

  lemma StepKeepsDecided(s: System, a: Action, r: RequestId)
    requires Inv(s) && r < |s.requests| && Terminal(s.requests[r].status)
    requires s.requests[r].status.Completed? || r !in s.transit || a != LateCommits(r)
    ensures var t := Apply(s, a);
      && r < |t.requests| && t.requests[r] == s.requests[r]
      && (s.requests[r].status.Completed? || r !in s.transit ==> s.requests[r].status.Completed? || r !in t.transit)
  {
    if s.requests[r].status.Completed? {
      StepKeepsInv(s, a);
      hide Inv, Apply;
      assert RowMoved(s.requests[r], Apply(s, a).requests[r]);
    } else {
      StepKeepsGivenUp(s, a, r);
    }
  }

  /** No sweep waits for a transaction of a cancelled or failed request. */
  lemma StepKeepsGivenUp(s: System, a: Action, r: RequestId)
    requires SweepsValid(s) && r < |s.requests| && (s.requests[r].status.Cancelled? || s.requests[r].status.Failed?)
    requires a != LateCommits(r) || r !in s.transit
    ensures var t := Apply(s, a);
      r < |t.requests| && t.requests[r] == s.requests[r] && (r !in s.transit ==> r !in t.transit)
  {
    if a.Commits? || a.Throws? || a.Ends? { NotBusyWith(s, a.w, r); }
    hide SweepsValid, Lists, HasActive;
  }

  lemma NotBusyWith(s: System, w: SweepId, r: RequestId)
    requires SweepsValid(s) && r < |s.requests| && (s.requests[r].status.Cancelled? || s.requests[r].status.Failed?)
    ensures Busy(s, w, Finalizing) ==> s.sweeps[w].due[0].id != r
  {
    if Busy(s, w, Finalizing) { assert SweepValid(s.sweeps[w], s.requests); }
  }

  /** A completed row is never written again, and a cancelled or failed one only by a late commit. */
  lemma {:induction false} DecidedIsFinal(s: System, actions: seq<Action>, r: RequestId)
    requires Inv(s) && r < |s.requests| && Terminal(s.requests[r].status)
    requires s.requests[r].status.Completed? || r !in s.transit || LateCommits(r) !in actions
    ensures var t := Run(s, actions);
      && r < |t.requests| && t.requests[r] == s.requests[r]
      && (r in t.finalized <==> s.requests[r].status.Completed?)
    decreases |actions|
  {
    if actions == [] {
      assert FinalizedExactly(s, r);
    } else {
      StepKeepsDecided(s, actions[0], r);
      StepKeepsInv(s, actions[0]);
      hide Inv, Apply, Moved;
      DecidedIsFinal(Apply(s, actions[0]), actions[1..], r);
    }
  }

  /** Whatever happens later, the row stays as it is. */
  ghost predicate StaysForever(s: System, r: RequestId)
    requires r < |s.requests|
  {
    forall actions :: RowStays(s, actions, r)
  }

  predicate RowStays(s: System, actions: seq<Action>, r: RequestId)
    requires r < |s.requests|
  {
    var t := Run(s, actions);
    r < |t.requests| && t.requests[r] == s.requests[r]
  }

  lemma RunOnce(s: System, a: Action)
    ensures Run(s, [a]) == Apply(s, a)
  {
    assert Run(Apply(s, a), []) == Apply(s, a);
  }

  /**
   * The finalizing transaction completes its request whatever became of it meanwhile.  A request
   * that was decided stays as it is exactly when it was completed or no transaction for it can
   * still commit: a cancellation that was confirmed can be overridden.
   */
  lemma DecidedIsFinalExactlyWhenNoneInTransit(actions: seq<Action>, r: RequestId)
    requires var s := Run(Initial(), actions); r < |s.requests| && Terminal(s.requests[r].status)
    ensures var s := Run(Initial(), actions);
      StaysForever(s, r) <==> s.requests[r].status.Completed? || r !in s.transit
  {
    InitialHoldsInv();
    RunKeepsInv(Initial(), actions);
    var s := Run(Initial(), actions);
    hide Run, Inv, Moved;
    if s.requests[r].status.Completed? || r !in s.transit {
      forall later ensures RowStays(s, later, r) { DecidedIsFinal(s, later, r); }
    } else {
      RunOnce(s, LateCommits(r));
      assert !RowStays(s, [LateCommits(r)], r);
    }
  }

  /**
   * A finalization that took effect stands, whatever its sweep hears: a lost reply, the failure
   * report that follows it, or anything that others do in between.
   */
  lemma CommittedFinalizationStands(s: System, w: SweepId, actions: seq<Action>)
    requires Inv(s) && Enabled(s, Commits(w))
    ensures var id := s.sweeps[w].due[0].id; var t := Run(Apply(s, Commits(w)), actions);
      && id < |t.requests| && t.requests[id] == s.requests[id].(status := Completed) && id in t.finalized
  {
    StepKeepsInv(s, Commits(w));
    DecidedIsFinal(Apply(s, Commits(w)), actions, s.sweeps[w].due[0].id);
  }

  ghost predicate NeverAgain(s: System, r: RequestId) {
    forall actions :: multiset(Run(s, actions).finalized)[r] == multiset(s.finalized)[r]
  }

  /** What a step adds to the finalizations of `r`. */
  lemma StepOnFinalized(s: System, a: Action, r: RequestId)
    ensures multiset(Apply(s, a).finalized)[r] == multiset(s.finalized)[r]
      + (if (a.Commits? && EndsWork(s, a, r)) || (a == LateCommits(r) && Enabled(s, a)) then 1 else 0)
  {
    if a.Commits? {
      CommitOnFinalized(s, a.w, r);
    } else if a.LateCommits? {
      LateCommitOnFinalized(s, a.id, r);
    } else {
      hide Lists, HasActive;
      assert Apply(s, a).finalized == s.finalized;
    }
  }

  lemma CommitOnFinalized(s: System, w: SweepId, r: RequestId)
    ensures multiset(Apply(s, Commits(w)).finalized)[r]
         == multiset(s.finalized)[r] + (if EndsWork(s, Commits(w), r) then 1 else 0)
  {
  }

  lemma LateCommitOnFinalized(s: System, id: RequestId, r: RequestId)
    ensures multiset(Apply(s, LateCommits(id)).finalized)[r]
         == multiset(s.finalized)[r] + (if id == r && Enabled(s, LateCommits(id)) then 1 else 0)
  {
  }

  /** Once a request is completed and no sweep waits for it, that remains so. */
  lemma StepKeepsClosed(s: System, a: Action, r: RequestId)
    requires Inv(s) && r < |s.requests| && s.requests[r].status.Completed? && !AtWork(s, r)
    ensures var t := Apply(s, a);
      && r < |t.requests| && t.requests[r].status.Completed? && !AtWork(t, r) && !EndsWork(s, a, r)
  {
    StepKeepsDecided(s, a, r);
    StepOnAtWork(s, a, r);
    if a.Commits? || a.Throws? || a.Ends? { WaitingIsAtWork(s, a.w, r); }
    hide AtWork, Inv, Apply, WaitsFor;
  }

  lemma StepFinalizesNoMore(s: System, a: Action, r: RequestId)
    requires Inv(s) && r < |s.requests| && s.requests[r].status.Completed? && r !in s.transit && !AtWork(s, r)
    ensures var t := Apply(s, a);
      && r < |t.requests| && t.requests[r].status.Completed? && r !in t.transit && !AtWork(t, r)
      && multiset(t.finalized)[r] == multiset(s.finalized)[r]
  {
    StepKeepsClosed(s, a, r);
    StepOnFinalized(s, a, r);
    hide AtWork, Inv, Lists, HasActive;
  }

  lemma {:induction false} FinalizesNoMore(s: System, actions: seq<Action>, r: RequestId)
    requires Inv(s) && r < |s.requests| && s.requests[r].status.Completed? && r !in s.transit && !AtWork(s, r)
    ensures multiset(Run(s, actions).finalized)[r] == multiset(s.finalized)[r]
    decreases |actions|
  {
    if actions != [] {
      StepFinalizesNoMore(s, actions[0], r);
      StepKeepsInv(s, actions[0]);
      hide Inv, Apply, Moved, AtWork;
      FinalizesNoMore(Apply(s, actions[0]), actions[1..], r);
    }
  }

  lemma OpenFinalizesAgain(s: System, a: Action, r: RequestId)
    requires (a.Commits? && EndsWork(s, a, r)) || (a == LateCommits(r) && Enabled(s, a))
    ensures !NeverAgain(s, r)
  {
    hide Apply, Enabled, EndsWork;
    StepOnFinalized(s, a, r);
    RunOnce(s, a);
    assert multiset(Run(s, [a]).finalized)[r] != multiset(s.finalized)[r];
  }

  lemma WaitsToCommit(s: System, w: SweepId, r: RequestId)
    requires SweepsValid(s) && WaitsFor(s, w, r)
    ensures EndsWork(s, Commits(w), r)
  {
    assert SweepValid(s.sweeps[w], s.requests);
  }

  /** A completed request is finalized in no continuation again exactly when no transaction for it is open. */
  lemma FinalizedAgainExactlyWhenOpen(actions: seq<Action>, r: RequestId)
    requires var s := Run(Initial(), actions); r < |s.requests| && s.requests[r].status.Completed?
    ensures var s := Run(Initial(), actions); NeverAgain(s, r) <==> r !in s.transit && !AtWork(s, r)
  {
    InitialHoldsInv();
    RunKeepsInv(Initial(), actions);
    var s := Run(Initial(), actions);
    hide Run, Moved, WaitsFor, EndsWork;
    if r in s.transit {
      OpenFinalizesAgain(s, LateCommits(r), r);
    } else if w :| WaitsFor(s, w, r) {
      WaitsToCommit(s, w, r);
      OpenFinalizesAgain(s, Commits(w), r);
    } else {
      forall later ensures multiset(Run(s, later).finalized)[r] == multiset(s.finalized)[r] {
        FinalizesNoMore(s, later, r);
      }
    }
  }

  function LateCommitsOf(s: System, actions: seq<Action>, r: RequestId): nat
    decreases |actions|
  {
    if actions == [] then 0
    else
      var late := if actions[0] == LateCommits(r) && Enabled(s, actions[0]) then 1 else 0;
      late + LateCommitsOf(Apply(s, actions[0]), actions[1..], r)
  }

  /** Whether some sweep can still see the request finalized. */
  ghost function Open(s: System, r: RequestId): nat {
    if r < |s.requests| && s.requests[r].status.Completed? && !AtWork(s, r) then 0 else 1
  }

  lemma StepOnOpen(s: System, a: Action, r: RequestId)
    requires Inv(s)
    ensures var late := if a == LateCommits(r) && Enabled(s, a) then 1 else 0; var t := Apply(s, a);
      multiset(t.finalized)[r] + Open(t, r) <= multiset(s.finalized)[r] + late + Open(s, r)
  {
    StepOnFinalized(s, a, r);
    if Open(s, r) == 0 {
      StepKeepsClosed(s, a, r);
    } else if a.Commits? && EndsWork(s, a, r) {
      CommitCloses(s, a, r);
    }
    hide Inv, Apply, AtWork, EndsWork;
  }

  lemma CommitCloses(s: System, a: Action, r: RequestId)
    requires OneHolder(s) && a.Commits? && EndsWork(s, a, r)
    ensures Open(Apply(s, a), r) == 0
  {
    StepOnAtWork(s, a, r);
    hide AtWork, OneHolder;
  }

  lemma {:induction false} RunOnOpen(s: System, actions: seq<Action>, r: RequestId)
    requires Inv(s)
    ensures multiset(Run(s, actions).finalized)[r] + Open(Run(s, actions), r)
         <= multiset(s.finalized)[r] + LateCommitsOf(s, actions, r) + Open(s, r)
    decreases |actions|
  {
    if actions != [] {
      StepOnOpen(s, actions[0], r);
      StepKeepsInv(s, actions[0]);
      hide Inv, Apply, Moved, Open, Enabled;
      RunOnOpen(Apply(s, actions[0]), actions[1..], r);
    }
  }

  /** All finalizations of a request but one are late commits; without any it is finalized at most once. */
  lemma FinalizedOnceButForLateCommits(actions: seq<Action>, r: RequestId)
    ensures multiset(Run(Initial(), actions).finalized)[r] <= 1 + LateCommitsOf(Initial(), actions, r)
  {
    InitialHoldsInv();
    RunOnOpen(Initial(), actions, r);
  }

  // ----- claimed, and nobody at work on it -----

  ghost predicate Orphaned(s: System, r: RequestId) {
    && r < |s.requests| && s.requests[r].status.Processing? && r !in s.transit
    && forall w :: !Holds(s, w, r)
  }

  lemma StepKeepsOrphaned(s: System, a: Action, r: RequestId)
    requires Inv(s) && Orphaned(s, r)
    ensures Orphaned(Apply(s, a), r)
  {
    var t := Apply(s, a);
    forall w ensures !Holds(t, w, r) {
      assert !Holds(s, w, r);
      OrphanUnheld(s, a, r, w);
    }
    OrphanUnwritten(s, a, r);
  }

  lemma OrphanUnheld(s: System, a: Action, r: RequestId, w: SweepId)
    requires r < |s.requests| && s.requests[r].status.Processing? && !Holds(s, w, r)
    ensures !Holds(Apply(s, a), w, r)
  {
  }

  lemma OrphanUnwritten(s: System, a: Action, r: RequestId)
    requires Inv(s) && Orphaned(s, r)
    ensures var t := Apply(s, a); r < |t.requests| && t.requests[r].status.Processing? && r !in t.transit
  {
    hide OneHolder, OneActive, LogExact, AllAccounted, Lists, HasActive;
    if Enabled(s, a) && (a.Commits? || a.Reports? || a.Throws? || a.Ends?) {
      assert SweepValid(s.sweeps[a.w], s.requests);
      assert !Holds(s, a.w, r);
    }
  }

  lemma {:induction false} RunKeepsOrphaned(s: System, actions: seq<Action>, r: RequestId)
    requires Inv(s) && Orphaned(s, r)
    ensures Orphaned(Run(s, actions), r)
    decreases |actions|
  {
    if actions != [] {
      hide Inv, Orphaned, Apply, Moved;
      StepKeepsInv(s, actions[0]);
      StepKeepsOrphaned(s, actions[0], r);
      RunKeepsOrphaned(Apply(s, actions[0]), actions[1..], r);
    }
  }

  ghost predicate CanLeaveProcessing(s: System, r: RequestId)
    requires r < |s.requests|
  {
    exists actions :: Leaves(s, actions, r)
  }

  predicate Leaves(s: System, actions: seq<Action>, r: RequestId) {
    var t := Run(s, actions);
    r < |t.requests| && !t.requests[r].status.Processing?
  }

  /**
   * No sweep selects a claimed request, so a crash between claim and outcome strands it for good:
   * it can leave the processing state exactly when some live sweep still holds it, or a transaction
   * that was given up can still commit.
   */
  lemma ProcessingEndsExactlyWhenHeld(actions: seq<Action>, r: RequestId)
    requires r < |Run(Initial(), actions).requests| && Run(Initial(), actions).requests[r].status.Processing?
    ensures var s := Run(Initial(), actions);
      CanLeaveProcessing(s, r) <==> r in s.transit || exists w :: Holds(s, w, r)
  {
    InitialHoldsInv();
    RunKeepsInv(Initial(), actions);
    var s := Run(Initial(), actions);
    if w :| Holds(s, w, r) {
      HolderGivesUp(s, w, r);
    } else if r in s.transit {
      RunOnce(s, LateCommits(r));
      assert Leaves(s, [LateCommits(r)], r);
    } else {
      forall later ensures !Leaves(s, later, r) { RunKeepsOrphaned(s, later, r); }
    }
  }

  lemma HolderGivesUp(s: System, w: SweepId, r: RequestId)
    requires Inv(s) && Holds(s, w, r) && r < |s.requests| && s.requests[r].status.Processing?
    ensures CanLeaveProcessing(s, r)
  {
    assert SweepValid(s.sweeps[w], s.requests);
    if s.sweeps[w].stage.Finalizing? {
      var t := Apply(s, Throws(w, false));
      assert [Throws(w, false), Reports(w)][1..] == [Reports(w)];
      RunOnce(t, Reports(w));
      assert Leaves(s, [Throws(w, false), Reports(w)], r);
    } else {
      RunOnce(s, Reports(w));
      assert Leaves(s, [Reports(w)], r);
    }
  }

  // ----- attempts used up -----

  predicate Mentions(sweep: Sweep, r: RequestId) {
    exists i :: 0 <= i < |sweep.due| && sweep.due[i].id == r
  }

  ghost predicate Unlisted(s: System, r: RequestId) {
    forall w :: w in s.sweeps ==> !Mentions(s.sweeps[w], r)
  }

  ghost predicate Spent(s: System, r: RequestId) {
    && r < |s.requests| && s.requests[r].attemptCount >= MAX_ATTEMPTS
    && !s.requests[r].status.Processing? && Unlisted(s, r)
  }

  lemma StepKeepsSpent(s: System, a: Action, r: RequestId)
    requires Inv(s) && Spent(s, r)
    ensures Spent(Apply(s, a), r)
  {
    var t := Apply(s, a);
    RowStaysSpent(s, a, r);
    hide Inv, Apply, Mentions;
    forall w | w in t.sweeps ensures !Mentions(t.sweeps[w], r) {
      StaysUnlisted(s, a, w, r);
    }
  }

  lemma RowStaysSpent(s: System, a: Action, r: RequestId)
    requires Inv(s) && Spent(s, r)
    ensures var row := Apply(s, a).requests;
      r < |row| && row[r].attemptCount >= MAX_ATTEMPTS && !row[r].status.Processing?
  {
    StepKeepsInv(s, a);
    assert RowMoved(s.requests[r], Apply(s, a).requests[r]);
    if Enabled(s, a) && a.SweepClaims? { assert Mentions(s.sweeps[a.w], s.sweeps[a.w].due[0].id); }
    hide Inv, Lists, HasActive, Mentions;
  }

  lemma StaysUnlisted(s: System, a: Action, w: SweepId, r: RequestId)
    requires Unlisted(s, r) && r < |s.requests| && s.requests[r].attemptCount >= MAX_ATTEMPTS
    requires w in Apply(s, a).sweeps
    ensures !Mentions(Apply(s, a).sweeps[w], r)
  {
    if Enabled(s, a) && a.SweepReads? && w == s.nextSweep {
      SpentNotListed(s, a.ids, r);
    } else {
      hide Mentions, Lists, HasActive;
      assert !Mentions(s.sweeps[w], r);
      SublistUnlisted(s.sweeps[w], Apply(s, a).sweeps[w], r);
    }
  }

  lemma SpentNotListed(s: System, ids: seq<RequestId>, r: RequestId)
    requires Lists(s, ids) && r < |s.requests| && s.requests[r].attemptCount >= MAX_ATTEMPTS
    ensures !Mentions(Sweep(Snapshots(s.requests, ids), Choosing), r)
  {
    assert r !in ids;
  }

  lemma SublistUnlisted(before: Sweep, after: Sweep, r: RequestId)
    requires !Mentions(before, r)
    requires after.due == before.due || (before.due != [] && after.due == before.due[1..])
    ensures !Mentions(after, r)
  {
  }

  lemma {:induction false} RunKeepsSpent(s: System, actions: seq<Action>, r: RequestId)
    requires Inv(s) && Spent(s, r)
    ensures Spent(Run(s, actions), r)
    decreases |actions|
  {
    if actions != [] {
      hide Inv, Spent, Apply, Moved;
      StepKeepsInv(s, actions[0]);
      StepKeepsSpent(s, actions[0], r);
      RunKeepsSpent(Apply(s, actions[0]), actions[1..], r);
    }
  }

  function OthersDue(requests: seq<Request>, now: int, r: RequestId, n: nat): (ids: seq<RequestId>)
    requires n <= |requests|
    ensures forall i :: 0 <= i < |ids| ==> ids[i] < n
    ensures forall i, j :: 0 <= i < j < |ids| ==> ids[i] != ids[j]
    ensures forall q :: 0 <= q < n ==> (q in ids <==> q != r && Due(requests[q], now))
    ensures r !in ids
  {
    if n == 0 then []
    else
      var rest := OthersDue(requests, now, r, n - 1);
      if n - 1 != r && Due(requests[n - 1], now) then rest + [n - 1] else rest
  }

  ghost predicate CanBeClaimed(s: System, r: RequestId) {
    exists actions :: Claimed(s, actions, r)
  }

  predicate Claimed(s: System, actions: seq<Action>, r: RequestId) {
    var t := Run(s, actions);
    r < |t.requests| && t.requests[r].status.Processing?
  }

  lemma ListedAndClaimed(t: System, r: RequestId)
    requires r < |t.requests| && Due(t.requests[r], t.now)
    ensures CanBeClaimed(t, r)
  {
    var ids := [r] + OthersDue(t.requests, t.now, r, |t.requests|);
    assert Lists(t, ids) by {
      forall q | 0 <= q < |t.requests| ensures q in ids <==> Due(t.requests[q], t.now) {
        assert q in ids <==> q == r || q in ids[1..];
      }
    }
    hide Lists;
    var u := Apply(t, SweepReads(ids));
    var w := t.nextSweep;
    assert u.sweeps[w].due[0].id == r && Busy(u, w, Choosing);
    var actions := [SweepReads(ids), SweepClaims(w)];
    assert actions[1..] == [SweepClaims(w)];
    assert Run(t, actions) == Run(u, [SweepClaims(w)]) == Run(Apply(u, SweepClaims(w)), []);
    assert Claimed(t, actions, r);
  }

  lemma DueAtLast(s: System, r: RequestId)
    requires r < |s.requests| && s.requests[r].status.Pending? && s.requests[r].attemptCount < MAX_ATTEMPTS
    ensures CanBeClaimed(s, r)
  {
    var row := s.requests[r];
    var target := if row.nextAttemptAt.Some? && row.nextAttemptAt.value > row.scheduledFor
      then row.nextAttemptAt.value else row.scheduledFor;
    var wait: nat := if target > s.now then target - s.now else 0;
    var t := Apply(s, Tick(wait));
    ListedAndClaimed(t, r);
    var later :| Claimed(t, later, r);
    assert ([Tick(wait)] + later)[1..] == later;
    assert Claimed(s, [Tick(wait)] + later, r);
  }

  /** What takes a sweep on; its transactions are rolled back. */
  function Onwards(w: SweepId, stage: Stage): Action {
    match stage
    case Choosing => SweepClaims(w)
    case Finalizing => Throws(w, false)
    case Committed => Replies(w)
    case Reporting => Reports(w)
  }

  function Rank(stage: Stage): nat {
    match stage
    case Choosing => 2
    case Finalizing => 1
    case Committed => 0
    case Reporting => 0
  }

  /** A sweep comes nearer to a request further down its list without touching it. */
  lemma ComesNearer(s: System, w: SweepId, r: RequestId)
    requires Inv(s) && r < |s.requests| && s.requests[r].status.Pending?
    requires w in s.sweeps && Mentions(s.sweeps[w], r) && !(s.sweeps[w].stage.Choosing? && s.sweeps[w].due[0].id == r)
    ensures var sweep := s.sweeps[w]; var t := Apply(s, Onwards(w, sweep.stage));
      && r < |t.requests| && t.requests[r] == s.requests[r]
      && w in t.sweeps && Mentions(t.sweeps[w], r)
      && if t.sweeps[w].due == sweep.due then Rank(t.sweeps[w].stage) < Rank(sweep.stage)
         else t.sweeps[w].due == sweep.due[1..]
  {
    var sweep := s.sweeps[w];
    var t := Apply(s, Onwards(w, sweep.stage));
    hide OneHolder, OneActive, LogExact, AllAccounted, Lists, HasActive, Pow5;
    assert SweepValid(sweep, s.requests);
    var i :| 0 <= i < |sweep.due| && sweep.due[i].id == r;
    assert t.sweeps[w].due[if t.sweeps[w].due == sweep.due then i else i - 1].id == r;
  }

  /** A sweep that lists a waiting request can get to it, whatever its attempt count has come to. */
  lemma {:induction false} ListedIsClaimed(s: System, w: SweepId, r: RequestId) returns (actions: seq<Action>)
    requires Inv(s) && r < |s.requests| && s.requests[r].status.Pending?
    requires w in s.sweeps && Mentions(s.sweeps[w], r)
    ensures Claimed(s, actions, r)
    decreases |s.sweeps[w].due|, Rank(s.sweeps[w].stage)
  {
    var a := Onwards(w, s.sweeps[w].stage);
    if s.sweeps[w].stage.Choosing? && s.sweeps[w].due[0].id == r {
      RunOnce(s, a);
      actions := [a];
    } else {
      ComesNearer(s, w, r);
      StepKeepsInv(s, a);
      hide Inv, Apply, Mentions, Moved;
      var rest := ListedIsClaimed(Apply(s, a), w, r);
      actions := [a] + rest;
      assert actions[1..] == rest;
    }
  }

  /**
   * A waiting request will ever be claimed again exactly when its attempt count is still below five
   * or a live sweep has it on its list; otherwise it waits for good, without having failed.
   */
  lemma AbandonedExactlyWhenSpent(actions: seq<Action>, r: RequestId)
    requires var s := Run(Initial(), actions); r < |s.requests| && s.requests[r].status.Pending?
    ensures var s := Run(Initial(), actions);
      CanBeClaimed(s, r) <==>
        s.requests[r].attemptCount < MAX_ATTEMPTS || exists w :: w in s.sweeps && Mentions(s.sweeps[w], r)
  {
    InitialHoldsInv();
    RunKeepsInv(Initial(), actions);
    var s := Run(Initial(), actions);
    hide Run, Mentions;
    if s.requests[r].attemptCount < MAX_ATTEMPTS {
      DueAtLast(s, r);
    } else if w :| w in s.sweeps && Mentions(s.sweeps[w], r) {
      var later := ListedIsClaimed(s, w, r);
    } else {
      forall later ensures !Claimed(s, later, r) { RunKeepsSpent(s, later, r); }
    }
  }

  // ----- overlapping sweeps use up attempts without failing the request -----

  function Attempts(ws: seq<SweepId>): seq<Action> {
    if ws == [] then [] else [SweepClaims(ws[0]), Throws(ws[0], false), Reports(ws[0])] + Attempts(ws[1..])
  }

  predicate ReadyToTry(s: System, w: SweepId, r: RequestId, seen: nat) {
    w in s.sweeps && s.sweeps[w].stage.Choosing? && s.sweeps[w].due != [] && s.sweeps[w].due[0] == Snapshot(r, seen)
  }

  function Shorter(due: seq<Snapshot>, tried: bool): seq<Snapshot> {
    if tried && due != [] then due[1..] else due
  }

  lemma OneAttempt(s: System, w: SweepId, r: RequestId, seen: nat)
    requires r < |s.requests| && s.requests[r].status.Pending? && ReadyToTry(s, w, r, seen)
    ensures var t := Apply(Apply(Apply(s, SweepClaims(w)), Throws(w, false)), Reports(w));
      && |t.requests| == |s.requests|
      && t.requests[r].status == (if LastTry(seen) then Failed else Pending)
      && t.requests[r].attemptCount == s.requests[r].attemptCount + 1
      && t.sweeps == s.sweeps[w := Sweep(s.sweeps[w].due[1..], Choosing)]
  {
    var a := Apply(s, SweepClaims(w));
    assert Busy(s, w, Choosing) && Busy(a, w, Finalizing);
    var b := Apply(a, Throws(w, false));
    assert Busy(b, w, Reporting);
    assert Apply(b, Reports(w)).sweeps == s.sweeps[w := Sweep(s.sweeps[w].due[1..], Choosing)];
  }

  /** A sweep that finds the request decided leaves it alone. */
  lemma LateAttempt(s: System, w: SweepId, r: RequestId, seen: nat)
    requires r < |s.requests| && s.requests[r].status.Failed? && ReadyToTry(s, w, r, seen)
    ensures var t := Apply(Apply(Apply(s, SweepClaims(w)), Throws(w, false)), Reports(w));
      t.requests == s.requests && t.sweeps == s.sweeps[w := Sweep(s.sweeps[w].due[1..], Choosing)]
  {
    assert Busy(s, w, Choosing);
  }

  /** How many of the sweeps get to try: all up to the first whose count says that this is the last try. */
  function Tries(seen: seq<nat>): nat {
    if seen == [] then 0 else if LastTry(seen[0]) then 1 else 1 + Tries(seen[1..])
  }

  predicate LastTry(seen: nat) {
    seen + 1 >= MAX_ATTEMPTS
  }

  predicate SomeLastTry(seen: seq<nat>) {
    exists i :: 0 <= i < |seen| && LastTry(seen[i])
  }

  lemma SomeLastTryUnfolds(seen: seq<nat>)
    requires seen != []
    ensures SomeLastTry(seen) <==> LastTry(seen[0]) || SomeLastTry(seen[1..])
  {
    if SomeLastTry(seen[1..]) {
      var i :| 0 <= i < |seen[1..]| && LastTry(seen[1..][i]);
      assert LastTry(seen[i + 1]);
    }
  }

  ghost predicate AllReady(s: System, ws: seq<SweepId>, r: RequestId, seen: seq<nat>) {
    && |ws| == |seen|
    && (forall i :: 0 <= i < |ws| ==> ReadyToTry(s, ws[i], r, seen[i]))
    && (forall i, j :: 0 <= i < j < |ws| ==> ws[i] != ws[j])
  }

  lemma OthersStayReady(s: System, t: System, ws: seq<SweepId>, r: RequestId, seen: seq<nat>)
    requires AllReady(s, ws, r, seen) && ws != []
    requires t.sweeps == s.sweeps[ws[0] := Sweep(s.sweeps[ws[0]].due[1..], Choosing)]
    ensures AllReady(t, ws[1..], r, seen[1..])
  {
    forall i | 0 <= i < |ws[1..]| ensures ReadyToTry(t, ws[1..][i], r, seen[1..][i]) {
      assert ReadyToTry(s, ws[i + 1], r, seen[i + 1]);
    }
  }

  ghost predicate ListsShrink(s: System, t: System, ws: seq<SweepId>) {
    forall w :: w in t.sweeps ==> w in s.sweeps && t.sweeps[w].due == Shorter(s.sweeps[w].due, w in ws)
  }

  lemma {:induction false} LateAttemptsChangeNothing(s: System, ws: seq<SweepId>, r: RequestId, seen: seq<nat>)
    requires r < |s.requests| && s.requests[r].status.Failed? && AllReady(s, ws, r, seen)
    ensures var t := Run(s, Attempts(ws)); t.requests == s.requests && ListsShrink(s, t, ws)
    decreases |ws|
  {
    if ws != [] {
      var w := ws[0];
      var t := Apply(Apply(Apply(s, SweepClaims(w)), Throws(w, false)), Reports(w));
      assert ReadyToTry(s, w, r, seen[0]);
      LateAttempt(s, w, r, seen[0]);
      OthersStayReady(s, t, ws, r, seen);
      RunThree(s, SweepClaims(w), Throws(w, false), Reports(w), Attempts(ws[1..]));
      hide Apply, AllReady;
      LateAttemptsChangeNothing(t, ws[1..], r, seen[1..]);
    }
  }

  /**
   * Sweeps that all listed the request before any of them tries it, and whose finalizations all
   * fail, decide by the attempt count that each had read.  Every try counts, whatever was read, and
   * the request fails exactly when one of those stale counts says that it is the last.
   */
  lemma {:induction false} OverlappingSweepsSpendAttempts(s: System, ws: seq<SweepId>, r: RequestId, seen: seq<nat>)
    requires r < |s.requests| && s.requests[r].status.Pending? && AllReady(s, ws, r, seen)
    ensures var t := Run(s, Attempts(ws));
      && |t.requests| == |s.requests|
      && t.requests[r].status == (if SomeLastTry(seen) then Failed else Pending)
      && t.requests[r].attemptCount == s.requests[r].attemptCount + Tries(seen)
      && ListsShrink(s, t, ws)
    decreases |ws|
  {
    if ws != [] {
      var w := ws[0];
      var t := Apply(Apply(Apply(s, SweepClaims(w)), Throws(w, false)), Reports(w));
      assert ReadyToTry(s, w, r, seen[0]);
      OneAttempt(s, w, r, seen[0]);
      OthersStayReady(s, t, ws, r, seen);
      RunThree(s, SweepClaims(w), Throws(w, false), Reports(w), Attempts(ws[1..]));
      SomeLastTryUnfolds(seen);
      hide Apply, AllReady, SomeLastTry;
      if LastTry(seen[0]) {
        LateAttemptsChangeNothing(t, ws[1..], r, seen[1..]);
      } else {
        OverlappingSweepsSpendAttempts(t, ws[1..], r, seen[1..]);
      }
    }
  }

  lemma RunThree(s: System, a: Action, b: Action, c: Action, rest: seq<Action>)
    ensures Run(s, [a, b, c] + rest) == Run(Apply(Apply(Apply(s, a), b), c), rest)
  {
    hide Apply;
    var all := [a, b, c] + rest;
    assert all[1..] == [b, c] + rest && ([b, c] + rest)[1..] == [c] + rest && ([c] + rest)[1..] == rest;
    assert Run(Apply(s, a), all[1..]) == Run(Apply(Apply(s, a), b), [c] + rest);
  }

  // ----- sweeps that do not overlap -----

  predicate Serial(s: System, actions: seq<Action>)
    decreases |actions|
  {
    actions == [] || ((actions[0].SweepReads? ==> s.sweeps == map[]) && Serial(Apply(s, actions[0]), actions[1..]))
  }

  predicate CountFits(r: Request) {
    && (r.status.Pending? ==> r.attemptCount < MAX_ATTEMPTS)
    && (r.status.Failed? ==> r.attemptCount == MAX_ATTEMPTS)
  }

  predicate SweepFresh(sweep: Sweep, requests: seq<Request>) {
    && (forall i, j :: 0 <= i < j < |sweep.due| ==> sweep.due[i].id != sweep.due[j].id)
    && (forall i :: 0 <= i < |sweep.due| ==> SnapshotFresh(sweep.due[i], requests, !sweep.stage.Choosing? && i == 0))
  }

  predicate SnapshotFresh(x: Snapshot, requests: seq<Request>, claimed: bool) {
    x.id < |requests| && x.attemptCount < MAX_ATTEMPTS
    && requests[x.id].attemptCount == x.attemptCount + (if claimed then 1 else 0)
  }

  ghost predicate SerialInv(s: System) {
    && (forall w, v :: w in s.sweeps && v in s.sweeps ==> w == v)
    && (forall w :: w in s.sweeps ==> SweepFresh(s.sweeps[w], s.requests))
    && (forall r :: 0 <= r < |s.requests| ==> CountFits(s.requests[r]))
  }

  predicate Continues(sweep: Sweep, next: Sweep, requests: seq<Request>)
    requires sweep.due != []
  {
    next.due == sweep.due && SnapshotFresh(next.due[0], requests, !next.stage.Choosing?)
  }

  lemma FreshAfterUpdate(sweep: Sweep, next: Sweep, requests: seq<Request>, r: Request)
    requires sweep.due != [] && SweepFresh(sweep, requests)
    requires next == Sweep(sweep.due[1..], Choosing) || Continues(sweep, next, requests[sweep.due[0].id := r])
    ensures SweepFresh(next, requests[sweep.due[0].id := r])
  {
    var k := if next.due == sweep.due then 0 else 1;
    assert SnapshotFresh(sweep.due[0], requests, !sweep.stage.Choosing?);
    forall i | 0 <= i < |next.due|
      ensures SnapshotFresh(next.due[i], requests[sweep.due[0].id := r], !next.stage.Choosing? && i == 0)
    {
      assert next.due[i] == sweep.due[i + k];
      if i + k > 0 {
        assert sweep.due[i + k].id != sweep.due[0].id;
        assert SnapshotFresh(sweep.due[i + k], requests, false);
      }
    }
  }

  lemma ReadIsFresh(s: System, ids: seq<RequestId>)
    requires Lists(s, ids)
    ensures SweepFresh(Sweep(Snapshots(s.requests, ids), Choosing), s.requests)
  {
    forall i | 0 <= i < |ids| ensures s.requests[ids[i]].attemptCount < MAX_ATTEMPTS {
      assert ids[i] in ids;
    }
  }

  lemma FreshAfterRows(sweep: Sweep, requests: seq<Request>, requests': seq<Request>)
    requires SweepFresh(sweep, requests) && |requests| <= |requests'|
    requires forall r :: 0 <= r < |requests| ==> requests'[r].attemptCount == requests[r].attemptCount
    ensures SweepFresh(sweep, requests')
  {
    forall i | 0 <= i < |sweep.due| ensures SnapshotFresh(sweep.due[i], requests', !sweep.stage.Choosing? && i == 0) {
      assert SnapshotFresh(sweep.due[i], requests, !sweep.stage.Choosing? && i == 0);
    }
  }

  /** The one live sweep goes on to `next`, with row `id` at its head becoming `r`. */
  lemma SweepKeepsSerial(s: System, t: System, w: SweepId, next: Sweep, r: Request)
    requires SerialInv(s) && w in s.sweeps && s.sweeps[w].due != [] && s.sweeps[w].due[0].id < |s.requests|
    requires t.sweeps == s.sweeps[w := next] && t.requests == s.requests[s.sweeps[w].due[0].id := r]
    requires next == Sweep(s.sweeps[w].due[1..], Choosing) || Continues(s.sweeps[w], next, t.requests)
    requires CountFits(r)
    ensures SerialInv(t)
  {
    assert SweepFresh(s.sweeps[w], s.requests);
    FreshAfterUpdate(s.sweeps[w], next, s.requests, r);
    forall q | 0 <= q < |t.requests| ensures CountFits(t.requests[q]) {
      assert CountFits(s.requests[q]);
    }
  }

  lemma RowsKeepSerial(s: System, t: System)
    requires SerialInv(s) && t.sweeps == s.sweeps && |s.requests| <= |t.requests|
    requires forall r :: 0 <= r < |s.requests| ==> t.requests[r].attemptCount == s.requests[r].attemptCount
    requires forall r :: 0 <= r < |t.requests| ==> CountFits(t.requests[r])
    ensures SerialInv(t)
  {
    forall w | w in t.sweeps ensures SweepFresh(t.sweeps[w], t.requests) {
      FreshAfterRows(s.sweeps[w], s.requests, t.requests);
    }
  }

  lemma StepKeepsSerial(s: System, a: Action)
    requires Inv(s) && SerialInv(s) && (a.SweepReads? ==> s.sweeps == map[])
    ensures SerialInv(Apply(s, a))
  {
    if Enabled(s, a) {
      match a
      case RequestDeletion(_, _) => UserKeepsSerial(s, a);
      case CancelDeletion(_) => UserKeepsSerial(s, a);
      case Tick(_) =>
      case SweepReads(ids) => ReadIsFresh(s, ids);
      case Ends(_, _) =>
      case LateCommits(id) => CompletionKeepsSerial(s, id);
      case _ => WorkKeepsSerial(s, a);
    }
  }

  lemma UserKeepsSerial(s: System, a: Action)
    requires SerialInv(s) && Enabled(s, a) && (a.RequestDeletion? || a.CancelDeletion?)
    ensures SerialInv(Apply(s, a))
  {
    var t := Apply(s, a);
    forall r | 0 <= r < |t.requests| ensures CountFits(t.requests[r]) {
      if r < |s.requests| { assert CountFits(s.requests[r]); }
    }
    hide SweepFresh, CountFits;
    RowsKeepSerial(s, t);
  }

  lemma CompletionKeepsSerial(s: System, id: RequestId)
    requires SerialInv(s) && Enabled(s, LateCommits(id))
    ensures SerialInv(Apply(s, LateCommits(id)))
  {
    var t := Apply(s, LateCommits(id));
    forall r | 0 <= r < |t.requests| ensures CountFits(t.requests[r]) { assert CountFits(s.requests[r]); }
    hide SweepFresh, CountFits;
    RowsKeepSerial(s, t);
  }

  lemma WorkKeepsSerial(s: System, a: Action)
    requires Inv(s) && SerialInv(s) && Enabled(s, a)
    requires a.SweepClaims? || a.Commits? || a.Replies? || a.Throws? || a.Reports?
    ensures SerialInv(Apply(s, a))
  {
    hide OneHolder, OneActive, LogExact, AllAccounted;
    var w := a.w;
    var sweep := s.sweeps[w];
    var x := sweep.due[0];
    var t := Apply(s, a);
    assert SweepValid(sweep, s.requests) && SweepFresh(sweep, s.requests);
    assert SnapshotFresh(x, s.requests, !sweep.stage.Choosing?);
    assert CountFits(s.requests[x.id]);
    assert t.requests == s.requests[x.id := t.requests[x.id]];
    hide SweepFresh, SweepValid, SerialInv, SweepsValid;
    SweepKeepsSerial(s, t, w, t.sweeps[w], t.requests[x.id]);
  }

  /**
   * Sweeps that do not overlap count exactly: every waiting request has attempts left, and a
   * request fails on its fifth attempt and not before.
   */
  lemma {:induction false} SerialSweepsCountExactly(s: System, actions: seq<Action>)
    requires Inv(s) && SerialInv(s) && Serial(s, actions)
    ensures SerialInv(Run(s, actions))
    decreases |actions|
  {
    if actions != [] {
      StepKeepsInv(s, actions[0]);
      StepKeepsSerial(s, actions[0]);
      hide Inv, Apply, SerialInv, Moved;
      SerialSweepsCountExactly(Apply(s, actions[0]), actions[1..]);
    }
  }

  lemma SerialSweepsNeverAbandon(actions: seq<Action>, r: RequestId)
    requires Serial(Initial(), actions) && r < |Run(Initial(), actions).requests|
    ensures var row := Run(Initial(), actions).requests[r];
      && (row.status.Pending? ==> row.attemptCount < MAX_ATTEMPTS)
      && (row.status.Failed? ==> row.attemptCount == MAX_ATTEMPTS)
  {
    InitialHoldsInv();
    SerialSweepsCountExactly(Initial(), actions);
    var s := Run(Initial(), actions);
    hide Run;
    assert CountFits(s.requests[r]);
  }

  // ----- the overlap that does abandon a request -----

  function Readings(n: nat): seq<Action> {
    if n == 0 then [] else [SweepReads([0])] + Readings(n - 1)
  }

  /** One request, never tried, that `n` sweeps have read and none has gone on with. */
  ghost predicate AllRead(s: System, u: UserId, n: nat) {
    && |s.requests| == 1 && s.requests[0].userId == u && Due(s.requests[0], s.now) && s.requests[0].attemptCount == 0
    && s.transit == multiset{} && s.nextSweep == n
    && (forall w: SweepId :: w in s.sweeps <==> w < n)
    && (forall w :: w in s.sweeps ==> s.sweeps[w] == Sweep([Snapshot(0, 0)], Choosing))
  }

  lemma FirstRequest(s: System, u: UserId, coolingMs: int)
    requires s.requests == [] && s.sweeps == map[] && s.nextSweep == 0 && s.transit == multiset{} && coolingMs <= 0
    ensures AllRead(Apply(s, RequestDeletion(u, coolingMs)), u, 0)
  {
    assert !HasActive(s.requests, u);
  }

  lemma OneMoreReads(s: System, u: UserId, n: nat)
    requires AllRead(s, u, n)
    ensures AllRead(Apply(s, SweepReads([0])), u, n + 1)
  {
    assert Lists(s, [0]);
  }

  lemma {:induction false} ManyRead(s: System, u: UserId, m: nat, n: nat)
    requires AllRead(s, u, m)
    ensures AllRead(Run(s, Readings(n)), u, m + n)
    decreases n
  {
    hide AllRead, Apply;
    if n > 0 {
      OneMoreReads(s, u, m);
      assert Readings(n)[1..] == Readings(n - 1);
      ManyRead(Apply(s, SweepReads([0])), u, m + 1, n - 1);
    }
  }

  lemma {:induction false} RunAppend(s: System, before: seq<Action>, after: seq<Action>)
    ensures Run(s, before + after) == Run(Run(s, before), after)
    decreases |before|
  {
    if before == [] {
      assert before + after == after;
    } else {
      hide Apply;
      assert (before + after)[1..] == before[1..] + after;
      RunAppend(Apply(s, before[0]), before[1..], after);
    }
  }

  function SweepsOf(n: nat): seq<SweepId> {
    seq(n, i => i)
  }

  lemma ReadingsAllRead(u: UserId, n: nat)
    ensures AllRead(Run(Initial(), [RequestDeletion(u, 0)] + Readings(n)), u, n)
  {
    hide AllRead, Apply;
    FirstRequest(Initial(), u, 0);
    assert ([RequestDeletion(u, 0)] + Readings(n))[1..] == Readings(n);
    ManyRead(Apply(Initial(), RequestDeletion(u, 0)), u, 0, n);
  }

  lemma {:induction false} ZerosTry(n: nat)
    ensures Tries(seq(n, _ => 0)) == n && !SomeLastTry(seq(n, _ => 0))
  {
    if n > 0 {
      assert seq(n, _ => 0)[1..] == seq(n - 1, _ => 0);
      ZerosTry(n - 1);
    }
  }

  lemma AllTry(s: System, u: UserId, n: nat)
    requires AllRead(s, u, n)
    ensures var t := Run(s, Attempts(SweepsOf(n)));
      |t.requests| == 1 && t.requests[0].status.Pending? && t.requests[0].attemptCount == n && Unlisted(t, 0)
  {
    hide Run, Apply, Attempts, Tries, SomeLastTry;
    var ws, seen := SweepsOf(n), seq(n, _ => 0);
    forall i | 0 <= i < |ws| ensures ReadyToTry(s, ws[i], 0, seen[i]) { assert ws[i] in s.sweeps; }
    ZerosTry(n);
    OverlappingSweepsSpendAttempts(s, ws, 0, seen);
    var t := Run(s, Attempts(ws));
    forall w | w in t.sweeps ensures !Mentions(t.sweeps[w], 0) { assert w < n && w == ws[w]; }
  }

  function Overlap(u: UserId, n: nat): seq<Action> {
    [RequestDeletion(u, 0)] + Readings(n) + Attempts(SweepsOf(n))
  }

  /**
   * When `n` sweeps list a new request before any of them tries it, and their finalizations all
   * fail, it has made `n` attempts and is still waiting; from five on, no sweep ever claims it.
   */
  lemma OverlapAbandons(u: UserId, n: nat)
    ensures var s := Run(Initial(), Overlap(u, n));
      && |s.requests| == 1 && s.requests[0].status.Pending? && s.requests[0].attemptCount == n
      && (CanBeClaimed(s, 0) <==> n < MAX_ATTEMPTS)
  {
    hide Run, Attempts, SweepsOf, AllRead, CanBeClaimed, Mentions;
    ReadingsAllRead(u, n);
    RunAppend(Initial(), [RequestDeletion(u, 0)] + Readings(n), Attempts(SweepsOf(n)));
    AllTry(Run(Initial(), [RequestDeletion(u, 0)] + Readings(n)), u, n);
    AbandonedExactlyWhenSpent(Overlap(u, n), 0);
  }

  // ----- the crash that does orphan a request, and the late commit that overrides a cancellation -----

  lemma ClaimThenCrash(s: System, u: UserId)
    requires AllRead(s, u, 1)
    ensures Orphaned(Apply(Apply(s, SweepClaims(0)), Ends(0, false)), 0)
  {
    var claimed := Apply(s, SweepClaims(0));
    assert Busy(s, 0, Choosing);
    forall w ensures !Holds(Apply(claimed, Ends(0, false)), w, 0) {}
  }

  function CrashAfterClaim(u: UserId): seq<Action> {
    [RequestDeletion(u, 0)] + Readings(1) + [SweepClaims(0), Ends(0, false)]
  }

  /** A sweep that dies right after its claim: from then on nothing takes the request out of processing. */
  lemma CrashOrphans(u: UserId)
    ensures var s := Run(Initial(), CrashAfterClaim(u));
      && |s.requests| > 0 && s.requests[0].status.Processing? && (forall w :: !Holds(s, w, 0)) && 0 !in s.transit
      && !CanLeaveProcessing(s, 0)
  {
    hide AllRead, Apply, CanLeaveProcessing;
    var first := [RequestDeletion(u, 0)] + Readings(1);
    var last := [SweepClaims(0), Ends(0, false)];
    var s := Run(Initial(), first);
    ReadingsAllRead(u, 1);
    ClaimThenCrash(s, u);
    assert last[1..] == [Ends(0, false)];
    RunOnce(Apply(s, SweepClaims(0)), Ends(0, false));
    RunAppend(Initial(), first, last);
    ProcessingEndsExactlyWhenHeld(CrashAfterClaim(u), 0);
  }

  lemma TimesOut(s: System, u: UserId)
    requires AllRead(s, u, 1)
    ensures var t := Apply(Apply(Apply(s, SweepClaims(0)), Throws(0, true)), Reports(0));
      |t.requests| == 1 && t.requests[0].userId == u && t.requests[0].status.Pending? && 0 in t.transit
  {
    hide Lists, HasActive;
    var claimed := Apply(s, SweepClaims(0));
    assert Busy(s, 0, Choosing) && Busy(claimed, 0, Finalizing);
    var told := Apply(claimed, Throws(0, true));
    assert Busy(told, 0, Reporting) && told.requests[0].status.Processing?;
  }

  lemma CancelledThenCommitted(s: System, u: UserId)
    requires |s.requests| == 1 && s.requests[0].userId == u && s.requests[0].status.Pending? && 0 in s.transit
    ensures var t := Apply(s, CancelDeletion(u)); var late := Apply(t, LateCommits(0));
      && |t.requests| == 1 && t.requests[0].userId == u && t.requests[0].status.Cancelled?
      && |late.requests| == 1 && late.requests[0].status.Completed?
  {
  }

  function CancelAfterTimeout(u: UserId): seq<Action> {
    [RequestDeletion(u, 0)] + Readings(1) + ([SweepClaims(0), Throws(0, true), Reports(0)] + [CancelDeletion(u)])
  }

  /** A sweep reports a transaction as failed, the user cancels, and the transaction commits after all. */
  lemma CancellationIsOverridden(u: UserId)
    ensures var s := Run(Initial(), CancelAfterTimeout(u));
      var t := Run(Initial(), CancelAfterTimeout(u) + [LateCommits(0)]);
      && |s.requests| == 1 && s.requests[0].userId == u && s.requests[0].status.Cancelled?
      && |t.requests| == 1 && t.requests[0].status.Completed?
  {
    var first := [RequestDeletion(u, 0)] + Readings(1);
    var s := Run(Initial(), first);
    var timeout := [SweepClaims(0), Throws(0, true), Reports(0)];
    ReadingsAllRead(u, 1);
    TimesOut(s, u);
    hide AllRead, Run, Apply;
    CancelledThenCommitted(Apply(Apply(Apply(s, SweepClaims(0)), Throws(0, true)), Reports(0)), u);
    RunAppend(Initial(), first, timeout + [CancelDeletion(u)]);
    RunThree(s, SweepClaims(0), Throws(0, true), Reports(0), [CancelDeletion(u)]);
    RunOnce(Apply(Apply(Apply(s, SweepClaims(0)), Throws(0, true)), Reports(0)), CancelDeletion(u));
    RunAppend(Initial(), CancelAfterTimeout(u), [LateCommits(0)]);
    RunOnce(Run(Initial(), CancelAfterTimeout(u)), LateCommits(0));
  }
}
