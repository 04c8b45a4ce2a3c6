/**
 * Queue leases and the runs that drain queues under them.  Runs in any number of processes acquire,
 * renew and release; the clock moves on in between.  A run's `deadline` repeats what the database
 * last answered it; the database itself never reads it.
 */
module QueueLease {
  import opened Wrappers

  type Token = nat
  type RunId = nat

  datatype Lease = Lease(token: Option<Token>, until: Option<int>)

  datatype DrainRun = DrainRun(queue: string, token: Token, draining: bool, deadline: int)

  datatype Leases = Leases(
    now: int, rows: map<string, Lease>, runs: map<RunId, DrainRun>, nextToken: Token, nextRun: RunId)

  datatype Action =
    | Acquire(queue: string, leaseMs: int)
    | Renew(r: RunId, leaseMs: int)
    | DrainEnds(r: RunId)
    | Release(r: RunId)
    | Crash(r: RunId)
    | Tick(t: int)

  function Initial(now: int): Leases {
    Leases(now, map[], map[], 0, 0)
  }

  /** The guard of the upsert: no row yet, no lease, or a lease that has run out. */
  predicate Free(s: Leases, queue: string) {
    queue !in s.rows || s.rows[queue].until.None? || s.rows[queue].until.value <= s.now
  }

  predicate HoldsRow(s: Leases, queue: string, token: Token) {
    queue in s.rows && s.rows[queue].token == Some(token)
  }

  /** Lease lengths come from configuration, which only yields positive numbers. */
  predicate Enabled(s: Leases, a: Action) {
    match a
    case Acquire(queue, leaseMs) => leaseMs > 0 && Free(s, queue)
    case Renew(r, leaseMs) => leaseMs > 0 && r in s.runs && HoldsRow(s, s.runs[r].queue, s.runs[r].token)
    case DrainEnds(r) => r in s.runs
    case Release(r) => r in s.runs && !s.runs[r].draining && HoldsRow(s, s.runs[r].queue, s.runs[r].token)
    case Crash(r) => r in s.runs
    case Tick(t) => s.now <= t
  }

  function Apply(s: Leases, a: Action): Leases {
    if !Enabled(s, a) then s
    else
      match a
      case Acquire(queue, leaseMs) =>
        s.(rows := s.rows[queue := Lease(Some(s.nextToken), Some(s.now + leaseMs))],
           runs := s.runs[s.nextRun := DrainRun(queue, s.nextToken, true, s.now + leaseMs)],
           nextToken := s.nextToken + 1, nextRun := s.nextRun + 1)
      case Renew(r, leaseMs) =>
        s.(rows := s.rows[s.runs[r].queue := Lease(Some(s.runs[r].token), Some(s.now + leaseMs))],
           runs := s.runs[r := s.runs[r].(deadline := s.now + leaseMs)])
      case DrainEnds(r) => s.(runs := s.runs[r := s.runs[r].(draining := false)])
      case Release(r) => s.(rows := s.rows[s.runs[r].queue := Lease(None, None)])
      case Crash(r) => s.(runs := s.runs - {r})
      case Tick(t) => s.(now := t)
  }

  function Run(s: Leases, actions: seq<Action>): Leases
    decreases |actions|
  {
    if actions == [] then s else Run(Apply(s, actions[0]), actions[1..])
  }

  // ----- the assumption and the guarantee -----

  predicate DrainingOn(s: Leases, r: RunId, queue: string) {
    r in s.runs && s.runs[r].draining && s.runs[r].queue == queue
  }

  /** The clock does not reach the deadline of a run that is still draining. */
  ghost predicate Punctual(s: Leases, a: Action) {
    a.Tick? && s.now <= a.t ==> forall r :: r in s.runs && s.runs[r].draining ==> a.t < s.runs[r].deadline
  }

  /** Each renewal lands before the deadline it extends, all along the run. */
  ghost predicate AllPunctual(s: Leases, actions: seq<Action>)
    decreases |actions|
  {
    actions == [] || (Punctual(s, actions[0]) && AllPunctual(Apply(s, actions[0]), actions[1..]))
  }

  ghost predicate MutualExclusion(s: Leases) {
    forall q, r, queue :: DrainingOn(s, q, queue) && DrainingOn(s, r, queue) ==> q == r
  }

  // ----- invariants -----

  ghost predicate RunsFresh(s: Leases) {
    forall r :: r in s.runs ==> r < s.nextRun && s.runs[r].token < s.nextToken
  }

  ghost predicate TokensDistinct(s: Leases) {
    forall q, r :: q in s.runs && r in s.runs && q != r ==> s.runs[q].token != s.runs[r].token
  }

  ghost predicate RowsFresh(s: Leases) {
    && (forall queue :: queue in s.rows && s.rows[queue].token.Some? ==> s.rows[queue].token.value < s.nextToken)
    && (forall queue :: queue in s.rows ==> (s.rows[queue].token.Some? <==> s.rows[queue].until.Some?))
  }

  /** Whatever the clock does: ids are fresh, and no two runs share a token. */
  ghost predicate Inv(s: Leases) {
    RunsFresh(s) && TokensDistinct(s) && RowsFresh(s)
  }

  /** Every draining run holds its queue's row, until its own deadline, which is still ahead. */
  ghost predicate HoldersCurrent(s: Leases) {
    forall r :: r in s.runs && s.runs[r].draining ==> Current(s, s.runs[r])
  }

  predicate Current(s: Leases, run: DrainRun) {
    && run.queue in s.rows && s.rows[run.queue] == Lease(Some(run.token), Some(run.deadline))
    && s.now < run.deadline
  }

  lemma StepKeepsRuns(s: Leases, a: Action)
    requires RunsFresh(s) && TokensDistinct(s)
    ensures RunsFresh(Apply(s, a)) && TokensDistinct(Apply(s, a))
  {
  }

  lemma StepKeepsRows(s: Leases, a: Action)
    requires RunsFresh(s) && RowsFresh(s)
    ensures RowsFresh(Apply(s, a))
  {
  }

  lemma StepKeepsInv(s: Leases, a: Action)
    requires Inv(s)
    ensures Inv(Apply(s, a))
  {
    hide RunsFresh, TokensDistinct, RowsFresh, Apply;
    StepKeepsRuns(s, a);
    StepKeepsRows(s, a);
  }

  lemma PunctualStepKeepsHolders(s: Leases, a: Action)
    requires Inv(s) && HoldersCurrent(s) && Punctual(s, a)
    ensures HoldersCurrent(Apply(s, a))
  {
    var t := Apply(s, a);
    forall r | r in t.runs && t.runs[r].draining ensures Current(t, t.runs[r]) {
      if r in s.runs && s.runs[r].draining { assert Current(s, s.runs[r]); }
    }
  }

  lemma HoldersExclude(s: Leases)
    requires Inv(s) && HoldersCurrent(s)
    ensures MutualExclusion(s)
  {
    forall q, r, queue | DrainingOn(s, q, queue) && DrainingOn(s, r, queue) ensures q == r {
      assert Current(s, s.runs[q]) && Current(s, s.runs[r]);
    }
  }

  lemma {:induction false} PunctualRunKeepsHolders(s: Leases, actions: seq<Action>)
    requires Inv(s) && HoldersCurrent(s) && AllPunctual(s, actions)
    ensures Inv(Run(s, actions)) && HoldersCurrent(Run(s, actions))
    decreases |actions|
  {
    if actions != [] {
      hide Inv, HoldersCurrent, Apply;
      StepKeepsInv(s, actions[0]);
      PunctualStepKeepsHolders(s, actions[0]);
      PunctualRunKeepsHolders(Apply(s, actions[0]), actions[1..]);
    }
  }

  /** Across any number of runners, two never drain the same queue at once while renewals are punctual. */
  lemma DrainsAreExclusive(now: int, actions: seq<Action>)
    requires AllPunctual(Initial(now), actions)
    ensures MutualExclusion(Run(Initial(now), actions))
  {
    PunctualRunKeepsHolders(Initial(now), actions);
    HoldersExclude(Run(Initial(now), actions));
  }

  /**
   * The assumption cannot be weakened: from any such state, at any later moment, another runner's
   * acquire puts a second drain beside the first exactly when the first one's deadline has passed.
   */
  lemma TakeoverExactlyWhenLate(s: Leases, r: RunId, t: int, leaseMs: int)
    requires Inv(s) && HoldersCurrent(s) && r in s.runs && s.runs[r].draining && s.now <= t && leaseMs > 0
    ensures var late := Apply(Apply(s, Tick(t)), Acquire(s.runs[r].queue, leaseMs));
      (exists q :: q != r && DrainingOn(late, q, s.runs[r].queue) && DrainingOn(late, r, s.runs[r].queue))
      <==> s.runs[r].deadline <= t
  {
    var queue := s.runs[r].queue;
    var late := Apply(Apply(s, Tick(t)), Acquire(queue, leaseMs));
    assert Current(s, s.runs[r]);
    HoldersExclude(s);
    if s.runs[r].deadline <= t {
      assert DrainingOn(late, s.nextRun, queue) && DrainingOn(late, r, queue);
    } else {
      forall q | q != r ensures !DrainingOn(late, q, queue) {
        assert DrainingOn(s, r, queue) && !DrainingOn(s, q, queue);
      }
    }
  }

  // ----- displaced runners -----

  ghost predicate Displaced(s: Leases, r: RunId) {
    r in s.runs ==> !HoldsRow(s, s.runs[r].queue, s.runs[r].token)
  }

  lemma StepKeepsDisplaced(s: Leases, a: Action, r: RunId)
    requires Inv(s) && r < s.nextRun && Displaced(s, r)
    ensures Displaced(Apply(s, a), r) && r < Apply(s, a).nextRun
  {
  }

  /** Once displaced, a runner stays displaced, and its late renewals and releases change nothing. */
  lemma {:induction false} DisplacedRunnerChangesNothing(s: Leases, actions: seq<Action>, r: RunId, leaseMs: int)
    requires Inv(s) && r < s.nextRun && Displaced(s, r)
    ensures var t := Run(s, actions);
      Displaced(t, r) && Apply(t, Renew(r, leaseMs)) == t && Apply(t, Release(r)) == t
    decreases |actions|
  {
    if actions != [] {
      StepKeepsInv(s, actions[0]);
      StepKeepsDisplaced(s, actions[0], r);
      hide Inv, Displaced, Apply;
      DisplacedRunnerChangesNothing(Apply(s, actions[0]), actions[1..], r, leaseMs);
    }
  }

  /** Nobody alive holds the row, so nothing but an acquire can change it. */
  ghost predicate Unattended(s: Leases, queue: string, row: Lease) {
    && queue in s.rows && s.rows[queue] == row
    && forall r :: r in s.runs && s.runs[r].queue == queue ==> row.token != Some(s.runs[r].token)
  }

  lemma StepKeepsUnattended(s: Leases, a: Action, queue: string, row: Lease)
    requires Inv(s) && Unattended(s, queue, row) && !(a.Acquire? && a.queue == queue)
    ensures Unattended(Apply(s, a), queue, row)
  {
    hide TokensDistinct, RowsFresh;
    if a.Renew? || a.Release? {
      assert a.r in s.runs && s.runs[a.r].queue == queue ==> row.token != Some(s.runs[a.r].token);
    }
  }

  ghost predicate NobodyTakes(actions: seq<Action>, queue: string) {
    forall i :: 0 <= i < |actions| ==> !(actions[i].Acquire? && actions[i].queue == queue)
  }

  lemma {:induction false} RunKeepsUnattended(s: Leases, actions: seq<Action>, queue: string, row: Lease)
    requires Inv(s) && Unattended(s, queue, row) && NobodyTakes(actions, queue)
    ensures Inv(Run(s, actions)) && Unattended(Run(s, actions), queue, row)
    decreases |actions|
  {
    if actions != [] {
      hide Inv, Unattended, Apply;
      assert NobodyTakes(actions[1..], queue);
      StepKeepsInv(s, actions[0]);
      StepKeepsUnattended(s, actions[0], queue, row);
      RunKeepsUnattended(Apply(s, actions[0]), actions[1..], queue, row);
    }
  }

  /**
   * A queue whose runner crashed is drained again: whatever others do on other queues, the first
   * acquire succeeds exactly when the lease that the runner left behind has run out.
   */
  lemma AbandonedQueueIsFreed(s: Leases, queue: string, actions: seq<Action>, leaseMs: int)
    requires Inv(s) && queue in s.rows && leaseMs > 0
    requires Unattended(s, queue, s.rows[queue]) && NobodyTakes(actions, queue)
    ensures var t := Run(s, actions); var until := s.rows[queue].until;
      DrainingOn(Apply(t, Acquire(queue, leaseMs)), t.nextRun, queue) <==> until.None? || until.value <= t.now
  {
    RunKeepsUnattended(s, actions, queue, s.rows[queue]);
    hide TokensDistinct, RowsFresh, Run;
  }

  // ----- how a run ends -----

  /** A run that has drained its queue and gives its row back leaves the queue to whoever asks next. */
  lemma ReleasedQueueIsFree(s: Leases, r: RunId, leaseMs: int)
    requires r in s.runs && HoldsRow(s, s.runs[r].queue, s.runs[r].token) && leaseMs > 0
    ensures var queue := s.runs[r].queue;
      var drained := Apply(s, DrainEnds(r)); var released := Apply(drained, Release(r));
      && !DrainingOn(drained, r, queue) && drained.rows == s.rows
      && DrainingOn(Apply(released, Acquire(queue, leaseMs)), s.nextRun, queue)
  {
  }

  /** A run that still drains cannot give its row back. */
  lemma DrainingRunKeepsRow(s: Leases, r: RunId)
    requires r in s.runs && s.runs[r].draining
    ensures Apply(s, Release(r)) == s
  {
  }

  /** A crash ends the run and leaves its row to run out. */
  lemma CrashLeavesRow(s: Leases, r: RunId)
    ensures var t := Apply(s, Crash(r)); r !in t.runs && t.rows == s.rows && t.runs == s.runs - {r}
  {
  }

  // ----- the heartbeat -----

  function Max(a: int, b: int): int {
    if a >= b then a else b
  }

  /** The interval at which a run renews its lease. */
  function HeartbeatMs(leaseMs: int): int {
    Max(1000, leaseMs / 2)
  }

  /** The heartbeat is strictly below the lease exactly for leases above one second. */
  lemma HeartbeatBelowLease(leaseMs: int)
    ensures HeartbeatMs(leaseMs) < leaseMs <==> leaseMs > 1000
  {
  }

  /** One lost renewal already lets the lease run out, except for odd leases of at least 2001 ms. */
  lemma LostRenewal(leaseMs: int)
    ensures 2 * HeartbeatMs(leaseMs) < leaseMs <==> leaseMs % 2 == 1 && leaseMs >= 2001
  {
  }

  /** Run `r` renews at each of the given moments. */
  function Beats(r: RunId, times: seq<int>, leaseMs: int): seq<Action> {
    if times == [] then [] else [Tick(times[0]), Renew(r, leaseMs)] + Beats(r, times[1..], leaseMs)
  }

  predicate Ascending(start: int, times: seq<int>)
    decreases |times|
  {
    times != [] ==> start <= times[0] && Ascending(times[0], times[1..])
  }

  /** Each renewal lands before the deadline set by the one before it. */
  predicate GapsBelow(deadline: int, times: seq<int>, leaseMs: int)
    decreases |times|
  {
    times != [] ==> times[0] < deadline && GapsBelow(times[0] + leaseMs, times[1..], leaseMs)
  }

  ghost predicate OnlyDrains(s: Leases, r: RunId) {
    && r in s.runs && s.runs[r].draining && Current(s, s.runs[r])
    && forall q :: q in s.runs && s.runs[q].draining ==> q == r
  }

  lemma BeatUnfolds(s: Leases, r: RunId, times: seq<int>, leaseMs: int)
    requires times != []
    ensures var rest := Beats(r, times[1..], leaseMs); var ticked := Apply(s, Tick(times[0]));
      AllPunctual(s, Beats(r, times, leaseMs)) <==>
        Punctual(s, Tick(times[0])) && AllPunctual(Apply(ticked, Renew(r, leaseMs)), rest)
  {
    hide Apply, Punctual;
    var rest := Beats(r, times[1..], leaseMs);
    var beats := Beats(r, times, leaseMs);
    assert beats[1..] == [Renew(r, leaseMs)] + rest && beats[1..][1..] == rest;
    NonTicksArePunctual(Apply(s, Tick(times[0])), Renew(r, leaseMs));
  }

  lemma NonTicksArePunctual(s: Leases, a: Action)
    requires !a.Tick?
    ensures Punctual(s, a)
  {
  }

  /** A renewal before the deadline moves the deadline, in the run and in its row. */
  lemma BeatKeepsRow(s: Leases, r: RunId, t: int, leaseMs: int)
    requires Inv(s) && r in s.runs && s.runs[r].draining && Current(s, s.runs[r]) && s.now <= t && leaseMs > 0
    ensures var u := Apply(Apply(s, Tick(t)), Renew(r, leaseMs));
      && Inv(u) && u.now == t && u.runs == s.runs[r := s.runs[r].(deadline := t + leaseMs)]
      && Current(u, u.runs[r])
  {
    hide Inv;
    StepKeepsInv(s, Tick(t));
    StepKeepsInv(Apply(s, Tick(t)), Renew(r, leaseMs));
  }

  lemma BeatKeepsOnly(s: Leases, r: RunId, t: int, leaseMs: int)
    requires Inv(s) && OnlyDrains(s, r) && s.now <= t && leaseMs > 0
    ensures var u := Apply(Apply(s, Tick(t)), Renew(r, leaseMs));
      Inv(u) && OnlyDrains(u, r) && u.now == t && u.runs[r].deadline == t + leaseMs
    ensures Punctual(s, Tick(t)) <==> t < s.runs[r].deadline
  {
    hide Apply, Inv;
    BeatKeepsRow(s, r, t, leaseMs);
  }

  /** A lone run stays punctual exactly when every gap between its renewals is below the lease. */
  lemma {:induction false} PunctualExactlyWhenGapsShort(s: Leases, r: RunId, times: seq<int>, leaseMs: int)
    requires Inv(s) && OnlyDrains(s, r) && Ascending(s.now, times) && leaseMs > 0
    ensures AllPunctual(s, Beats(r, times, leaseMs)) <==> GapsBelow(s.runs[r].deadline, times, leaseMs)
    decreases |times|
  {
    if times != [] {
      hide Apply, Inv, Current, Punctual;
      BeatUnfolds(s, r, times, leaseMs);
      BeatKeepsOnly(s, r, times[0], leaseMs);
      var renewed := Apply(Apply(s, Tick(times[0])), Renew(r, leaseMs));
      PunctualExactlyWhenGapsShort(renewed, r, times[1..], leaseMs);
    }
  }

  /** Renewals fired every heartbeat and delayed by at most `jitter` each. */
  predicate Jittered(start: int, times: seq<int>, period: int, jitter: int)
    decreases |times|
  {
    times != [] ==>
      && start + period <= times[0] <= start + period + jitter
      && Jittered(start + period, times[1..], period, jitter)
  }

  /** Renewals may be late by anything below lease minus heartbeat, for ever, without losing the lease. */
  lemma {:induction false} JitterTolerated(start: int, deadline: int, times: seq<int>, leaseMs: int, jitter: int)
    requires Jittered(start, times, HeartbeatMs(leaseMs), jitter)
    requires 0 <= jitter < leaseMs - HeartbeatMs(leaseMs) && start + leaseMs <= deadline
    ensures GapsBelow(deadline, times, leaseMs)
    decreases |times|
  {
    if times != [] {
      JitterTolerated(start + HeartbeatMs(leaseMs), times[0] + leaseMs, times[1..], leaseMs, jitter);
    }
  }

  // ----- the table and the runner -----

  class LeaseTable {
    var now: int
    var rows: map<string, Lease>
    var runs: map<RunId, DrainRun>
    var nextToken: Token
    var nextRun: RunId

    ghost function View(): Leases
      reads this
    {
      Leases(now, rows, runs, nextToken, nextRun)
    }

    constructor (now: int)
      ensures View() == Initial(now)
    {
      this.now := now;
      rows, runs, nextToken, nextRun := map[], map[], 0, 0;
    }

    /** Insert, or take over a row that is free; one statement, so there is at most one winner. */
    method AcquireLease(queue: string, leaseMs: int) returns (r: Option<RunId>)
      requires leaseMs > 0
      modifies this
      ensures View() == Apply(old(View()), Acquire(queue, leaseMs))
      ensures r.Some? <==> Free(old(View()), queue)
      ensures r.Some? ==> r.value == old(nextRun)
      ensures r.Some? ==> DrainingOn(View(), r.value, queue) && Current(View(), runs[r.value])
      ensures r.Some? ==> runs[r.value].deadline == now + leaseMs
    {
      if queue in rows && rows[queue].until.Some? && now < rows[queue].until.value {
        return None;
      }
      rows := rows[queue := Lease(Some(nextToken), Some(now + leaseMs))];
      runs := runs[nextRun := DrainRun(queue, nextToken, true, now + leaseMs)];
      r := Some(nextRun);
      nextToken, nextRun := nextToken + 1, nextRun + 1;
    }

    method RenewLease(r: RunId, leaseMs: int) returns (ok: bool)
      requires r in runs && leaseMs > 0
      modifies this
      ensures View() == Apply(old(View()), Renew(r, leaseMs))
      ensures ok <==> HoldsRow(old(View()), old(runs)[r].queue, old(runs)[r].token)
    {
      var run := runs[r];
      ok := run.queue in rows && rows[run.queue].token == Some(run.token);
      if ok {
        rows := rows[run.queue := rows[run.queue].(until := Some(now + leaseMs))];
        runs := runs[r := run.(deadline := now + leaseMs)];
      }
    }

    method ReleaseLease(r: RunId) returns (ok: bool)
      requires r in runs && !runs[r].draining
      modifies this
      ensures View() == Apply(old(View()), Release(r))
      ensures ok <==> HoldsRow(old(View()), old(runs)[r].queue, old(runs)[r].token)
    {
      var run := runs[r];
      ok := run.queue in rows && rows[run.queue].token == Some(run.token);
      if ok {
        rows := rows[run.queue := Lease(None, None)];
      }
    }

    method Advance(t: int)
      requires now <= t
      modifies this
      ensures View() == Apply(old(View()), Tick(t))
    {
      now := t;
    }

    /** Time passes, by less than the lease, and the run renews. */
    method Beat(r: RunId, gap: nat, leaseMs: int)
      requires r in runs && runs[r].draining && Current(View(), runs[r])
      requires runs[r].deadline == now + leaseMs && gap < leaseMs && Inv(View())
      modifies this
      ensures View() == Apply(Apply(old(View()), Tick(old(now) + gap)), Renew(r, leaseMs))
      ensures r in runs && runs[r].draining && runs[r].queue == old(runs)[r].queue && Current(View(), runs[r])
      ensures runs[r].deadline == now + leaseMs && Inv(View())
    {
      hide Inv, Current;
      BeatKeepsRow(View(), r, now + gap, leaseMs);
      Advance(now + gap);
      var _ := RenewLease(r, leaseMs);
    }

    /** The drain is over, and the run gives its row back. */
    method Finish(r: RunId)
      requires r in runs && Current(View(), runs[r]) && Inv(View())
      modifies this
      ensures Inv(View()) && Free(View(), old(runs)[r].queue)
    {
      ghost var s := View();
      StepKeepsInv(s, DrainEnds(r));
      StepKeepsInv(Apply(s, DrainEnds(r)), Release(r));
      hide Inv;
      runs := runs[r := runs[r].(draining := false)];
      var _ := ReleaseLease(r);
    }

    /**
     * One tick of a queue: acquire, drain for as many heartbeats as `gaps` lists, release.  The
     * states `during` the drain follow each other by a gap and a renewal; with gaps below the lease
     * the run holds its row in all of them and until each renewal, and afterwards the queue is free.
     */
    method RunQueue(queue: string, leaseMs: int, gaps: seq<nat>) returns (ran: bool, ghost during: seq<Leases>)
      requires leaseMs > 0 && Inv(View())
      requires forall i :: 0 <= i < |gaps| ==> gaps[i] < leaseMs
      modifies this
      ensures Inv(View())
      ensures ran <==> Free(old(View()), queue)
      ensures ran ==> Free(View(), queue)
      ensures !ran ==> View() == old(View())
      ensures ran ==> |during| == |gaps| + 1 && during[0] == Apply(old(View()), Acquire(queue, leaseMs))
      ensures ran ==> forall k :: 0 <= k < |during| ==> HoldsThrough(during[k], old(nextRun), queue, leaseMs)
      ensures ran ==> forall k :: 0 <= k < |gaps| ==> during[k + 1] == Beaten(during[k], old(nextRun), gaps[k], leaseMs)
    {
      hide Inv;
      StepKeepsInv(View(), Acquire(queue, leaseMs));
      ghost var start := View();
      during := [];
      var r := AcquireLease(queue, leaseMs);
      if r.None? {
        return false, [];
      }
      during := [View()];
      hide Apply, Free, Current;
      for i := 0 to |gaps|
        invariant Inv(View())
        invariant r.value == start.nextRun && HoldsThrough(View(), r.value, queue, leaseMs)
        invariant |during| == i + 1 && during[i] == View() && during[0] == Apply(start, Acquire(queue, leaseMs))
        invariant forall k :: 0 <= k <= i ==> HoldsThrough(during[k], r.value, queue, leaseMs)
        invariant forall k :: 0 <= k < i ==> during[k + 1] == Beaten(during[k], r.value, gaps[k], leaseMs)
      {
        Beat(r.value, gaps[i], leaseMs);
        during := during + [View()];
      }
      Finish(r.value);
      ran := true;
    }
  }

  /** The run drains the queue and its row is safe for a whole lease from now on. */
  predicate HoldsThrough(s: Leases, r: RunId, queue: string, leaseMs: int) {
    DrainingOn(s, r, queue) && Current(s, s.runs[r]) && s.runs[r].deadline == s.now + leaseMs
  }

  function Beaten(s: Leases, r: RunId, gap: nat, leaseMs: int): Leases {
    Apply(Apply(s, Tick(s.now + gap)), Renew(r, leaseMs))
  }
}
