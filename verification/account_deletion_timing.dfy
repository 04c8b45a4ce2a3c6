/**
 * What a user's request and cancellation do, and when a deletion may happen: never inside the
 * cooling-off period, and not before a retry is due.
 */
module AccountDeletionTiming {
  import opened AccountDeletion
  import opened Wrappers

  // ----- requests and cancellations -----

  /** A request is accepted exactly if the user has none that waits or is being processed; it comes last and untried. */
  lemma RequestedExactlyWhenNoneOpen(s: System, u: UserId, coolingMs: int)
    ensures var t := Apply(s, RequestDeletion(u, coolingMs));
      var open := exists i :: 0 <= i < |s.requests| && s.requests[i].userId == u
                              && (s.requests[i].status.Pending? || s.requests[i].status.Processing?);
      t == if open then s
           else s.(requests := s.requests + [Request(u, Pending, s.now + coolingMs, 0, None)])
  {
  }

  /** A cancellation takes exactly the waiting requests of its user out of the queue and touches nothing else. */
  lemma CancelsOwnWaitingRequests(s: System, u: UserId)
    ensures var t := Apply(s, CancelDeletion(u));
      && t == s.(requests := t.requests) && |t.requests| == |s.requests|
      && forall r :: 0 <= r < |s.requests| ==>
           t.requests[r] == if s.requests[r].userId == u && s.requests[r].status.Pending?
                            then s.requests[r].(status := Cancelled) else s.requests[r]
  {
  }

  // ----- nothing happens inside the cooling-off period -----

  /** The period of request `r` is over. */
  predicate Over(requests: seq<Request>, now: int, r: RequestId) {
    r < |requests| && requests[r].scheduledFor <= now
  }

  predicate UntouchedOrOver(requests: seq<Request>, now: int, r: RequestId)
    requires r < |requests|
  {
    requests[r].status.Pending? || requests[r].status.Cancelled? || Over(requests, now, r)
  }

  ghost predicate ListsOver(s: System) {
    forall w, i :: w in s.sweeps && 0 <= i < |s.sweeps[w].due| ==> Over(s.requests, s.now, s.sweeps[w].due[i].id)
  }

  ghost predicate PeriodsKept(s: System) {
    && (forall r :: 0 <= r < |s.requests| ==> UntouchedOrOver(s.requests, s.now, r))
    && (forall r :: r in s.transit ==> Over(s.requests, s.now, r))
    && ListsOver(s)
  }

  lemma StepOnSchedule(s: System, a: Action, r: RequestId)
    requires r < |s.requests|
    ensures var t := Apply(s, a);
      r < |t.requests| && t.requests[r].scheduledFor == s.requests[r].scheduledFor && s.now <= t.now
  {
    hide Lists, HasActive;
  }

  lemma StaysOver(s: System, a: Action, r: RequestId)
    requires Over(s.requests, s.now, r)
    ensures Over(Apply(s, a).requests, Apply(s, a).now, r)
  {
    StepOnSchedule(s, a, r);
    hide Apply;
  }

  lemma StepKeepsLists(s: System, a: Action)
    requires ListsOver(s)
    ensures ListsOver(Apply(s, a))
  {
    var t := Apply(s, a);
    forall w, i | w in t.sweeps && 0 <= i < |t.sweeps[w].due| ensures Over(t.requests, t.now, t.sweeps[w].due[i].id) {
      if Enabled(s, a) && a.SweepReads? && w == s.nextSweep {
        assert a.ids[i] in a.ids;
      } else {
        hide Lists, HasActive, Due;
        var k := if t.sweeps[w].due == s.sweeps[w].due then i else i + 1;
        assert s.sweeps[w].due[k] == t.sweeps[w].due[i];
        StaysOver(s, a, s.sweeps[w].due[k].id);
      }
    }
  }

  lemma StepKeepsRow(s: System, a: Action, r: RequestId)
    requires PeriodsKept(s) && r < |Apply(s, a).requests|
    ensures UntouchedOrOver(Apply(s, a).requests, Apply(s, a).now, r)
  {
    if r < |s.requests| {
      assert UntouchedOrOver(s.requests, s.now, r);
      if Apply(s, a).requests[r].status != s.requests[r].status {
        RewrittenIsOver(s, a, r);
      }
      StepOnSchedule(s, a, r);
      hide Apply;
    }
  }

  /** Only sweeps and late commits give a row another status, unless it is cancelled. */
  lemma RewrittenIsOver(s: System, a: Action, r: RequestId)
    requires PeriodsKept(s) && r < |s.requests| && Apply(s, a).requests[r].status != s.requests[r].status
    ensures Over(s.requests, s.now, r) || Apply(s, a).requests[r].status.Cancelled?
  {
    hide Lists, HasActive, Due, Pow5;
    match a
    case SweepClaims(w) => assert Over(s.requests, s.now, s.sweeps[w].due[0].id);
    case Commits(w) => assert Over(s.requests, s.now, s.sweeps[w].due[0].id);
    case Reports(w) => assert Over(s.requests, s.now, s.sweeps[w].due[0].id);
    case _ =>
  }

  lemma StepKeepsTransit(s: System, a: Action, r: RequestId)
    requires PeriodsKept(s) && r in Apply(s, a).transit
    ensures Over(Apply(s, a).requests, Apply(s, a).now, r)
  {
    hide Lists, HasActive, Due;
    assert r in s.transit || Over(s.requests, s.now, r) by {
      if r !in s.transit { assert Over(s.requests, s.now, s.sweeps[a.w].due[0].id); }
    }
    hide Apply;
    StaysOver(s, a, r);
  }

  lemma StepKeepsPeriods(s: System, a: Action)
    requires PeriodsKept(s)
    ensures PeriodsKept(Apply(s, a))
  {
    hide Apply, ListsOver;
    var t := Apply(s, a);
    StepKeepsLists(s, a);
    forall r | 0 <= r < |t.requests| ensures UntouchedOrOver(t.requests, t.now, r) { StepKeepsRow(s, a, r); }
    forall r | r in t.transit ensures Over(t.requests, t.now, r) { StepKeepsTransit(s, a, r); }
  }

  lemma {:induction false} RunKeepsPeriods(s: System, actions: seq<Action>)
    requires PeriodsKept(s)
    ensures PeriodsKept(Run(s, actions))
    decreases |actions|
  {
    if actions != [] {
      StepKeepsPeriods(s, actions[0]);
      hide PeriodsKept, Apply;
      RunKeepsPeriods(Apply(s, actions[0]), actions[1..]);
    }
  }

  lemma {:induction false} RunOnSchedule(s: System, actions: seq<Action>, r: RequestId)
    requires r < |s.requests|
    ensures var t := Run(s, actions);
      r < |t.requests| && t.requests[r].scheduledFor == s.requests[r].scheduledFor && s.now <= t.now
    decreases |actions|
  {
    if actions != [] {
      StepOnSchedule(s, actions[0], r);
      hide Apply;
      RunOnSchedule(Apply(s, actions[0]), actions[1..], r);
    }
  }

  /** In every run: what is being finalized, was finalized or has failed was past its cooling-off period. */
  lemma CoolingOffIsKept(actions: seq<Action>, r: RequestId)
    requires r < |Run(Initial(), actions).requests|
    ensures var s := Run(Initial(), actions);
      !s.requests[r].status.Pending? && !s.requests[r].status.Cancelled? ==> s.requests[r].scheduledFor <= s.now
  {
    RunKeepsPeriods(Initial(), actions);
    var s := Run(Initial(), actions);
    hide Run;
    assert UntouchedOrOver(s.requests, s.now, r);
  }

  /** No account is claimed or finalized before the clock of its request plus the cooling-off period. */
  lemma NotBeforeCoolingOff(before: seq<Action>, u: UserId, coolingMs: int, after: seq<Action>)
    requires Enabled(Run(Initial(), before), RequestDeletion(u, coolingMs))
    ensures var s := Run(Initial(), before); var r := |s.requests|;
      var t := Run(Apply(s, RequestDeletion(u, coolingMs)), after);
      && r < |t.requests|
      && (t.requests[r].status.Processing? || t.requests[r].status.Completed? || t.requests[r].status.Failed?
          ==> s.now + coolingMs <= t.now)
  {
    var s := Run(Initial(), before);
    RunKeepsPeriods(Initial(), before);
    StepKeepsPeriods(s, RequestDeletion(u, coolingMs));
    var asked := Apply(s, RequestDeletion(u, coolingMs));
    RunKeepsPeriods(asked, after);
    RunOnSchedule(asked, after, |s.requests|);
    var t := Run(asked, after);
    hide Run;
    assert UntouchedOrOver(t.requests, t.now, |s.requests|);
  }

  // ----- when a sweep lists a request -----

  /** A sweep that reads now is shown the request. */
  ghost predicate Listed(s: System, r: RequestId) {
    exists ids :: Lists(s, ids) && r in ids
  }

  function AllDue(requests: seq<Request>, now: int, n: nat): (ids: seq<RequestId>)
    requires n <= |requests|
    ensures forall i :: 0 <= i < |ids| ==> ids[i] < n
    ensures forall i, j :: 0 <= i < j < |ids| ==> ids[i] != ids[j]
    ensures forall q :: 0 <= q < n ==> (q in ids <==> Due(requests[q], now))
  {
    if n == 0 then []
    else
      var rest := AllDue(requests, now, n - 1);
      if Due(requests[n - 1], now) then rest + [n - 1] else rest
  }

  lemma ListedMeans(s: System, r: RequestId)
    requires r < |s.requests|
    ensures Listed(s, r) <==> Due(s.requests[r], s.now)
  {
    var ids := AllDue(s.requests, s.now, |s.requests|);
    hide Due;
    assert Lists(s, ids);
  }

  /** A request that nobody has tried is listed exactly from the end of its cooling-off period on, while it waits. */
  lemma UntriedIsListedExactlyFrom(s: System, u: UserId, coolingMs: int, later: System)
    requires Enabled(s, RequestDeletion(u, coolingMs)) && |s.requests| < |later.requests|
    requires later.requests[|s.requests|] == Apply(s, RequestDeletion(u, coolingMs)).requests[|s.requests|]
    ensures Listed(later, |s.requests|) <==> s.now + coolingMs <= later.now
  {
    ListedMeans(later, |s.requests|);
  }

  /** Nobody is shown a request that was cancelled or that is being finalized, finalized or failed. */
  lemma OnlyWaitingIsListed(s: System, r: RequestId)
    requires r < |s.requests| && Listed(s, r)
    ensures s.requests[r].status.Pending?
  {
    ListedMeans(s, r);
  }

  function Minutes(n: nat): int {
    if n == 0 then 60_000 else 5 * Minutes(n - 1)
  }

  lemma {:induction false} MinutesArePow5(n: nat)
    ensures Minutes(n) == Pow5(n) * 60_000
  {
    if n > 0 { MinutesArePow5(n - 1); }
  }

  /**
   * After a failure reported by a sweep that had read count `n` the request is listed again exactly
   * 5^n minutes later, unless that count or the real one says that its attempts are used up.
   */
  lemma RetriedExactlyAfterBackoff(s: System, w: SweepId, later: System)
    requires Busy(s, w, Reporting) && s.requests[s.sweeps[w].due[0].id].status.Processing?
    requires Over(s.requests, s.now, s.sweeps[w].due[0].id) && s.now <= later.now
    requires var r := s.sweeps[w].due[0].id;
      r < |later.requests| && later.requests[r] == Apply(s, Reports(w)).requests[r]
    ensures var x := s.sweeps[w].due[0];
      Listed(later, x.id) <==>
        x.attemptCount < 4 && s.requests[x.id].attemptCount < 5 && s.now + Minutes(x.attemptCount) <= later.now
  {
    var x := s.sweeps[w].due[0];
    MinutesArePow5(x.attemptCount);
    hide Pow5, Minutes;
    ListedMeans(later, x.id);
  }

  /** Each claim of a request counts one attempt, and nothing else does. */
  lemma ClaimsCountAttempts(s: System, a: Action, r: RequestId)
    requires r < |s.requests|
    ensures r < |Apply(s, a).requests| && Apply(s, a).requests[r].attemptCount
      == s.requests[r].attemptCount
         + (if a.SweepClaims? && Busy(s, a.w, Choosing) && s.sweeps[a.w].due[0].id == r && s.requests[r].status.Pending?
            then 1 else 0)
  {
    hide Lists, HasActive;
  }
}
