/** The account lifecycle service in place: each method is one or more steps of the deletion protocol. */
module AccountLifecycle {
  import opened AccountDeletion
  import Safety = AccountDeletionSafety
  import Timing = AccountDeletionTiming
  import opened Wrappers

  datatype RequestResult = Created(id: RequestId) | Duplicate(id: RequestId)

  datatype CancelResult = WasCancelled | Finalized | Nothing

  /** How the finalizing transaction of one request ends; `Undecided` is an error that leaves it open. */
  datatype Reply = Committed | CommittedAndLost | RolledBack | Undecided

  predicate TookEffect(reply: Reply) {
    reply.Committed? || reply.CommittedAndLost?
  }

  /** Request `i` is the last one of the user; -1 says that there is none. */
  predicate IsLatest(requests: seq<Request>, u: UserId, i: int) {
    && -1 <= i < |requests| && (i >= 0 ==> requests[i].userId == u)
    && forall j :: i < j < |requests| ==> requests[j].userId != u
  }

  /** Every user has exactly one such position, and it is -1 exactly without any request. */
  lemma OneIsLatest(requests: seq<Request>, u: UserId, i: int)
    requires IsLatest(requests, u, i)
    ensures forall j :: IsLatest(requests, u, j) <==> j == i
    ensures i == -1 <==> forall j :: 0 <= j < |requests| ==> requests[j].userId != u
    ensures i != -1 ==> 0 <= i < |requests| && requests[i].userId == u
  {
  }

  predicate HasPending(requests: seq<Request>, u: UserId) {
    exists i :: 0 <= i < |requests| && requests[i].userId == u && requests[i].status.Pending?
  }

  lemma HasPendingSnoc(requests: seq<Request>, r: Request, u: UserId)
    ensures HasPending(requests + [r], u) <==> HasPending(requests, u) || (r.userId == u && r.status.Pending?)
  {
    var all := requests + [r];
    assert all[|requests|] == r;
    if HasPending(requests, u) {
      var i :| 0 <= i < |requests| && requests[i].userId == u && requests[i].status.Pending?;
      assert all[i] == requests[i];
    }
  }

  /** What becomes of a claimed request, `seen` being the attempt count that its sweep had read. */
  function Concluded(r: Request, seen: nat, reply: Reply, now: int): Request {
    if TookEffect(reply) then r.(status := Status.Completed) else Failure(r, seen, now)
  }

  function Outcome(r: Request, seen: nat, reply: Reply, now: int): Request {
    Concluded(r.(status := Processing, attemptCount := r.attemptCount + 1), seen, reply, now)
  }

  /** What a sweep that nobody interferes with makes of a request. */
  function Swept(r: Request, reply: Reply, now: int): Request {
    if Due(r, now) then Outcome(r, r.attemptCount, reply, now) else r
  }

  /**
   * What a sweep makes of a request that waits, is past its period, has attempts left and is not to
   * wait for a retry: it completes it if the transaction took effect, whatever was heard of it, and
   * otherwise counts the attempt, the fifth being the last, and puts the retry 5^n minutes off.
   * Every other request stays as it is.
   */
  lemma SweepOutcome(r: Request, reply: Reply, now: int)
    ensures var ready := r.status.Pending? && r.scheduledFor <= now && r.attemptCount < 5
                         && (r.nextAttemptAt.Some? ==> r.nextAttemptAt.value <= now);
      var tried := r.(attemptCount := r.attemptCount + 1);
      Swept(r, reply, now) ==
        if !ready then r
        else if reply == Reply.Committed || reply == CommittedAndLost then tried.(status := Status.Completed)
        else if r.attemptCount == 4 then tried.(status := Status.Failed)
        else tried.(nextAttemptAt := Some(now + Timing.Minutes(r.attemptCount)))
  {
    Timing.MinutesArePow5(r.attemptCount);
  }

  /** The finalizing transaction and what its sweep hears of it. */
  function Ending(w: SweepId, reply: Reply): seq<Action> {
    match reply
    case Committed => [Commits(w), Replies(w)]
    case CommittedAndLost => [Commits(w), Throws(w, false)]
    case RolledBack => [Throws(w, false)]
    case Undecided => [Throws(w, true)]
  }

  /** The steps of a sweep at a request that it claims. */
  function Steps(w: SweepId, reply: Reply): seq<Action> {
    [SweepClaims(w)] + Ending(w, reply) + (if reply.Committed? then [] else [Reports(w)])
  }

  lemma RunTwo(s: System, a: Action, b: Action)
    ensures Run(s, [a, b]) == Apply(Apply(s, a), b)
  {
    hide Apply;
    assert [a, b][1..] == [b];
    Safety.RunOnce(Apply(s, a), b);
  }

  class AccountLifecycleService {
    var requests: seq<Request>
    var clock: int
    ghost var sweeps: map<SweepId, Sweep>
    ghost var nextSweep: SweepId
    ghost var transit: multiset<RequestId>
    ghost var finalized: seq<RequestId>

    ghost function View(): System
      reads this
    {
      System(requests, sweeps, nextSweep, clock, transit, finalized)
    }

    constructor ()
      ensures View() == Initial()
    {
      requests, clock := [], 0;
      sweeps, nextSweep, transit, finalized := map[], 0, multiset{}, [];
    }

    /** The index on open requests refuses a second one, whichever of two calls is late. */
    method RequestDeletion(u: UserId, coolingMs: int) returns (r: RequestResult)
      modifies this
      ensures View() == Apply(old(View()), AccountDeletion.RequestDeletion(u, coolingMs))
      ensures r.Created? <==> !HasActive(old(requests), u)
      ensures r.id < |requests| && requests[r.id].userId == u && Active(requests[r.id].status)
    {
      for i := 0 to |requests|
        invariant forall j :: 0 <= j < i ==> !(requests[j].userId == u && Active(requests[j].status))
      {
        if requests[i].userId == u && Active(requests[i].status) {
          return Duplicate(i);
        }
      }
      requests := requests + [Request(u, Pending, clock + coolingMs, 0, None)];
      r := Created(|requests| - 1);
    }

    method LatestDeletionRequest(u: UserId) returns (i: int)
      ensures IsLatest(requests, u, i)
    {
      i := |requests| - 1;
      while i >= 0 && requests[i].userId != u
        invariant -1 <= i < |requests|
        invariant forall j :: i < j < |requests| ==> requests[j].userId != u
      {
        i := i - 1;
      }
    }

    method CancelDeletion(u: UserId) returns (r: CancelResult)
      modifies this
      ensures View() == Apply(old(View()), AccountDeletion.CancelDeletion(u))
      ensures r.WasCancelled? <==> HasPending(old(requests), u)
      ensures !r.WasCancelled? ==> forall i: nat :: IsLatest(requests, u, i) ==>
        (r.Finalized? <==> requests[i].status.Processing? || requests[i].status.Completed?)
      ensures !r.WasCancelled? && IsLatest(requests, u, -1) ==> r.Nothing?
    {
      var count := 0;
      for i := 0 to |requests|
        invariant |requests| == |old(requests)|
        invariant unchanged(`clock) && unchanged(`sweeps) && unchanged(`nextSweep)
        invariant unchanged(`transit) && unchanged(`finalized)
        invariant forall j :: 0 <= j < |requests| ==>
          requests[j] == if j < i then CancelOne(old(requests)[j], u) else old(requests)[j]
        invariant count > 0 <==> HasPending(old(requests)[..i], u)
      {
        assert old(requests)[..i + 1] == old(requests)[..i] + [old(requests)[i]];
        HasPendingSnoc(old(requests)[..i], old(requests)[i], u);
        if requests[i].userId == u && requests[i].status.Pending? {
          requests := requests[i := requests[i].(status := Status.Cancelled)];
          count := count + 1;
        }
      }
      assert requests == CancelAll(old(requests), u) && old(requests)[..|requests|] == old(requests);
      if count == 0 {
        var latest := LatestDeletionRequest(u);
        if latest >= 0 && (requests[latest].status.Processing? || requests[latest].status.Completed?) {
          return Finalized;
        }
        return Nothing;
      }
      r := WasCancelled;
    }

    method ListDue() returns (ids: seq<RequestId>)
      ensures Lists(View(), ids)
    {
      ids := [];
      for i := 0 to |requests|
        invariant forall k :: 0 <= k < |ids| ==> ids[k] < i
        invariant forall j, k :: 0 <= j < k < |ids| ==> ids[j] != ids[k]
        invariant forall r :: 0 <= r < i ==> (r in ids <==> Due(requests[r], clock))
      {
        if Due(requests[i], clock) {
          ids := ids + [i];
        }
      }
    }

    /** The guarded update that only one of the racing parties gets through. */
    method Claim(ghost w: SweepId, id: RequestId) returns (claimed: bool)
      requires Busy(View(), w, Choosing) && sweeps[w].due[0].id == id
      modifies this
      ensures View() == Apply(old(View()), SweepClaims(w))
      ensures claimed <==> old(requests)[id].status.Pending?
    {
      var r := requests[id];
      claimed := r.status.Pending?;
      if claimed {
        requests := requests[id := r.(status := Processing, attemptCount := r.attemptCount + 1)];
        sweeps := sweeps[w := sweeps[w].(stage := Finalizing)];
      } else {
        sweeps := sweeps[w := sweeps[w].(due := sweeps[w].due[1..])];
      }
    }

    /** Only the reply of the transaction, not its effect, tells the sweep how it ended. */
    method FinalizeDeletion(ghost w: SweepId, id: RequestId, reply: Reply) returns (ok: bool)
      requires Busy(View(), w, Finalizing) && sweeps[w].due[0].id == id
      modifies this
      ensures ok <==> reply.Committed?
      ensures View() == Run(old(View()), Ending(w, reply))
    {
      EndingMeans(View(), w, reply);
      hide Run, Apply, Ending;
      if TookEffect(reply) {
        requests := requests[id := requests[id].(status := Status.Completed)];
        finalized := finalized + [id];
      }
      ok := reply.Committed?;
      transit := if reply.Undecided? then transit + multiset{id} else transit;
      sweeps := sweeps[w := if ok then Sweep(sweeps[w].due[1..], Choosing) else sweeps[w].(stage := Reporting)];
    }

    /** Guarded by the status, and deciding by the attempt count that the sweep had read. */
    method HandleFinalizationFailure(ghost w: SweepId, x: Snapshot)
      requires Busy(View(), w, Reporting) && sweeps[w].due[0] == x
      modifies this
      ensures View() == Apply(old(View()), Reports(w))
    {
      var attempt := x.attemptCount + 1;
      var r := requests[x.id];
      if attempt >= MAX_ATTEMPTS {
        if r.status.Processing? {
          requests := requests[x.id := r.(status := Status.Failed)];
        }
      } else {
        var delay := Pow5(attempt - 1) * 60_000;
        if r.status.Processing? {
          requests := requests[x.id := r.(status := Pending, nextAttemptAt := Some(clock + delay))];
        }
      }
      sweeps := sweeps[w := Sweep(sweeps[w].due[1..], Choosing)];
    }

    /** One listed request; a claim that comes too late leaves it alone. */
    method Process(ghost w: SweepId, x: Snapshot, reply: Reply)
      requires Busy(View(), w, Choosing) && sweeps[w].due[0] == x
      modifies this
      ensures var pending := old(requests)[x.id].status.Pending?;
        && View() == Run(old(View()), if pending then Steps(w, reply) else [SweepClaims(w)])
        && requests == if pending then old(requests)[x.id := Outcome(old(requests)[x.id], x.attemptCount, reply, clock)]
                       else old(requests)
      ensures sweeps == old(sweeps)[w := Sweep(old(sweeps)[w].due[1..], Choosing)]
      ensures clock == old(clock) && nextSweep == old(nextSweep)
    {
      ghost var start := View();
      var claimed := Claim(w, x.id);
      Safety.RunOnce(start, SweepClaims(w));
      if !claimed {
        return;
      }
      var ok := Conclude(w, x, reply);
      Safety.RunAppend(start, [SweepClaims(w)], Ending(w, reply) + if ok then [] else [Reports(w)]);
      assert Steps(w, reply) == [SweepClaims(w)] + (Ending(w, reply) + if ok then [] else [Reports(w)]);
    }

    /** A claimed request, up to the outcome that the sweep believes in. */
    method Conclude(ghost w: SweepId, x: Snapshot, reply: Reply) returns (ok: bool)
      requires Busy(View(), w, Finalizing) && sweeps[w].due[0] == x && requests[x.id].status.Processing?
      modifies this
      ensures ok <==> reply.Committed?
      ensures View() == Run(old(View()), Ending(w, reply) + if ok then [] else [Reports(w)])
      ensures requests == old(requests)[x.id := Concluded(old(requests)[x.id], x.attemptCount, reply, clock)]
      ensures sweeps == old(sweeps)[w := Sweep(old(sweeps)[w].due[1..], Choosing)]
      ensures clock == old(clock) && nextSweep == old(nextSweep)
    {
      hide Run, Apply, Ending;
      ghost var start := View();
      EndingMeans(start, w, reply);
      ok := FinalizeDeletion(w, x.id, reply);
      if !ok {
        ghost var told := View();
        HandleFinalizationFailure(w, x);
        ReportMeans(told, w);
        Safety.RunOnce(told, Reports(w));
        Safety.RunAppend(start, Ending(w, reply), [Reports(w)]);
      } else {
        assert Ending(w, reply) + [] == Ending(w, reply);
      }
    }

    /** Works through the list that sweep `w` has read; what it found of a request may be stale. */
    method WorkThrough(ghost w: SweepId, due: seq<Snapshot>, replies: RequestId -> Reply)
      returns (ghost trace: seq<Action>)
      requires w in sweeps && sweeps[w] == Sweep(due, Choosing)
      requires forall k :: 0 <= k < |due| ==> Fits(due[k], requests, clock)
      requires forall j, k :: 0 <= j < k < |due| ==> due[j].id != due[k].id
      modifies this
      ensures View() == Run(old(View()), trace)
      ensures |requests| == |old(requests)| && clock == old(clock)
      ensures forall k :: 0 <= k < |due| ==>
        due[k].id < |requests| && requests[due[k].id] == Swept(old(requests)[due[k].id], replies(due[k].id), clock)
      ensures forall r :: 0 <= r < |requests| && !InList(due, r) ==> requests[r] == old(requests)[r]
    {
      hide Run, Apply, Swept, Outcome, Steps, InList;
      ghost var start := View();
      trace := [];
      RunNone(start);
      for k := 0 to |due|
        invariant View() == Run(start, trace)
        invariant |requests| == |old(requests)| && clock == old(clock)
        invariant w in sweeps && sweeps[w] == Sweep(due[k..], Choosing)
        invariant forall j :: k <= j < |due| ==> requests[due[j].id] == old(requests)[due[j].id]
        invariant forall j :: 0 <= j < k ==>
          requests[due[j].id] == Swept(old(requests)[due[j].id], replies(due[j].id), clock)
        invariant forall r :: 0 <= r < |requests| && !InList(due, r) ==> requests[r] == old(requests)[r]
      {
        assert Fits(due[k], old(requests), clock);
        FitsSwept(due[k], old(requests), replies(due[k].id), clock);
        Listed(due, k);
        Process(w, due[k], replies(due[k].id));
        Safety.RunAppend(start, trace, Steps(w, replies(due[k].id)));
        trace := trace + Steps(w, replies(due[k].id));
      }
    }

    /**
     * A sweep that nobody interferes with is one run of the protocol, and makes of every request
     * that was due what its own reply says, and of no other request anything.
     */
    method ProcessDue(replies: RequestId -> Reply) returns (ghost trace: seq<Action>)
      requires Inv(View())
      modifies this
      ensures Inv(View()) && View() == Run(old(View()), trace)
      ensures |requests| == |old(requests)| && clock == old(clock)
      ensures forall r :: 0 <= r < |requests| ==> requests[r] == Swept(old(requests)[r], replies(r), clock)
    {
      hide Run, Inv, Swept, InList, Apply;
      ghost var start := View();
      var ids := ListDue();
      var due := Snapshots(requests, ids);
      ghost var w := nextSweep;
      sweeps := sweeps[w := Sweep(due, Choosing)];
      nextSweep := nextSweep + 1;
      ReadingMeans(start, ids);
      Safety.RunOnce(start, SweepReads(ids));
      forall k | 0 <= k < |due| ensures Fits(due[k], requests, clock) { assert ids[k] in ids; }
      trace := WorkThrough(w, due, replies);
      AllSwept(start, requests, ids, due, replies);
      Safety.RunAppend(start, [SweepReads(ids)], trace);
      trace := [SweepReads(ids)] + trace;
      RunKeepsInv(start, trace);
    }
  }

  lemma ReadingMeans(s: System, ids: seq<RequestId>)
    requires Lists(s, ids)
    ensures Apply(s, SweepReads(ids))
         == s.(sweeps := s.sweeps[s.nextSweep := Sweep(Snapshots(s.requests, ids), Choosing)],
               nextSweep := s.nextSweep + 1)
  {
  }

  lemma RunNone(s: System)
    ensures Run(s, []) == s
  {
  }

  predicate InList(due: seq<Snapshot>, r: int) {
    exists k :: 0 <= k < |due| && due[k].id == r
  }

  lemma Listed(due: seq<Snapshot>, k: nat)
    requires k < |due|
    ensures InList(due, due[k].id)
  {
  }

  /** A list of the due requests misses none. */
  lemma AllSwept(s: System, after: seq<Request>, ids: seq<RequestId>, due: seq<Snapshot>, replies: RequestId -> Reply)
    requires Lists(s, ids) && due == Snapshots(s.requests, ids) && |after| == |s.requests|
    requires forall k :: 0 <= k < |due| ==> after[due[k].id] == Swept(s.requests[due[k].id], replies(due[k].id), s.now)
    requires forall r :: 0 <= r < |after| && !InList(due, r) ==> after[r] == s.requests[r]
    ensures forall r :: 0 <= r < |after| ==> after[r] == Swept(s.requests[r], replies(r), s.now)
  {
    forall r | 0 <= r < |after| ensures after[r] == Swept(s.requests[r], replies(r), s.now) {
      if r in ids {
        var k :| 0 <= k < |ids| && ids[k] == r;
        assert due[k].id == r;
      } else {
        assert !InList(due, r);
      }
    }
  }

  predicate Fits(x: Snapshot, requests: seq<Request>, now: int) {
    x.id < |requests| && Due(requests[x.id], now) && x.attemptCount == requests[x.id].attemptCount
  }

  lemma FitsSwept(x: Snapshot, requests: seq<Request>, reply: Reply, now: int)
    requires Fits(x, requests, now)
    ensures requests[x.id].status.Pending?
    ensures Swept(requests[x.id], reply, now) == Outcome(requests[x.id], x.attemptCount, reply, now)
  {
  }

  lemma ReportMeans(s: System, w: SweepId)
    requires Busy(s, w, Reporting)
    ensures var t := Apply(s, Reports(w)); var x := s.sweeps[w].due[0];
      && t.requests == s.requests[x.id := Failure(s.requests[x.id], x.attemptCount, s.now)]
      && t.sweeps == s.sweeps[w := Sweep(s.sweeps[w].due[1..], Choosing)]
      && t.now == s.now && t.nextSweep == s.nextSweep
  {
  }

  lemma CommitMeans(s: System, w: SweepId)
    requires Busy(s, w, Finalizing)
    ensures var t := Apply(s, Commits(w)); var id := s.sweeps[w].due[0].id;
      && Busy(t, w, Stage.Committed)
      && t == s.(requests := s.requests[id := s.requests[id].(status := Status.Completed)],
                 finalized := s.finalized + [id], sweeps := s.sweeps[w := s.sweeps[w].(stage := Stage.Committed)])
  {
  }

  /** What a sweep goes on with once it has heard how its transaction ended, or that it did not. */
  lemma HearingMeans(s: System, w: SweepId, undecided: bool)
    requires Busy(s, w, Finalizing) || (Busy(s, w, Stage.Committed) && !undecided)
    ensures Apply(s, Throws(w, undecided))
         == s.(transit := if undecided then s.transit + multiset{s.sweeps[w].due[0].id} else s.transit,
               sweeps := s.sweeps[w := s.sweeps[w].(stage := Reporting)])
    ensures Busy(s, w, Stage.Committed) ==>
      Apply(s, Replies(w)) == s.(sweeps := s.sweeps[w := Sweep(s.sweeps[w].due[1..], Choosing)])
  {
  }

  lemma EndingMeans(s: System, w: SweepId, reply: Reply)
    requires Busy(s, w, Finalizing)
    ensures var sweep := s.sweeps[w]; var id := sweep.due[0].id;
      Run(s, Ending(w, reply)) == s.(
        requests := if TookEffect(reply) then s.requests[id := s.requests[id].(status := Status.Completed)]
                    else s.requests,
        finalized := if TookEffect(reply) then s.finalized + [id] else s.finalized,
        transit := if reply.Undecided? then s.transit + multiset{id} else s.transit,
        sweeps := s.sweeps[w := if reply.Committed? then Sweep(sweep.due[1..], Choosing)
                                else sweep.(stage := Reporting)])
  {
    hide Run, Apply;
    if TookEffect(reply) {
      var t := Apply(s, Commits(w));
      CommitMeans(s, w);
      HearingMeans(t, w, false);
      RunTwo(s, Commits(w), if reply.Committed? then Replies(w) else Throws(w, false));
      var next := if reply.Committed? then Sweep(s.sweeps[w].due[1..], Choosing) else s.sweeps[w].(stage := Reporting);
      assert t.sweeps[w := next] == s.sweeps[w := next];
    } else {
      HearingMeans(s, w, reply.Undecided?);
      Safety.RunOnce(s, Throws(w, reply.Undecided?));
    }
  }
}
