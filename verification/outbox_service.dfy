/**
 * The job lease service, the handler registry and the relay over one set of tables, updating rows
 * in place.  Each method is proved to take exactly the protocol's steps.
 */
module OutboxService {
  import opened Wrappers
  import opened OutboxProtocol
  import opened OutboxSafety
  import Timing = OutboxTiming

  datatype HandlerOutcome = Succeeds(idempotencyKey: string) | Throws

  datatype DispatchOutcome = Dispatched | DispatchFailed | Idle

  predicate NoLater(i: Job, j: Job) {
    i.leasedUntil.Some? && j.leasedUntil.Some? && i.leasedUntil.value <= j.leasedUntil.value
  }

  predicate Leasable(jobs: seq<Job>, jobType: string, now: int) {
    exists i :: 0 <= i < |jobs| && (Ready(jobs[i], jobType, now) || Abandoned(jobs[i], jobType, now))
  }

  /** A worker that asks now goes away with a job. */
  lemma LeasableExactlyWhenGiven(s: Outbox, jobType: string, now: int)
    ensures Leasable(s.jobs, jobType, now) <==> exists j: JobId :: Timing.Given(s, j, jobType, now)
  {
    Timing.SomeoneIsGivenExactlyWhen(s, jobType, now);
    hide Timing.Given;
    forall i | 0 <= i < |s.jobs|
      ensures Timing.Candidate(s.jobs[i], jobType, now)
        <==> Ready(s.jobs[i], jobType, now) || Abandoned(s.jobs[i], jobType, now)
    {
    }
  }

  function FanOuts(es: seq<EventId>, now: int): seq<Action> {
    seq(|es|, i requires 0 <= i < |es| => Materialize(es[i], now))
  }

  lemma RunNone(s: Outbox, now: int)
    ensures Run(s, FanOuts([], now)) == s
  {
  }

  class OutboxStore {
    var events: seq<Event>
    var jobs: seq<Job>
    var handlers: seq<Handler>
    var schemas: set<(string, nat)>
    var nextToken: Token

    ghost function View(): Outbox
      reads this
    {
      Outbox(events, jobs, handlers, schemas, nextToken)
    }

    constructor (schemas: set<(string, nat)>)
      ensures View() == Initial(schemas)
    {
      events, jobs, handlers, nextToken := [], [], [], 0;
      this.schemas := schemas;
    }

    method RegisterHandler(h: Handler) returns (r: RegisterOutcome)
      modifies this
      ensures r == RegisterResult(old(View()), h)
      ensures View() == Apply(old(View()), Register(h))
    {
      if exists i :: 0 <= i < |handlers| && handlers[i].name == h.name {
        return DuplicateHandler;
      }
      if (h.eventType, h.eventVersion) !in schemas {
        return UnknownEventType;
      }
      handlers := handlers + [h];
      r := Registered;
    }

    method FindReady(jobType: string, now: int) returns (r: Option<JobId>)
      ensures r.None? ==> forall i :: 0 <= i < |jobs| ==> !Ready(jobs[i], jobType, now)
      ensures r.Some? ==> IsLeaseChoice(jobs, r.value, jobType, now) && Ready(jobs[r.value], jobType, now)
    {
      for i := 0 to |jobs|
        invariant forall j :: 0 <= j < i ==> !Ready(jobs[j], jobType, now)
      {
        if Ready(jobs[i], jobType, now) {
          return Some(i);
        }
      }
      r := None;
    }

    method FindAbandoned(jobType: string, now: int) returns (r: Option<JobId>)
      ensures r.None? ==> forall i :: 0 <= i < |jobs| ==> !Abandoned(jobs[i], jobType, now)
      ensures r.Some? ==> r.value < |jobs| && Abandoned(jobs[r.value], jobType, now)
      ensures r.Some? ==>
        forall i :: 0 <= i < |jobs| && Abandoned(jobs[i], jobType, now) ==> NoLater(jobs[r.value], jobs[i])
    {
      r := None;
      for i := 0 to |jobs|
        invariant r.None? ==> forall j :: 0 <= j < i ==> !Abandoned(jobs[j], jobType, now)
        invariant r.Some? ==> r.value < i && Abandoned(jobs[r.value], jobType, now)
        invariant r.Some? ==>
          forall j :: 0 <= j < i && Abandoned(jobs[j], jobType, now) ==> NoLater(jobs[r.value], jobs[j])
      {
        if Abandoned(jobs[i], jobType, now)
           && (r.None? || jobs[i].leasedUntil.value < jobs[r.value].leasedUntil.value) {
          r := Some(i);
        }
      }
    }

    /** The oldest ready job of the type, or else the job abandoned longest; none if there is neither. */
    method LeaseNext(jobType: string, now: int, leaseMs: int) returns (r: Option<(JobId, Token)>)
      modifies this
      ensures r.None? ==> View() == old(View())
      ensures r.None? <==> !Leasable(old(jobs), jobType, now)
      ensures r.Some? ==> IsLeaseChoice(old(jobs), r.value.0, jobType, now)
      ensures r.Some? ==> View() == Apply(old(View()), LeaseJob(r.value.0, jobType, now, leaseMs))
      ensures |jobs| == |old(jobs)|
      ensures r.Some? ==> r.value.1 == old(nextToken) && jobs[r.value.0].leaseToken == Some(r.value.1)
    {
      var choice := FindReady(jobType, now);
      if choice.None? {
        choice := FindAbandoned(jobType, now);
        if choice.None? {
          return None;
        }
      }
      var j := choice.value;
      assert IsLeaseChoice(jobs, j, jobType, now);
      jobs := jobs[j := jobs[j].(leaseToken := Some(nextToken), leasedUntil := Some(now + leaseMs), status := Leased)];
      r := Some((j, nextToken));
      nextToken := nextToken + 1;
    }

    /** Whether any job of the event is not yet completed. */
    method AnyPending(e: EventId) returns (pending: bool)
      ensures pending <==> !AllCompleted(jobs, e)
    {
      for i := 0 to |jobs|
        invariant forall j :: 0 <= j < i && jobs[j].eventId == e ==> jobs[j].status.Completed?
      {
        if jobs[i].eventId == e && !jobs[i].status.Completed? {
          return true;
        }
      }
      pending := false;
    }

    method Complete(j: JobId, token: Token, key: string) returns (ok: bool)
      modifies this
      ensures ok <==> CanComplete(old(View()), j, token, key)
      ensures View() == Apply(old(View()), CompleteJob(j, token, key))
    {
      if j >= |jobs| || jobs[j].leaseToken != Some(token) || jobs[j].eventId >= |events| {
        return false;
      }
      if exists i :: 0 <= i < |jobs| && i != j && jobs[i].idempotencyKey == Some(key) {
        return false;
      }
      jobs := jobs[j := jobs[j].(status := Completed, idempotencyKey := Some(key),
                                 leaseToken := None, leasedUntil := None)];
      var e := jobs[j].eventId;
      var pending := AnyPending(e);
      if !pending {
        events := events[e := events[e].(status := Published)];
      }
      ok := true;
    }

    method Fail(j: JobId, token: Token, now: int) returns (ok: bool)
      modifies this
      ensures ok <==> CanFail(old(View()), j, token)
      ensures View() == Apply(old(View()), FailJob(j, token, now))
    {
      if j >= |jobs| || jobs[j].leaseToken != Some(token) || jobs[j].eventId >= |events| {
        return false;
      }
      var job := jobs[j];
      var nextAttempt := job.attempt + 1;
      if nextAttempt >= job.maxAttempts {
        jobs := jobs[j := job.(status := JobDeadLetter, leaseToken := None, leasedUntil := None,
                               failures := job.failures + 1)];
        events := events[job.eventId := events[job.eventId].(status := EventDeadLetter)];
      } else {
        var delay := DelayMs(job, nextAttempt);
        jobs := jobs[j := job.(status := JobPending, attempt := nextAttempt, availableAt := now + delay.Floor,
                               leaseToken := None, leasedUntil := None,
                               failures := job.failures + 1, waited := job.waited + delay)];
      }
      ok := true;
    }

    method Recover(now: int)
      modifies this
      ensures View() == Apply(old(View()), RecoverAbandonedLeases(now))
    {
      for i := 0 to |jobs|
        invariant |jobs| == |old(jobs)|
        invariant forall j :: 0 <= j < |jobs| ==>
          jobs[j] == if j < i then Recovered(old(jobs)[j], now) else old(jobs)[j]
        invariant View() == old(View()).(jobs := jobs)
      {
        if jobs[i].status.Leased? && jobs[i].leasedUntil.Some? && jobs[i].leasedUntil.value < now {
          jobs := jobs[i := jobs[i].(status := JobPending, leaseToken := None, leasedUntil := None)];
        }
      }
      assert jobs == RecoverAll(old(jobs), now);
    }

    /** Accepts any event that exists; for another the write of its status fails. */
    method Replay(e: EventId, now: int) returns (r: Option<nat>)
      modifies this
      ensures r.None? <==> e >= |old(events)|
      ensures View() == if r.Some? then Replayed(old(View()), e, now) else old(View())
      ensures r.Some? ==> (r.value > 0 <==> SomeDeadLetter(old(jobs), e))
    {
      if e >= |events| {
        return None;
      }
      var count := 0;
      for i := 0 to |jobs|
        invariant |jobs| == |old(jobs)|
        invariant forall j :: 0 <= j < |jobs| ==>
          jobs[j] == if j < i then Reset(old(jobs)[j], e, now) else old(jobs)[j]
        invariant View() == old(View()).(jobs := jobs)
        invariant count > 0
          <==> exists j :: 0 <= j < i && old(jobs)[j].eventId == e && old(jobs)[j].status.JobDeadLetter?
      {
        if jobs[i].eventId == e && jobs[i].status.JobDeadLetter? {
          jobs := jobs[i := jobs[i].(status := JobPending, attempt := 0, availableAt := now,
                                     failures := 0, waited := 0.0)];
          count := count + 1;
        }
      }
      assert jobs == ResetAll(old(jobs), e, now);
      events := events[e := events[e].(status := EventPending)];
      r := Some(count);
    }

    method NeedsJobs(e: EventId) returns (due: bool)
      ensures due <==> CanMaterialize(View(), e)
    {
      due := e < |events| && events[e].status.EventPending? && !exists j :: 0 <= j < |jobs| && jobs[j].eventId == e;
    }

    /** Fans one event out to its handlers, or dead-letters it if it has none. */
    method FanOut(e: EventId, now: int) returns (handled: bool)
      requires CanMaterialize(View(), e)
      modifies this
      ensures View() == Apply(old(View()), Materialize(e, now))
      ensures handled <==> HandlersFor(old(handlers), old(events)[e].eventType, old(events)[e].eventVersion) != []
      ensures |events| == |old(events)| && !CanMaterialize(View(), e)
      ensures forall f :: 0 <= f < |events| && f != e ==>
        (CanMaterialize(old(View()), f) <==> CanMaterialize(View(), f))
    {
      ghost var before := View();
      var targets := HandlersFor(handlers, events[e].eventType, events[e].eventVersion);
      handled := |targets| > 0;
      if handled {
        jobs := jobs + NewJobs(e, targets, now);
        assert jobs[|before.jobs|].eventId == e;
      } else {
        events := events[e := events[e].(status := EventDeadLetter)];
      }
      OnlyThisOne(before, View(), e);
    }

    /**
     * Fans out the pending events that have no jobs yet, oldest first, at most `batchSize` of
     * them.  None is passed over, and unless the batch is full none is left.
     */
    method MaterializePending(batchSize: nat, now: int)
      returns (materialized: nat, unhandled: nat, ghost fanned: seq<EventId>)
      modifies this
      ensures View() == Run(old(View()), FanOuts(fanned, now))
      ensures materialized + unhandled == |fanned| <= batchSize && |events| == |old(events)|
      ensures forall k :: 0 <= k < |fanned| ==> CanMaterialize(old(View()), fanned[k])
      ensures forall k, l :: 0 <= k < l < |fanned| ==> fanned[k] < fanned[l]
      ensures forall e, k :: 0 <= k < |fanned| && 0 <= e <= fanned[k] ==> !CanMaterialize(View(), e)
      ensures |fanned| < batchSize ==> forall e :: 0 <= e < |events| ==> !CanMaterialize(View(), e)
    {
      hide Run, Apply, CanMaterialize;
      ghost var start := View();
      materialized, unhandled, fanned := 0, 0, [];
      RunNone(start, now);
      for e := 0 to |events|
        invariant |events| == |start.events|
        invariant View() == Run(start, FanOuts(fanned, now))
        invariant materialized + unhandled == |fanned| <= batchSize
        invariant forall k :: 0 <= k < |fanned| ==> CanMaterialize(start, fanned[k]) && fanned[k] < e
        invariant forall k, l :: 0 <= k < l < |fanned| ==> fanned[k] < fanned[l]
        invariant forall f :: e <= f < |events| ==> (CanMaterialize(View(), f) <==> CanMaterialize(start, f))
        invariant forall f, k :: 0 <= k < |fanned| && 0 <= f <= fanned[k] ==> !CanMaterialize(View(), f)
        invariant |fanned| < batchSize ==> forall f :: 0 <= f < e ==> !CanMaterialize(View(), f)
      {
        var due := NeedsJobs(e);
        if materialized + unhandled < batchSize && due {
          var handled := FanOut(e, now);
          materialized, unhandled := if handled then materialized + 1 else materialized,
                                     if handled then unhandled else unhandled + 1;
          RunSnoc(start, FanOuts(fanned, now), Materialize(e, now));
          assert FanOuts(fanned + [e], now) == FanOuts(fanned, now) + [Materialize(e, now)];
          fanned := fanned + [e];
        }
      }
    }

    /**
     * Leases one job of the type, runs its handler and records the outcome.  A completion that is
     * refused counts as a failure, as a throwing handler does.
     */
    method DispatchOne(jobType: string, now: int, leaseMs: int, outcome: HandlerOutcome)
      returns (r: DispatchOutcome, ghost schedule: seq<Action>)
      requires Inv(View())
      modifies this
      ensures Inv(View()) && View() == Run(old(View()), schedule)
      ensures r.Idle? ==> View() == old(View())
      ensures r.Idle? <==> !Leasable(old(jobs), jobType, now)
      ensures !r.Idle? ==> Measure(jobs) < Measure(old(jobs))
      ensures r.Dispatched? ==> outcome.Succeeds?
    {
      hide Inv, Apply;
      ghost var start := View();
      schedule := [];
      var lease := LeaseNext(jobType, now, leaseMs);
      if lease.None? {
        return Idle, [];
      }
      var (j, token) := lease.value;
      StepFrom(start, LeaseJob(j, jobType, now, leaseMs));
      RunSnoc(start, [], LeaseJob(j, jobType, now, leaseMs));
      schedule := [LeaseJob(j, jobType, now, leaseMs)];
      ghost var leased := View();
      RootOf(leased, j);
      if outcome.Succeeds? {
        var ok := Complete(j, token, outcome.idempotencyKey);
        if ok {
          StepFrom(leased, CompleteJob(j, token, outcome.idempotencyKey));
          RunSnoc(start, schedule, CompleteJob(j, token, outcome.idempotencyKey));
          schedule := schedule + [CompleteJob(j, token, outcome.idempotencyKey)];
          return Dispatched, schedule;
        }
        Refused(leased, j, token, outcome.idempotencyKey);
      }
      var ok := Fail(j, token, now);
      StepFrom(leased, FailJob(j, token, now));
      RunSnoc(start, schedule, FailJob(j, token, now));
      schedule := schedule + [FailJob(j, token, now)];
      r := DispatchFailed;
    }

    /** Dispatches jobs of one type until `batchSize` of them are done or none is left to lease. */
    method Drain(jobType: string, batchSize: nat, now: int, leaseMs: int, outcomes: nat -> HandlerOutcome)
      returns (dispatched: nat, failed: nat)
      requires Inv(View())
      modifies this
      ensures Inv(View())
      ensures dispatched + failed + Measure(jobs) <= Measure(old(jobs))
      ensures dispatched + failed <= batchSize
      ensures dispatched + failed < batchSize ==>
        !Leasable(jobs, jobType, now)
    {
      hide Inv, Run, Measure, Leasable;
      dispatched, failed := 0, 0;
      var drained := 0;
      while drained < batchSize
        invariant Inv(View())
        invariant drained == dispatched + failed <= batchSize
        invariant drained + Measure(jobs) <= Measure(old(jobs))
      {
        var r, _ := DispatchOne(jobType, now, leaseMs, outcomes(drained));
        if r.Idle? {
          break;
        }
        drained := drained + 1;
        if r.Dispatched? {
          dispatched := dispatched + 1;
        } else {
          failed := failed + 1;
        }
      }
    }

    /** Drains each handler's jobs in turn; every dispatch uses up some of the work there is. */
    method DispatchLeasable(
      names: seq<string>, batchSize: nat, now: int, leaseMs: int, outcomes: (string, nat) -> HandlerOutcome)
      returns (dispatched: nat, failed: nat)
      requires Inv(View())
      modifies this
      ensures Inv(View())
      ensures dispatched + failed + Measure(jobs) <= Measure(old(jobs))
    {
      hide Inv, Run, Measure, Leasable;
      dispatched, failed := 0, 0;
      for k := 0 to |names|
        invariant Inv(View())
        invariant dispatched + failed + Measure(jobs) <= Measure(old(jobs))
      {
        var ok, bad := Drain(names[k], batchSize, now, leaseMs, (n: nat) => outcomes(names[k], n));
        dispatched, failed := dispatched + ok, failed + bad;
      }
    }
  }

  /** Fanning out one event leaves every other as much in need of it as before. */
  lemma OnlyThisOne(s: Outbox, t: Outbox, e: EventId)
    requires e < |s.events| && t == s.(events := t.events, jobs := t.jobs) && |t.events| == |s.events|
    requires s.jobs <= t.jobs && forall j :: |s.jobs| <= j < |t.jobs| ==> t.jobs[j].eventId == e
    requires forall f :: 0 <= f < |s.events| && f != e ==> t.events[f] == s.events[f]
    requires !t.events[e].status.EventPending? || HasJobs(t.jobs, e)
    ensures !CanMaterialize(t, e)
    ensures forall f :: 0 <= f < |s.events| && f != e ==> (CanMaterialize(s, f) <==> CanMaterialize(t, f))
  {
    forall f | 0 <= f < |s.events| && f != e ensures CanMaterialize(s, f) <==> CanMaterialize(t, f) {
      if HasJobs(s.jobs, f) {
        var j :| 0 <= j < |s.jobs| && s.jobs[j].eventId == f;
        assert t.jobs[j].eventId == f;
      }
    }
  }

  lemma StepFrom(s: Outbox, a: Action)
    requires Inv(s)
    ensures Inv(Apply(s, a))
    ensures Enabled(s, a) && (a.CompleteJob? || a.FailJob?) ==> Measure(Apply(s, a).jobs) < Measure(s.jobs)
    ensures a.LeaseJob? ==> Measure(Apply(s, a).jobs) <= Measure(s.jobs)
  {
    hide Inv, Apply, Enabled;
    StepKeepsInv(s, a);
    OutcomesLowerTheMeasure(s, a);
  }

  lemma RootOf(s: Outbox, j: JobId)
    requires Inv(s) && j < |s.jobs|
    ensures s.jobs[j].eventId < |s.events|
  {
  }

  lemma Refused(s: Outbox, j: JobId, token: Token, key: string)
    requires !CanComplete(s, j, token, key)
    ensures Apply(s, CompleteJob(j, token, key)) == s
  {
  }

  lemma {:induction false} RunSnoc(s: Outbox, actions: seq<Action>, a: Action)
    ensures Run(s, actions + [a]) == Apply(Run(s, actions), a)
    decreases |actions|
  {
    hide Apply;
    if actions == [] {
      assert Run(Apply(s, a), []) == Apply(s, a);
    } else {
      assert (actions + [a])[1..] == actions[1..] + [a];
      RunSnoc(Apply(s, actions[0]), actions[1..], a);
    }
  }
}
