/** Every step of the outbox keeps its invariant; the theorems about whole runs follow. */
module OutboxSafety {
  import opened Wrappers
  import opened OutboxProtocol

  // ----- handler names -----

  lemma {:induction false} HandlersForSelects(handlers: seq<Handler>, eventType: string, eventVersion: nat)
    ensures var r := HandlersFor(handlers, eventType, eventVersion);
      && (forall h :: h in r ==> h in handlers && Targets(h, eventType, eventVersion))
      && (forall h :: h in handlers && Targets(h, eventType, eventVersion) ==> h in r)
  {
    if handlers != [] {
      HandlersForSelects(handlers[..|handlers| - 1], eventType, eventVersion);
      assert handlers == handlers[..|handlers| - 1] + [handlers[|handlers| - 1]];
    }
  }

  lemma {:induction false} HandlersForUnique(handlers: seq<Handler>, eventType: string, eventVersion: nat)
    requires NamesUnique(handlers)
    ensures NamesUnique(HandlersFor(handlers, eventType, eventVersion))
  {
    if handlers != [] {
      var front, last := handlers[..|handlers| - 1], handlers[|handlers| - 1];
      HandlersForUnique(front, eventType, eventVersion);
      HandlersForSelects(front, eventType, eventVersion);
      var rest := HandlersFor(front, eventType, eventVersion);
      forall i | 0 <= i < |rest| ensures rest[i].name != last.name {
        assert rest[i] in rest;
      }
    }
  }

  /** A handler is registered exactly if its name is new and its event type is known; the first obstacle is named. */
  lemma RegistrationAnswers(s: Outbox, h: Handler)
    ensures var t := Apply(s, Register(h));
      var taken := exists i :: 0 <= i < |s.handlers| && s.handlers[i].name == h.name;
      && (RegisterResult(s, h).DuplicateHandler? <==> taken)
      && (RegisterResult(s, h).UnknownEventType? <==> !taken && (h.eventType, h.eventVersion) !in s.schemas)
      && t == s.(handlers := if RegisterResult(s, h).Registered? then s.handlers + [h] else s.handlers)
  {
  }

  /** A new event is pending, comes after all others and has no jobs yet. */
  lemma EmittedIsPending(s: Outbox, eventType: string, eventVersion: nat)
    requires Inv(s)
    ensures var t := Apply(s, Emit(eventType, eventVersion));
      && t == s.(events := s.events + [Event(eventType, eventVersion, EventPending)])
      && CanMaterialize(t, |s.events|)
  {
    hide NamesUnique, LeasesValid, BudgetsKept, JobsUnique, EventsAgree;
  }

  // ----- replacing one job -----

  lemma ReplaceLease(jobs: seq<Job>, j: JobId, job: Job, nextToken: Token, nextToken': Token)
    requires LeasesValid(jobs, nextToken) && j < |jobs| && nextToken <= nextToken'
    requires LeaseValid(job, nextToken') && (job.leaseToken.Some? ==> nextToken <= job.leaseToken.value)
    ensures LeasesValid(jobs[j := job], nextToken')
  {
    var jobs' := jobs[j := job];
    forall i | 0 <= i < |jobs'| ensures LeaseValid(jobs'[i], nextToken') {
      assert LeaseValid(jobs[i], nextToken);
    }
    forall h, i | 0 <= h < i < |jobs'| && jobs'[h].leaseToken.Some?
      ensures jobs'[h].leaseToken != jobs'[i].leaseToken
    {
      assert LeaseValid(jobs[h], nextToken) && LeaseValid(jobs[i], nextToken);
    }
  }

  lemma ReplaceUnique(jobs: seq<Job>, j: JobId, job: Job)
    requires JobsUnique(jobs) && j < |jobs| && SameSlot(jobs[j], job)
    requires job.idempotencyKey == jobs[j].idempotencyKey
      || (job.idempotencyKey.Some? && !KeyTaken(jobs, j, job.idempotencyKey.value))
    ensures JobsUnique(jobs[j := job])
  {
    var jobs' := jobs[j := job];
    forall h, i | 0 <= h < i < |jobs'| ensures !SameSlot(jobs'[h], jobs'[i]) {
      assert !SameSlot(jobs[h], jobs[i]);
    }
  }

  predicate SameClass(i: Job, j: Job) {
    && (i.status.Completed? <==> j.status.Completed?)
    && (i.status.JobDeadLetter? <==> j.status.JobDeadLetter?)
  }

  /** Events keep agreeing when every job stays in its class: completed, dead-lettered or neither. */
  lemma AgreeByClass(events: seq<Event>, jobs: seq<Job>, jobs': seq<Job>)
    requires EventsAgree(events, jobs) && |jobs'| == |jobs|
    requires forall j :: 0 <= j < |jobs| ==> jobs'[j].eventId == jobs[j].eventId && SameClass(jobs[j], jobs'[j])
    ensures EventsAgree(events, jobs')
  {
    forall e | 0 <= e < |events| ensures EventAgrees(events, jobs', e) {
      assert EventAgrees(events, jobs, e);
      SameView(jobs, jobs', e);
    }
  }

  lemma SameView(jobs: seq<Job>, jobs': seq<Job>, e: EventId)
    requires |jobs'| == |jobs|
    requires forall j :: 0 <= j < |jobs| ==> jobs'[j].eventId == jobs[j].eventId
    requires forall j :: 0 <= j < |jobs| && jobs[j].eventId == e ==> SameClass(jobs[j], jobs'[j])
    ensures HasJobs(jobs', e) == HasJobs(jobs, e)
    ensures AllCompleted(jobs', e) == AllCompleted(jobs, e)
    ensures SomeDeadLetter(jobs', e) == SomeDeadLetter(jobs, e)
  {
    if HasJobs(jobs, e) {
      var j :| 0 <= j < |jobs| && jobs[j].eventId == e;
      assert jobs'[j].eventId == e;
    }
    if SomeDeadLetter(jobs, e) {
      var j :| 0 <= j < |jobs| && jobs[j].eventId == e && jobs[j].status.JobDeadLetter?;
      assert jobs'[j].eventId == e && jobs'[j].status.JobDeadLetter?;
    }
  }

  // ----- backoff arithmetic -----

  lemma DelaysAddUp(base: real, x: real, n: nat)
    ensures base * GeometricSum(x, n) + base * Power(x, n + 1) == base * GeometricSum(x, n + 1)
  {
  }

  /** (x - 1)(x + ... + x^n) = x^(n+1) - x, for every multiplier. */
  lemma {:induction false} GeometricClosedForm(x: real, n: nat)
    ensures (x - 1.0) * GeometricSum(x, n) == Power(x, n + 1) - x
  {
    if n == 0 {
      assert Power(x, 1) == x * Power(x, 0);
    } else {
      GeometricClosedForm(x, n - 1);
      assert (x - 1.0) * GeometricSum(x, n) == (x - 1.0) * GeometricSum(x, n - 1) + (x - 1.0) * Power(x, n);
      assert Power(x, n + 1) == x * Power(x, n);
    }
  }

  // ----- one lemma per transaction -----

  lemma LeaseKeepsInv(s: Outbox, j: JobId, jobType: string, now: int, leaseMs: int)
    requires Inv(s) && IsLeaseChoice(s.jobs, j, jobType, now)
    ensures Inv(LeasedTo(s, j, now, leaseMs)) && JobsMoved(s, LeasedTo(s, j, now, leaseMs))
  {
    var t := LeasedTo(s, j, now, leaseMs);
    assert BudgetKept(s.jobs[j]);
    assert BudgetsKept(t.jobs) && JobsRooted(t.events, t.jobs);
    hide NamesUnique, JobsRooted, LeasesValid, BudgetsKept, JobsUnique, EventsAgree;
    ReplaceLease(s.jobs, j, t.jobs[j], s.nextToken, t.nextToken);
    ReplaceUnique(s.jobs, j, t.jobs[j]);
    AgreeByClass(s.events, s.jobs, t.jobs);
  }

  lemma CompletedEventAgrees(s: Outbox, j: JobId, token: Token, key: string, e: EventId)
    requires JobsRooted(s.events, s.jobs) && EventsAgree(s.events, s.jobs) && LeasesValid(s.jobs, s.nextToken)
    requires CanComplete(s, j, token, key) && e < |s.events|
    ensures var t := CompletedJob(s, j, key); EventAgrees(t.events, t.jobs, e)
  {
    var t := CompletedJob(s, j, key);
    assert EventAgrees(s.events, s.jobs, e) && LeaseValid(s.jobs[j], s.nextToken);
    if s.jobs[j].eventId != e {
      SameView(s.jobs, t.jobs, e);
    } else {
      assert HasJobs(s.jobs, e) && t.jobs[j].eventId == e && HasJobs(t.jobs, e);
      assert !s.jobs[j].status.Completed? && !AllCompleted(s.jobs, e);
      if SomeDeadLetter(s.jobs, e) {
        var i :| 0 <= i < |s.jobs| && s.jobs[i].eventId == e && s.jobs[i].status.JobDeadLetter?;
        assert t.jobs[i] == s.jobs[i];
      }
    }
  }

  lemma CompleteKeepsInv(s: Outbox, j: JobId, token: Token, key: string)
    requires Inv(s) && CanComplete(s, j, token, key)
    ensures Inv(CompletedJob(s, j, key)) && JobsMoved(s, CompletedJob(s, j, key))
  {
    hide NamesUnique, JobsRooted, LeasesValid, BudgetsKept, JobsUnique, EventAgrees;
    var t := CompletedJob(s, j, key);
    LeasedJobIsSound(s, j, token);
    SetJobKeepsRest(s, j, t.jobs[j]);
    ReplaceLease(s.jobs, j, t.jobs[j], s.nextToken, t.nextToken);
    ReplaceUnique(s.jobs, j, t.jobs[j]);
    forall e | 0 <= e < |t.events| ensures EventAgrees(t.events, t.jobs, e) {
      CompletedEventAgrees(s, j, token, key, e);
    }
    RootsIgnoreStatus(s.events, t.events, t.jobs);
  }

  lemma RootsIgnoreStatus(events: seq<Event>, events': seq<Event>, jobs: seq<Job>)
    requires JobsRooted(events, jobs) && |events| <= |events'|
    ensures JobsRooted(events', jobs)
  {
  }

  lemma LeasedJobIsSound(s: Outbox, j: JobId, token: Token)
    requires LeasesValid(s.jobs, s.nextToken) && BudgetsKept(s.jobs)
    requires j < |s.jobs| && s.jobs[j].leaseToken == Some(token)
    ensures s.jobs[j].status.Leased? && BudgetKept(s.jobs[j])
  {
    assert LeaseValid(s.jobs[j], s.nextToken);
  }

  lemma SetJobKeepsRest(s: Outbox, j: JobId, job: Job)
    requires JobsRooted(s.events, s.jobs) && BudgetsKept(s.jobs)
    requires j < |s.jobs| && job.eventId == s.jobs[j].eventId && BudgetKept(job)
    ensures JobsRooted(s.events, s.jobs[j := job]) && BudgetsKept(s.jobs[j := job])
  {
  }

  lemma RetriedKeepsBudget(j: Job, now: int)
    requires BudgetKept(j) && j.status.Leased? && !IsLastAttempt(j)
    ensures BudgetKept(Retried(j, now))
  {
    DelaysAddUp(j.backoffBaseMs as real, j.backoffMultiplier, j.attempt);
  }

  lemma DeadLetteredKeepsBudget(j: Job)
    requires BudgetKept(j) && j.status.Leased? && IsLastAttempt(j)
    ensures BudgetKept(DeadLettered(j))
  {
  }

  lemma DeadLetterEventAgrees(s: Outbox, j: JobId, e: EventId, now: int)
    requires JobsRooted(s.events, s.jobs) && EventsAgree(s.events, s.jobs)
    requires j < |s.jobs| && s.jobs[j].status.Leased? && IsLastAttempt(s.jobs[j]) && e < |s.events|
    ensures var t := FailedJob(s, j, now); EventAgrees(t.events, t.jobs, e)
  {
    var t := FailedJob(s, j, now);
    assert EventAgrees(s.events, s.jobs, e);
    if s.jobs[j].eventId != e {
      SameView(s.jobs, t.jobs, e);
    } else {
      assert t.jobs[j].eventId == e && t.jobs[j].status.JobDeadLetter?;
    }
  }

  lemma FailKeepsInv(s: Outbox, j: JobId, token: Token, now: int)
    requires Inv(s) && CanFail(s, j, token)
    ensures Inv(FailedJob(s, j, now)) && JobsMoved(s, FailedJob(s, j, now))
  {
    hide NamesUnique, JobsRooted, LeasesValid, BudgetsKept, JobsUnique, EventAgrees, BudgetKept;
    var t := FailedJob(s, j, now);
    LeasedJobIsSound(s, j, token);
    if IsLastAttempt(s.jobs[j]) { DeadLetteredKeepsBudget(s.jobs[j]); } else { RetriedKeepsBudget(s.jobs[j], now); }
    SetJobKeepsRest(s, j, t.jobs[j]);
    ReplaceLease(s.jobs, j, t.jobs[j], s.nextToken, t.nextToken);
    ReplaceUnique(s.jobs, j, t.jobs[j]);
    RootsIgnoreStatus(s.events, t.events, t.jobs);
    if IsLastAttempt(s.jobs[j]) {
      forall e | 0 <= e < |t.events| ensures EventAgrees(t.events, t.jobs, e) {
        DeadLetterEventAgrees(s, j, e, now);
      }
    } else {
      AgreeByClass(s.events, s.jobs, t.jobs);
    }
  }

  lemma RecoverKeepsLeases(jobs: seq<Job>, now: int, nextToken: Token)
    requires LeasesValid(jobs, nextToken)
    ensures LeasesValid(RecoverAll(jobs, now), nextToken)
  {
    var jobs' := RecoverAll(jobs, now);
    forall i | 0 <= i < |jobs'| ensures LeaseValid(jobs'[i], nextToken) {
      assert LeaseValid(jobs[i], nextToken);
    }
  }

  lemma RecoverKeepsInv(s: Outbox, now: int)
    requires Inv(s)
    ensures var t := s.(jobs := RecoverAll(s.jobs, now)); Inv(t) && JobsMoved(s, t)
  {
    var jobs' := RecoverAll(s.jobs, now);
    MapKeepsUnique(s.jobs, jobs');
    RecoverKeepsLeases(s.jobs, now, s.nextToken);
    assert BudgetsKept(jobs') by {
      forall i | 0 <= i < |jobs'| ensures BudgetKept(jobs'[i]) { assert BudgetKept(s.jobs[i]); }
    }
    hide NamesUnique, LeasesValid, BudgetsKept, JobsUnique, EventsAgree, BudgetKept;
    AgreeByClass(s.events, s.jobs, jobs');
  }

  lemma MapKeepsUnique(jobs: seq<Job>, jobs': seq<Job>)
    requires JobsUnique(jobs) && |jobs'| == |jobs|
    requires forall i :: 0 <= i < |jobs| ==>
      SameSlot(jobs[i], jobs'[i]) && jobs'[i].idempotencyKey == jobs[i].idempotencyKey
    ensures JobsUnique(jobs')
  {
    forall h, i | 0 <= h < i < |jobs'| ensures !SameSlot(jobs'[h], jobs'[i]) {
      assert !SameSlot(jobs[h], jobs[i]);
    }
  }

  lemma ReplayEventAgrees(s: Outbox, e: EventId, now: int, f: EventId)
    requires EventsAgree(s.events, s.jobs)
    requires e < |s.events| && !s.events[e].status.Published? && f < |s.events|
    ensures var t := Replayed(s, e, now); EventAgrees(t.events, t.jobs, f)
  {
    var t := Replayed(s, e, now);
    assert EventAgrees(s.events, s.jobs, f);
    if f != e {
      SameView(s.jobs, t.jobs, f);
    } else if HasJobs(s.jobs, e) {
      var i :| 0 <= i < |s.jobs| && s.jobs[i].eventId == e && !s.jobs[i].status.Completed?;
      assert t.jobs[i].eventId == e && !t.jobs[i].status.Completed?;
    }
  }

  lemma ResetKeepsJobs(jobs: seq<Job>, e: EventId, now: int, nextToken: Token)
    requires LeasesValid(jobs, nextToken) && BudgetsKept(jobs)
    ensures LeasesValid(ResetAll(jobs, e, now), nextToken) && BudgetsKept(ResetAll(jobs, e, now))
  {
    var jobs' := ResetAll(jobs, e, now);
    forall i | 0 <= i < |jobs'| ensures LeaseValid(jobs'[i], nextToken) && BudgetKept(jobs'[i]) {
      assert LeaseValid(jobs[i], nextToken) && BudgetKept(jobs[i]);
    }
  }

  lemma ReplayKeepsInv(s: Outbox, e: EventId, now: int)
    requires Inv(s) && e < |s.events| && !s.events[e].status.Published?
    ensures Inv(Replayed(s, e, now)) && JobsMoved(s, Replayed(s, e, now))
  {
    var t := Replayed(s, e, now);
    ResetKeepsJobs(s.jobs, e, now, s.nextToken);
    MapKeepsUnique(s.jobs, t.jobs);
    assert JobsMoved(s, t) by {
      forall j | 0 <= j < |s.jobs| ensures JobMoved(s.jobs[j], t.jobs[j], s.nextToken) {
        assert LeaseValid(s.jobs[j], s.nextToken);
      }
    }
    hide NamesUnique, LeasesValid, BudgetsKept, JobsUnique, EventAgrees, JobsMoved;
    forall f | 0 <= f < |t.events| ensures EventAgrees(t.events, t.jobs, f) {
      ReplayEventAgrees(s, e, now, f);
    }
  }

  /**
   * Replaying accepts any event.  Event and jobs agree afterwards exactly when the event was not
   * PUBLISHED: a published one becomes pending with all its jobs completed.
   */
  lemma ReplayAgreesExactlyWhenUnpublished(s: Outbox, e: EventId, now: int)
    requires Inv(s) && e < |s.events|
    ensures var t := Replayed(s, e, now); EventsAgree(t.events, t.jobs) <==> !s.events[e].status.Published?
  {
    var t := Replayed(s, e, now);
    if s.events[e].status.Published? {
      assert EventAgrees(s.events, s.jobs, e);
      var i :| 0 <= i < |s.jobs| && s.jobs[i].eventId == e;
      assert t.jobs[i].eventId == e;
      forall j | 0 <= j < |t.jobs| && t.jobs[j].eventId == e ensures t.jobs[j].status.Completed? {
        assert s.jobs[j].eventId == e;
      }
      assert !EventAgrees(t.events, t.jobs, e);
    } else {
      forall f | 0 <= f < |t.events| ensures EventAgrees(t.events, t.jobs, f) { ReplayEventAgrees(s, e, now, f); }
    }
  }

  lemma MaterializedUnique(jobs: seq<Job>, e: EventId, handlers: seq<Handler>, now: int)
    requires JobsUnique(jobs) && !HasJobs(jobs, e) && NamesUnique(handlers)
    ensures JobsUnique(jobs + NewJobs(e, handlers, now))
  {
    var added := NewJobs(e, handlers, now);
    var jobs' := jobs + added;
    forall h, i | 0 <= h < i < |jobs'| ensures !SameSlot(jobs'[h], jobs'[i]) {
      if i < |jobs| {
        assert !SameSlot(jobs[h], jobs[i]);
      } else if h >= |jobs| {
        assert handlers[h - |jobs|].name != handlers[i - |jobs|].name;
      }
    }
    forall h, i | 0 <= h < i < |jobs'| && jobs'[h].idempotencyKey.Some?
      ensures jobs'[h].idempotencyKey != jobs'[i].idempotencyKey
    {
      assert h < |jobs|;
    }
  }

  lemma MaterializedJobs(jobs: seq<Job>, e: EventId, handlers: seq<Handler>, now: int, nextToken: Token)
    requires LeasesValid(jobs, nextToken) && BudgetsKept(jobs)
    ensures var jobs' := jobs + NewJobs(e, handlers, now);
      LeasesValid(jobs', nextToken) && BudgetsKept(jobs')
  {
    var jobs' := jobs + NewJobs(e, handlers, now);
    forall i | 0 <= i < |jobs'| ensures LeaseValid(jobs'[i], nextToken) && BudgetKept(jobs'[i]) {
      if i < |jobs| { assert LeaseValid(jobs[i], nextToken) && BudgetKept(jobs[i]); }
    }
  }

  lemma AppendedView(jobs: seq<Job>, added: seq<Job>, f: EventId)
    requires forall i :: 0 <= i < |added| ==> added[i].eventId != f
    ensures HasJobs(jobs + added, f) == HasJobs(jobs, f)
    ensures AllCompleted(jobs + added, f) == AllCompleted(jobs, f)
    ensures SomeDeadLetter(jobs + added, f) == SomeDeadLetter(jobs, f)
  {
    var all := jobs + added;
    assert forall i :: 0 <= i < |jobs| ==> all[i] == jobs[i];
    assert forall i :: |jobs| <= i < |all| ==> all[i] == added[i - |jobs|];
  }

  lemma MaterializedEventAgrees(s: Outbox, e: EventId, now: int, f: EventId)
    requires EventsAgree(s.events, s.jobs) && CanMaterialize(s, e) && f < |s.events|
    ensures var t := Materialized(s, e, now); EventAgrees(t.events, t.jobs, f)
  {
    assert EventAgrees(s.events, s.jobs, f);
    var handlers := HandlersFor(s.handlers, s.events[e].eventType, s.events[e].eventVersion);
    if handlers != [] {
      var added := NewJobs(e, handlers, now);
      var t := Materialized(s, e, now);
      if f != e {
        AppendedView(s.jobs, added, f);
      } else {
        assert t.jobs[|s.jobs|] == added[0];
      }
    }
  }

  lemma MaterializeKeepsInv(s: Outbox, e: EventId, now: int)
    requires Inv(s) && CanMaterialize(s, e)
    ensures Inv(Materialized(s, e, now)) && JobsMoved(s, Materialized(s, e, now))
  {
    hide NamesUnique, LeasesValid, BudgetsKept, JobsUnique, EventAgrees;
    var t := Materialized(s, e, now);
    var handlers := HandlersFor(s.handlers, s.events[e].eventType, s.events[e].eventVersion);
    HandlersForUnique(s.handlers, s.events[e].eventType, s.events[e].eventVersion);
    MaterializedUnique(s.jobs, e, handlers, now);
    MaterializedJobs(s.jobs, e, handlers, now, s.nextToken);
    forall f | 0 <= f < |t.events| ensures EventAgrees(t.events, t.jobs, f) {
      MaterializedEventAgrees(s, e, now, f);
    }
  }

  lemma EmitKeepsInv(s: Outbox, eventType: string, eventVersion: nat)
    requires Inv(s)
    ensures var t := s.(events := s.events + [Event(eventType, eventVersion, EventPending)]);
      Inv(t) && JobsMoved(s, t)
  {
    var t := s.(events := s.events + [Event(eventType, eventVersion, EventPending)]);
    forall f | 0 <= f < |t.events| ensures EventAgrees(t.events, t.jobs, f) {
      if f < |s.events| { assert EventAgrees(s.events, s.jobs, f); }
    }
    hide LeasesValid, BudgetsKept, JobsUnique, EventAgrees;
    assert JobsRooted(t.events, t.jobs);
  }

  lemma RegisterKeepsInv(s: Outbox, h: Handler)
    requires Inv(s) && RegisterResult(s, h).Registered?
    ensures var t := s.(handlers := s.handlers + [h]); Inv(t) && JobsMoved(s, t)
  {
    hide LeasesValid, BudgetsKept, JobsUnique, EventsAgree, JobsRooted;
    var t := s.(handlers := s.handlers + [h]);
    assert NamesUnique(t.handlers);
  }

  lemma StepKeepsInv(s: Outbox, a: Action)
    requires Inv(s)
    ensures Inv(Apply(s, a)) && JobsMoved(s, Apply(s, a))
  {
    hide Inv, JobsMoved, LeasedTo, CompletedJob, FailedJob, Materialized, SetEvent, IsLeaseChoice;
    NothingMoved(s);
    if Enabled(s, a) {
      match a
      case Emit(eventType, eventVersion) => EmitKeepsInv(s, eventType, eventVersion);
      case Register(h) => RegisterKeepsInv(s, h);
      case Materialize(e, now) => MaterializeKeepsInv(s, e, now);
      case LeaseJob(j, jobType, now, leaseMs) => LeaseKeepsInv(s, j, jobType, now, leaseMs);
      case CompleteJob(j, token, key) => CompleteKeepsInv(s, j, token, key);
      case FailJob(j, token, now) => FailKeepsInv(s, j, token, now);
      case RecoverAbandonedLeases(now) => RecoverKeepsInv(s, now);
      case ReplayDeadLetter(e, now) => ReplayKeepsInv(s, e, now);
    }
  }

  lemma NothingMoved(s: Outbox)
    ensures JobsMoved(s, s)
  {
  }

  lemma {:induction false} RunKeepsInv(s: Outbox, actions: seq<Action>)
    requires Inv(s)
    ensures Inv(Run(s, actions))
    decreases |actions|
  {
    if actions != [] {
      StepKeepsInv(s, actions[0]);
      RunKeepsInv(Apply(s, actions[0]), actions[1..]);
    }
  }

  // ----- theorems about whole runs -----

  lemma InitialHoldsInv(schemas: set<(string, nat)>)
    ensures Inv(Initial(schemas))
  {
  }

  /** In every reachable state each event agrees with its jobs, and there is one job per event and handler name. */
  lemma EventsAgreeWithJobs(schemas: set<(string, nat)>, actions: seq<Action>)
    ensures var s := Run(Initial(schemas), actions);
      && (forall e :: 0 <= e < |s.events| ==> EventAgrees(s.events, s.jobs, e))
      && (forall i, j :: 0 <= i < j < |s.jobs| ==> !SameSlot(s.jobs[i], s.jobs[j]))
  {
    InitialHoldsInv(schemas);
    RunKeepsInv(Initial(schemas), actions);
    hide EventAgrees, LeasesValid, BudgetsKept;
  }

  /** A leased job is the only holder of its token. */
  lemma LeasesAreExclusive(schemas: set<(string, nat)>, actions: seq<Action>, i: JobId, j: JobId)
    requires i < |Run(Initial(schemas), actions).jobs| && j < |Run(Initial(schemas), actions).jobs|
    ensures var s := Run(Initial(schemas), actions);
      && (s.jobs[i].leaseToken.Some? <==> s.jobs[i].status.Leased?)
      && (s.jobs[i].leaseToken.Some? && s.jobs[i].leaseToken == s.jobs[j].leaseToken ==> i == j)
  {
    InitialHoldsInv(schemas);
    RunKeepsInv(Initial(schemas), actions);
    var s := Run(Initial(schemas), actions);
    hide Run, EventsAgree, BudgetsKept, JobsUnique;
    assert LeaseValid(s.jobs[i], s.nextToken);
  }

  ghost predicate Held(s: Outbox, token: Token) {
    exists j :: 0 <= j < |s.jobs| && s.jobs[j].leaseToken == Some(token)
  }

  lemma SupersededStays(s: Outbox, t: Outbox, token: Token)
    requires JobsMoved(s, t) && token < s.nextToken && !Held(s, token)
    ensures token < t.nextToken && !Held(t, token)
  {
    forall j | 0 <= j < |t.jobs| ensures t.jobs[j].leaseToken != Some(token) {
      if j < |s.jobs| { assert JobMoved(s.jobs[j], t.jobs[j], s.nextToken); }
    }
  }

  lemma {:induction false} SupersededForever(s: Outbox, actions: seq<Action>, token: Token)
    requires Inv(s) && token < s.nextToken && !Held(s, token)
    ensures !Held(Run(s, actions), token)
    decreases |actions|
  {
    if actions != [] {
      hide Inv, Apply, JobsMoved, Held;
      StepKeepsInv(s, actions[0]);
      SupersededStays(s, Apply(s, actions[0]), token);
      SupersededForever(Apply(s, actions[0]), actions[1..], token);
    }
  }

  /** Tokens never recur: once superseded, a token completes or fails nothing, now or ever after. */
  lemma SupersededTokenChangesNothing(
    s: Outbox, actions: seq<Action>, token: Token, j: JobId, key: string, now: int)
    requires Inv(s) && token < s.nextToken && !Held(s, token)
    ensures var t := Run(s, actions);
      Apply(t, CompleteJob(j, token, key)) == t && Apply(t, FailJob(j, token, now)) == t
  {
    SupersededForever(s, actions, token);
    hide Run, Inv, CompletedJob, FailedJob;
    var t := Run(s, actions);
    assert forall i :: 0 <= i < |t.jobs| ==> t.jobs[i].leaseToken != Some(token);
  }

  /** A completed job stays as it is in every continuation, and no job leaves its event or changes its handler. */
  lemma {:induction false} CompletedIsAbsorbing(s: Outbox, actions: seq<Action>, j: JobId)
    requires Inv(s) && j < |s.jobs|
    ensures var t := Run(s, actions);
      && j < |t.jobs| && SameSlot(s.jobs[j], t.jobs[j])
      && (s.jobs[j].status.Completed? ==> t.jobs[j] == s.jobs[j])
    decreases |actions|
  {
    if actions != [] {
      hide Inv, Apply;
      var t := Apply(s, actions[0]);
      StepKeepsInv(s, actions[0]);
      assert JobMoved(s.jobs[j], t.jobs[j], s.nextToken);
      CompletedIsAbsorbing(t, actions[1..], j);
    }
  }

  /** An idempotency key completes one job, ever. */
  lemma KeyCompletesOneJob(
    s: Outbox, j: JobId, token: Token, key: string, actions: seq<Action>, i: JobId, other: Token)
    requires Inv(s) && CanComplete(s, j, token, key) && i != j
    ensures !CanComplete(Run(Apply(s, CompleteJob(j, token, key)), actions), i, other, key)
  {
    var t := Apply(s, CompleteJob(j, token, key));
    StepKeepsInv(s, CompleteJob(j, token, key));
    assert t.jobs[j].status.Completed? && t.jobs[j].idempotencyKey == Some(key);
    hide Inv, Apply, Run;
    CompletedIsAbsorbing(t, actions, j);
  }

  /** How many steps of a run complete job `j`. */
  ghost function Completions(s: Outbox, actions: seq<Action>, j: JobId): nat
    decreases |actions|
  {
    if actions == [] then 0
    else
      var t := Apply(s, actions[0]);
      (if IsCompleted(t, j) && !IsCompleted(s, j) then 1 else 0) + Completions(t, actions[1..], j)
  }

  predicate IsCompleted(s: Outbox, j: JobId) {
    j < |s.jobs| && s.jobs[j].status.Completed?
  }

  /** COMPLETED is entered at most once in any run, and never again once there. */
  lemma {:induction false} CompletedAtMostOnce(s: Outbox, actions: seq<Action>, j: JobId)
    requires Inv(s)
    ensures Completions(s, actions, j) <= if IsCompleted(s, j) then 0 else 1
    decreases |actions|
  {
    if actions != [] {
      hide Inv, Apply;
      var t := Apply(s, actions[0]);
      StepKeepsInv(s, actions[0]);
      assert j < |s.jobs| ==> JobMoved(s.jobs[j], t.jobs[j], s.nextToken);
      CompletedAtMostOnce(t, actions[1..], j);
    }
  }

  /**
   * In every reachable state a job has failed fewer times than its budget unless it is
   * dead-lettered, and then exactly as often as its budget; the delays it was made to wait are
   * base * (m + ... + m^attempt), so (m - 1) times their sum is base * (m^(attempt + 1) - m).
   */
  lemma RetryBudget(schemas: set<(string, nat)>, actions: seq<Action>, j: JobId)
    requires j < |Run(Initial(schemas), actions).jobs|
    ensures var job := Run(Initial(schemas), actions).jobs[j];
      && job.attempt < Budget(job.maxAttempts)
      && job.failures <= Budget(job.maxAttempts)
      && (job.status.JobDeadLetter? <==> job.failures == Budget(job.maxAttempts))
      && (job.status.JobDeadLetter? ==> job.attempt + 1 == Budget(job.maxAttempts))
      && WaitedGeometrically(job)
  {
    BudgetIsKept(schemas, actions, j);
    hide Run, WaitedGeometrically, BudgetKept, Budget;
    BudgetSums(Run(Initial(schemas), actions).jobs[j]);
  }

  /** (m - 1) times the sum of the delays is base * (m^(attempt + 1) - m). */
  predicate WaitedGeometrically(job: Job) {
    (job.backoffMultiplier - 1.0) * job.waited
    == job.backoffBaseMs as real * (Power(job.backoffMultiplier, job.attempt + 1) - job.backoffMultiplier)
  }

  lemma BudgetIsKept(schemas: set<(string, nat)>, actions: seq<Action>, j: JobId)
    requires j < |Run(Initial(schemas), actions).jobs|
    ensures BudgetKept(Run(Initial(schemas), actions).jobs[j])
  {
    InitialHoldsInv(schemas);
    RunKeepsInv(Initial(schemas), actions);
    hide Run, NamesUnique, LeasesValid, JobsUnique, EventsAgree, BudgetKept;
  }

  lemma BudgetSums(job: Job)
    requires BudgetKept(job)
    ensures job.attempt < Budget(job.maxAttempts) && job.failures <= Budget(job.maxAttempts)
    ensures job.status.JobDeadLetter? <==> job.failures == Budget(job.maxAttempts)
    ensures job.status.JobDeadLetter? ==> job.attempt + 1 == Budget(job.maxAttempts)
    ensures WaitedGeometrically(job)
  {
    GeometricClosedForm(job.backoffMultiplier, job.attempt);
    Regroup(job.backoffMultiplier - 1.0, job.backoffBaseMs as real, GeometricSum(job.backoffMultiplier, job.attempt));
  }

  lemma Regroup(a: real, b: real, c: real)
    ensures a * (b * c) == b * (a * c)
  {
  }

  // ----- the termination measure -----

  /** Failures a job can still take before it is settled. */
  function Remaining(j: Job): nat {
    if j.status.Completed? || j.status.JobDeadLetter? || j.attempt >= Budget(j.maxAttempts) then 0
    else Budget(j.maxAttempts) - j.attempt
  }

  function Measure(jobs: seq<Job>): nat {
    if jobs == [] then 0 else Remaining(jobs[0]) + Measure(jobs[1..])
  }

  lemma {:induction false} MeasureUpdate(jobs: seq<Job>, j: JobId, job: Job)
    requires j < |jobs|
    ensures Measure(jobs[j := job]) == Measure(jobs) - Remaining(jobs[j]) + Remaining(job)
    decreases |jobs|
  {
    var jobs' := jobs[j := job];
    if j == 0 {
      assert jobs'[1..] == jobs[1..];
    } else {
      assert jobs'[1..] == jobs[1..][j - 1 := job];
      MeasureUpdate(jobs[1..], j - 1, job);
    }
  }

  lemma {:induction false} MeasurePointwise(jobs: seq<Job>, jobs': seq<Job>)
    requires |jobs'| == |jobs|
    requires forall i :: 0 <= i < |jobs| ==> Remaining(jobs'[i]) <= Remaining(jobs[i])
    ensures Measure(jobs') <= Measure(jobs)
    decreases |jobs|
  {
    if jobs != [] {
      MeasurePointwise(jobs[1..], jobs'[1..]);
    }
  }

  /** A step that records the outcome of a dispatched job. */
  ghost predicate Records(s: Outbox, a: Action) {
    Enabled(s, a) && (a.CompleteJob? || a.FailJob?)
  }

  /** A step that brings new work: fan-out, and replay of what was dead-lettered. */
  predicate Injects(a: Action) {
    a.Materialize? || a.ReplayDeadLetter?
  }

  lemma OutcomeLowers(s: Outbox, a: Action)
    requires LeasesValid(s.jobs, s.nextToken) && BudgetsKept(s.jobs) && Records(s, a)
    ensures Measure(Apply(s, a).jobs) < Measure(s.jobs)
  {
    hide Measure, IsLeaseChoice, CanMaterialize;
    var t := Apply(s, a);
    assert LeaseValid(s.jobs[a.j], s.nextToken) && BudgetKept(s.jobs[a.j]);
    assert t.jobs == s.jobs[a.j := t.jobs[a.j]];
    MeasureUpdate(s.jobs, a.j, t.jobs[a.j]);
  }

  lemma LeaseKeepsMeasure(s: Outbox, a: Action)
    requires a.LeaseJob? && Enabled(s, a)
    ensures Measure(Apply(s, a).jobs) == Measure(s.jobs)
  {
    hide Measure;
    assert a.j < |s.jobs|;
    MeasureUpdate(s.jobs, a.j, Apply(s, a).jobs[a.j]);
  }

  /** Every recorded outcome strictly lowers the measure; only fan-out and replay can raise it. */
  lemma OutcomesLowerTheMeasure(s: Outbox, a: Action)
    requires Inv(s)
    ensures Records(s, a) ==> Measure(Apply(s, a).jobs) < Measure(s.jobs)
    ensures !Injects(a) ==> Measure(Apply(s, a).jobs) <= Measure(s.jobs)
  {
    hide Measure;
    if Records(s, a) {
      hide Apply;
      OutcomeLowers(s, a);
    } else if a.LeaseJob? && Enabled(s, a) {
      hide Apply;
      LeaseKeepsMeasure(s, a);
    } else if a.RecoverAbandonedLeases? {
      MeasurePointwise(s.jobs, Apply(s, a).jobs);
    }
  }

  ghost function Recorded(s: Outbox, actions: seq<Action>): nat
    decreases |actions|
  {
    if actions == [] then 0
    else (if Records(s, actions[0]) then 1 else 0) + Recorded(Apply(s, actions[0]), actions[1..])
  }

  /** What a run's fan-outs and replays add to the measure. */
  ghost function Injected(s: Outbox, actions: seq<Action>): nat
    decreases |actions|
  {
    if actions == [] then 0
    else
      var t := Apply(s, actions[0]);
      (if Measure(t.jobs) > Measure(s.jobs) then Measure(t.jobs) - Measure(s.jobs) else 0) + Injected(t, actions[1..])
  }

  /** Dispatching comes to an end: a run records at most as many outcomes as the work it was given. */
  lemma {:induction false} OutcomesAreBounded(s: Outbox, actions: seq<Action>)
    requires Inv(s)
    ensures Recorded(s, actions) + Measure(Run(s, actions).jobs) <= Measure(s.jobs) + Injected(s, actions)
    ensures (forall i :: 0 <= i < |actions| ==> !Injects(actions[i])) ==> Injected(s, actions) == 0
    decreases |actions|
  {
    if actions != [] {
      hide Inv, Apply, Records;
      StepKeepsInv(s, actions[0]);
      OutcomesLowerTheMeasure(s, actions[0]);
      OutcomesAreBounded(Apply(s, actions[0]), actions[1..]);
    }
  }
}
