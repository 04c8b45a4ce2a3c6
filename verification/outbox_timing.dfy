/** When a job is handed out: how long a retry waits, how long a lease protects, and who comes first. */
module OutboxTiming {
  import opened Wrappers
  import opened OutboxProtocol
  import opened OutboxSafety

  /** A worker that asks for `jobType` at `t` is given job `j`. */
  ghost predicate Given(s: Outbox, j: JobId, jobType: string, t: int) {
    exists leaseMs :: GivenFor(s, j, jobType, t, leaseMs)
  }

  ghost predicate GivenFor(s: Outbox, j: JobId, jobType: string, t: int, leaseMs: int) {
    j < |s.jobs| && Enabled(s, LeaseJob(j, jobType, t, leaseMs))
    && Apply(s, LeaseJob(j, jobType, t, leaseMs)).jobs[j].leaseToken == Some(s.nextToken)
  }

  lemma GivenMeans(s: Outbox, j: JobId, jobType: string, t: int)
    ensures Given(s, j, jobType, t) <==> IsLeaseChoice(s.jobs, j, jobType, t)
  {
    if IsLeaseChoice(s.jobs, j, jobType, t) { assert GivenFor(s, j, jobType, t, 0); }
  }

  /** The job's row has not been written since it was as in `before`. */
  predicate Untouched(before: Outbox, after: Outbox, j: JobId) {
    j < |before.jobs| && j < |after.jobs| && after.jobs[j] == before.jobs[j]
  }

  predicate OnlyOfItsType(s: Outbox, j: JobId) {
    j < |s.jobs| && forall i :: 0 <= i < |s.jobs| && s.jobs[i].jobType == s.jobs[j].jobType ==> i == j
  }

  function Backoff(j: Job): int {
    (j.backoffBaseMs as real * Power(j.backoffMultiplier, j.attempt + 1)).Floor
  }

  /**
   * A failure that is not the last waits for its backoff: before that nobody is given the job, and
   * from then on somebody is if there is no other of its type.
   */
  lemma RetryWaitsForBackoff(
    s: Outbox, j: JobId, token: Token, now: int, later: Outbox, jobType: string, t: int)
    requires CanFail(s, j, token) && s.jobs[j].attempt + 1 < s.jobs[j].maxAttempts
    requires Untouched(Apply(s, FailJob(j, token, now)), later, j)
    ensures Given(later, j, jobType, t) ==> jobType == s.jobs[j].jobType && now + Backoff(s.jobs[j]) <= t
    ensures OnlyOfItsType(later, j) ==>
      (Given(later, j, s.jobs[j].jobType, t) <==> now + Backoff(s.jobs[j]) <= t)
  {
    hide Power;
    GivenMeans(later, j, jobType, t);
    GivenMeans(later, j, s.jobs[j].jobType, t);
  }

  /** The last failure is final: nobody is given the job any more. */
  lemma LastFailureIsFinal(s: Outbox, j: JobId, token: Token, now: int, later: Outbox, jobType: string, t: int)
    requires CanFail(s, j, token) && s.jobs[j].attempt + 1 >= s.jobs[j].maxAttempts
    requires Untouched(Apply(s, FailJob(j, token, now)), later, j)
    ensures !Given(later, j, jobType, t)
  {
    GivenMeans(later, j, jobType, t);
  }

  /** So is a completion. */
  lemma CompletionIsFinal(s: Outbox, j: JobId, token: Token, key: string, later: Outbox, jobType: string, t: int)
    requires CanComplete(s, j, token, key) && Untouched(Apply(s, CompleteJob(j, token, key)), later, j)
    ensures !Given(later, j, jobType, t)
  {
    GivenMeans(later, j, jobType, t);
  }

  /**
   * A lease protects its job until it has run out: before that the job is neither given to another
   * worker nor recovered, and from then on it is both.
   */
  lemma LeaseProtectsUntilRunOut(
    s: Outbox, j: JobId, jobType: string, at: int, leaseMs: int, later: Outbox, otherType: string, t: int)
    requires Given(s, j, jobType, at) && Untouched(Apply(s, LeaseJob(j, jobType, at, leaseMs)), later, j)
    ensures Given(later, j, otherType, t) ==> otherType == jobType && at + leaseMs < t
    ensures OnlyOfItsType(later, j) ==> (Given(later, j, jobType, t) <==> at + leaseMs < t)
    ensures var recovered := Apply(later, RecoverAbandonedLeases(t)).jobs[j];
      if at + leaseMs < t then recovered.status.JobPending? && recovered.leaseToken.None?
      else recovered == later.jobs[j]
  {
    GivenMeans(s, j, jobType, at);
    GivenMeans(later, j, otherType, t);
    GivenMeans(later, j, jobType, t);
  }

  /** A recovered job is given to the next worker at once. */
  lemma RecoveredIsGiven(s: Outbox, j: JobId, jobType: string, at: int, leaseMs: int, recoveredAt: int, t: int)
    requires Given(s, j, jobType, at) && s.jobs[j].availableAt <= t && at + leaseMs < recoveredAt
    requires OnlyOfItsType(s, j)
    ensures Given(Run(s, [LeaseJob(j, jobType, at, leaseMs), RecoverAbandonedLeases(recoveredAt)]), j, jobType, t)
  {
    var actions := [LeaseJob(j, jobType, at, leaseMs), RecoverAbandonedLeases(recoveredAt)];
    var leased := Apply(s, actions[0]);
    var s' := Apply(leased, actions[1]);
    assert actions[1..] == [RecoverAbandonedLeases(recoveredAt)] && actions[1..][1..] == [];
    assert Run(s, actions) == Run(leased, actions[1..]) == Run(s', []) == s';
    GivenMeans(s, j, jobType, at);
    GivenMeans(s', j, jobType, t);
  }

  // ----- who comes first -----

  predicate Waits(j: Job, jobType: string, t: int) {
    j.jobType == jobType && j.status.JobPending? && j.availableAt <= t
  }

  predicate LeftBehind(j: Job, jobType: string, t: int) {
    j.jobType == jobType && j.status.Leased? && j.leasedUntil.Some? && j.leasedUntil.value < t
  }

  /** Waiting jobs come before abandoned ones, the oldest of them first; of the abandoned ones the longest abandoned. */
  lemma OldestComesFirst(s: Outbox, j: JobId, jobType: string, t: int, i: JobId)
    requires Given(s, j, jobType, t) && i < |s.jobs|
    ensures Waits(s.jobs[i], jobType, t) ==> Waits(s.jobs[j], jobType, t) && j <= i
    ensures LeftBehind(s.jobs[i], jobType, t) ==>
      || Waits(s.jobs[j], jobType, t)
      || (LeftBehind(s.jobs[j], jobType, t) && s.jobs[j].leasedUntil.value <= s.jobs[i].leasedUntil.value)
  {
    GivenMeans(s, j, jobType, t);
  }

  predicate Candidate(j: Job, jobType: string, t: int) {
    Waits(j, jobType, t) || LeftBehind(j, jobType, t)
  }

  /** Waiting before abandoned, by age and by the end of the lease. */
  predicate NotAfter(jobs: seq<Job>, i: JobId, k: JobId, jobType: string, t: int)
    requires i < |jobs| && k < |jobs|
  {
    if Waits(jobs[i], jobType, t) then Waits(jobs[k], jobType, t) ==> i <= k
    else
      && LeftBehind(jobs[i], jobType, t) && !Waits(jobs[k], jobType, t)
      && (LeftBehind(jobs[k], jobType, t) ==> jobs[i].leasedUntil.value <= jobs[k].leasedUntil.value)
  }

  lemma {:induction false} FirstCandidate(jobs: seq<Job>, jobType: string, t: int, n: nat, any: JobId)
    returns (j: JobId)
    requires any < n <= |jobs| && Candidate(jobs[any], jobType, t)
    ensures j < n && Candidate(jobs[j], jobType, t)
    ensures forall k :: 0 <= k < n ==> NotAfter(jobs, j, k, jobType, t)
  {
    if other: JobId :| other < n - 1 && Candidate(jobs[other], jobType, t) {
      var first := FirstCandidate(jobs, jobType, t, n - 1, other);
      j := if NotAfter(jobs, first, n - 1, jobType, t) then first else n - 1;
      forall k | 0 <= k < n ensures NotAfter(jobs, j, k, jobType, t) {
        if k < n - 1 { assert NotAfter(jobs, first, k, jobType, t); }
      }
    } else {
      j := n - 1;
    }
  }

  lemma FirstIsChosen(jobs: seq<Job>, j: JobId, jobType: string, t: int)
    requires j < |jobs| && Candidate(jobs[j], jobType, t)
    requires forall k :: 0 <= k < |jobs| ==> NotAfter(jobs, j, k, jobType, t)
    ensures IsLeaseChoice(jobs, j, jobType, t)
  {
    forall k | 0 <= k < |jobs|
      ensures if Waits(jobs[j], jobType, t) then Waits(jobs[k], jobType, t) ==> j <= k
              else !Waits(jobs[k], jobType, t)
                   && (LeftBehind(jobs[k], jobType, t) ==> jobs[j].leasedUntil.value <= jobs[k].leasedUntil.value)
    {
      assert NotAfter(jobs, j, k, jobType, t);
    }
  }

  /** Somebody is given a job exactly when one of the type waits or was left behind. */
  lemma SomeoneIsGivenExactlyWhen(s: Outbox, jobType: string, t: int)
    ensures (exists j: JobId :: Given(s, j, jobType, t))
      <==> exists i :: 0 <= i < |s.jobs| && Candidate(s.jobs[i], jobType, t)
  {
    if i :| 0 <= i < |s.jobs| && Candidate(s.jobs[i], jobType, t) {
      var j := FirstCandidate(s.jobs, jobType, t, |s.jobs|, i);
      FirstIsChosen(s.jobs, j, jobType, t);
      GivenMeans(s, j, jobType, t);
    }
    if j: JobId :| Given(s, j, jobType, t) {
      GivenMeans(s, j, jobType, t);
      assert Candidate(s.jobs[j], jobType, t);
    }
  }

  // ----- what a handler's registration comes to -----

  predicate IsFor(h: Handler, event: Event) {
    h.eventType == event.eventType && h.eventVersion == event.eventVersion
  }

  /** The job that handler `h` gets when event `e` is fanned out. */
  predicate JobFor(s: Outbox, t: Outbox, e: EventId, h: Handler, j: JobId) {
    |s.jobs| <= j < |t.jobs| && t.jobs[j].eventId == e && t.jobs[j].jobType == h.name
  }

  /** Some handler registered for the event gets job `j`. */
  ghost predicate HasOwner(s: Outbox, t: Outbox, e: EventId, event: Event, j: JobId) {
    exists h :: h in s.handlers && IsFor(h, event) && JobFor(s, t, e, h, j)
  }

  ghost predicate HasJob(s: Outbox, t: Outbox, e: EventId, h: Handler) {
    exists j :: JobFor(s, t, e, h, j)
  }

  /** The handlers of an event are those registered for its type and version, each once. */
  lemma TargetsAre(s: Outbox, event: Event) returns (targets: seq<Handler>)
    requires NamesUnique(s.handlers)
    ensures targets == HandlersFor(s.handlers, event.eventType, event.eventVersion)
    ensures NamesUnique(targets) && forall h :: h in targets <==> h in s.handlers && IsFor(h, event)
  {
    targets := HandlersFor(s.handlers, event.eventType, event.eventVersion);
    HandlersForSelects(s.handlers, event.eventType, event.eventVersion);
    HandlersForUnique(s.handlers, event.eventType, event.eventVersion);
    hide HandlersFor;
    forall h ensures h in targets <==> h in s.handlers && IsFor(h, event) {
      assert IsFor(h, event) <==> Targets(h, event.eventType, event.eventVersion);
    }
  }

  /**
   * Fanning an event out gives each handler registered for its type and version exactly one job,
   * and nobody else any; without such a handler the event is dead-lettered.
   */
  lemma EveryHandlerGetsOneJob(s: Outbox, e: EventId, now: int)
    requires CanMaterialize(s, e) && NamesUnique(s.handlers)
    ensures var t := Apply(s, Materialize(e, now)); var event := s.events[e];
      && s.jobs <= t.jobs
      && (forall h :: h in s.handlers && IsFor(h, event) ==> HasJob(s, t, e, h))
      && (forall i, j :: |s.jobs| <= i < j < |t.jobs| ==> t.jobs[i].jobType != t.jobs[j].jobType)
      && (forall j :: |s.jobs| <= j < |t.jobs| ==> HasOwner(s, t, e, event, j))
      && (t.events[e].status.EventDeadLetter? <==> forall h :: h in s.handlers ==> !IsFor(h, event))
  {
    var t, event := Apply(s, Materialize(e, now)), s.events[e];
    var targets := TargetsAre(s, event);
    hide HandlersFor, HasJobs, IsFor;
    forall h | h in s.handlers && IsFor(h, event) ensures HasJob(s, t, e, h) {
      var i :| 0 <= i < |targets| && targets[i] == h;
      assert JobFor(s, t, e, h, |s.jobs| + i);
    }
    forall j | |s.jobs| <= j < |t.jobs| ensures HasOwner(s, t, e, event, j) {
      var h := targets[j - |s.jobs|];
      assert h in targets && JobFor(s, t, e, h, j);
    }
    if targets != [] { assert targets[0] in targets; }
  }

  /** A new job can be had from the moment of the fan-out on. */
  lemma NewJobIsGivenAtOnce(s: Outbox, e: EventId, now: int, h: Handler, j: JobId, later: Outbox, t: int)
    requires CanMaterialize(s, e) && JobFor(s, Apply(s, Materialize(e, now)), e, h, j)
    requires Untouched(Apply(s, Materialize(e, now)), later, j) && OnlyOfItsType(later, j)
    ensures Given(later, j, h.name, t) <==> now <= t
  {
    hide HandlersFor, HasJobs;
    GivenMeans(later, j, h.name, t);
  }

  function AttemptsOf(h: Handler): int {
    match h.maxAttempts case Some(n) => n case None => 3
  }

  function BaseOf(h: Handler): int {
    match h.backoffBaseMs case Some(ms) => ms case None => 1000
  }

  function FactorOf(h: Handler): real {
    match h.backoffMultiplier case Some(x) => x case None => 2.0
  }

  /** The row of a job that handler `h` got and that has failed `n` times. */
  predicate FailedTimes(j: Job, h: Handler, n: nat) {
    j.maxAttempts == AttemptsOf(h) && j.backoffBaseMs == BaseOf(h) && j.backoffMultiplier == FactorOf(h)
    && j.attempt == n
  }

  lemma NewJobHasNotFailed(s: Outbox, e: EventId, now: int, h: Handler, j: JobId)
    requires CanMaterialize(s, e) && NamesUnique(s.handlers) && h in s.handlers && IsFor(h, s.events[e])
    requires JobFor(s, Apply(s, Materialize(e, now)), e, h, j)
    ensures FailedTimes(Apply(s, Materialize(e, now)).jobs[j], h, 0)
  {
    var targets := TargetsAre(s, s.events[e]);
    hide HandlersFor, HasJobs;
    var i :| 0 <= i < |targets| && targets[i] == h;
    assert targets[j - |s.jobs|].name == targets[i].name;
  }

  /** Nothing but its failures and a replay changes how often a job has failed. */
  lemma StepOnFailedTimes(s: Outbox, a: Action, h: Handler, j: JobId, n: nat)
    requires j < |s.jobs| && FailedTimes(s.jobs[j], h, n)
    ensures var t := Apply(s, a);
      && j < |t.jobs|
      && (a.FailJob? && a.j == j && Enabled(s, a) && n + 1 < AttemptsOf(h) ==> FailedTimes(t.jobs[j], h, n + 1))
      && (!(a.FailJob? && a.j == j) && !a.ReplayDeadLetter? ==> FailedTimes(t.jobs[j], h, n))
      && (a.ReplayDeadLetter? ==> FailedTimes(t.jobs[j], h, n) || FailedTimes(t.jobs[j], h, 0))
  {
    hide HandlersFor, IsLeaseChoice, KeyTaken, AllCompleted;
  }

  /**
   * How a job goes on that handler `h` got, when it fails for the n-th time: as long as its
   * attempts last it is given out again exactly after base * factor^n, and then never.
   */
  lemma ConfiguredRetries(
    s: Outbox, h: Handler, j: JobId, n: nat, token: Token, now: int, later: Outbox, t: int)
    requires CanFail(s, j, token) && n > 0 && FailedTimes(s.jobs[j], h, n - 1)
    requires Untouched(Apply(s, FailJob(j, token, now)), later, j) && OnlyOfItsType(later, j)
    ensures Given(later, j, s.jobs[j].jobType, t) <==>
      n < AttemptsOf(h) && now + (BaseOf(h) as real * Power(FactorOf(h), n)).Floor <= t
  {
    hide Power;
    if n < AttemptsOf(h) {
      RetryWaitsForBackoff(s, j, token, now, later, s.jobs[j].jobType, t);
    } else {
      LastFailureIsFinal(s, j, token, now, later, s.jobs[j].jobType, t);
    }
  }

  /** A handler registered with nothing but its name is tried three times, two and then four seconds apart. */
  lemma DefaultRetries(s: Outbox, h: Handler, j: JobId, n: nat, token: Token, now: int, later: Outbox, t: int)
    requires h.maxAttempts.None? && h.backoffBaseMs.None? && h.backoffMultiplier.None?
    requires CanFail(s, j, token) && n > 0 && FailedTimes(s.jobs[j], h, n - 1)
    requires Untouched(Apply(s, FailJob(j, token, now)), later, j) && OnlyOfItsType(later, j)
    ensures Given(later, j, s.jobs[j].jobType, t) <==> (n == 1 && now + 2000 <= t) || (n == 2 && now + 4000 <= t)
  {
    ConfiguredRetries(s, h, j, n, token, now, later, t);
    assert Power(2.0, 1) == 2.0 * Power(2.0, 0) && Power(2.0, 2) == 2.0 * Power(2.0, 1);
  }

  // ----- replay -----

  /** After a replay its dead-lettered jobs are given out from that moment on, with all their attempts. */
  lemma ReplayedIsGivenAtOnce(s: Outbox, e: EventId, now: int, j: JobId, later: Outbox, t: int)
    requires e < |s.events| && !s.events[e].status.Published?
    requires j < |s.jobs| && s.jobs[j].eventId == e && s.jobs[j].status.JobDeadLetter?
    requires Untouched(Apply(s, ReplayDeadLetter(e, now)), later, j) && OnlyOfItsType(later, j)
    ensures Given(later, j, s.jobs[j].jobType, t) <==> now <= t
    ensures later.jobs[j].attempt == 0
  {
    GivenMeans(later, j, s.jobs[j].jobType, t);
  }
}
