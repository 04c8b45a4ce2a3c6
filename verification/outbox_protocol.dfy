/**
 * The transactional outbox: events, the jobs they fan out to, and the registry of handlers.  An
 * action is one transaction; a sequence of actions is one interleaving of relays, workers with
 * current or superseded leases, recovery sweeps and replays.  Event and job ids are positions in
 * the order of creation; a lease token is a value never issued before.
 */
module OutboxProtocol {
  import opened Wrappers

  type EventId = nat
  type JobId = nat
  type Token = nat

  datatype EventStatus = EventPending | Published | EventDeadLetter

  datatype JobStatus = JobPending | Leased | Completed | JobDeadLetter

  datatype Event = Event(eventType: string, eventVersion: nat, status: EventStatus)

  datatype Handler = Handler(
    name: string, eventType: string, eventVersion: nat,
    maxAttempts: Option<int>, backoffBaseMs: Option<int>, backoffMultiplier: Option<real>)

  /**
   * `failures` counts the failures recorded since the job was created or reset, and `waited` adds
   * up the delays scheduled since then; no step reads either.
   */
  datatype Job = Job(
    eventId: EventId,
    jobType: string,
    status: JobStatus,
    attempt: nat,
    maxAttempts: int,
    backoffBaseMs: int,
    backoffMultiplier: real,
    availableAt: int,
    leaseToken: Option<Token>,
    leasedUntil: Option<int>,
    idempotencyKey: Option<string>,
    failures: nat,
    waited: real)

  datatype Outbox = Outbox(
    events: seq<Event>, jobs: seq<Job>, handlers: seq<Handler>, schemas: set<(string, nat)>, nextToken: Token)

  // ----- the handler registry -----

  datatype RegisterOutcome = Registered | DuplicateHandler | UnknownEventType

  predicate NameTaken(handlers: seq<Handler>, name: string) {
    exists i :: 0 <= i < |handlers| && handlers[i].name == name
  }

  function RegisterResult(s: Outbox, h: Handler): RegisterOutcome {
    if NameTaken(s.handlers, h.name) then DuplicateHandler
    else if (h.eventType, h.eventVersion) !in s.schemas then UnknownEventType
    else Registered
  }

  predicate Targets(h: Handler, eventType: string, eventVersion: nat) {
    h.eventType == eventType && h.eventVersion == eventVersion
  }

  /** The handlers of one event type, in order of registration. */
  function HandlersFor(handlers: seq<Handler>, eventType: string, eventVersion: nat): seq<Handler> {
    if handlers == [] then []
    else
      var rest := HandlersFor(handlers[..|handlers| - 1], eventType, eventVersion);
      var last := handlers[|handlers| - 1];
      if Targets(last, eventType, eventVersion) then rest + [last] else rest
  }

  ghost predicate NamesUnique(handlers: seq<Handler>) {
    forall i, j :: 0 <= i < j < |handlers| ==> handlers[i].name != handlers[j].name
  }

  // ----- materializing -----

  function NewJob(e: EventId, h: Handler, now: int): Job {
    Job(e, h.name, JobPending, 0,
        if h.maxAttempts.Some? then h.maxAttempts.value else 3,
        if h.backoffBaseMs.Some? then h.backoffBaseMs.value else 1000,
        if h.backoffMultiplier.Some? then h.backoffMultiplier.value else 2.0,
        now, None, None, None, 0, 0.0)
  }

  function NewJobs(e: EventId, handlers: seq<Handler>, now: int): (jobs: seq<Job>)
    ensures |jobs| == |handlers|
    ensures forall i :: 0 <= i < |jobs| ==> jobs[i] == NewJob(e, handlers[i], now)
  {
    seq(|handlers|, i requires 0 <= i < |handlers| => NewJob(e, handlers[i], now))
  }

  predicate HasJobs(jobs: seq<Job>, e: EventId) {
    exists j :: 0 <= j < |jobs| && jobs[j].eventId == e
  }

  predicate CanMaterialize(s: Outbox, e: EventId) {
    e < |s.events| && s.events[e].status.EventPending? && !HasJobs(s.jobs, e)
  }

  function SetEvent(s: Outbox, e: EventId, status: EventStatus): Outbox
    requires e < |s.events|
  {
    s.(events := s.events[e := s.events[e].(status := status)])
  }

  function Materialized(s: Outbox, e: EventId, now: int): Outbox
    requires e < |s.events|
  {
    var handlers := HandlersFor(s.handlers, s.events[e].eventType, s.events[e].eventVersion);
    if handlers == [] then SetEvent(s, e, EventDeadLetter)
    else s.(jobs := s.jobs + NewJobs(e, handlers, now))
  }

  // ----- leasing -----

  predicate Ready(j: Job, jobType: string, now: int) {
    j.jobType == jobType && j.status.JobPending? && j.availableAt <= now
  }

  predicate Expired(j: Job, now: int) {
    j.status.Leased? && j.leasedUntil.Some? && j.leasedUntil.value < now
  }

  predicate Abandoned(j: Job, jobType: string, now: int) {
    j.jobType == jobType && Expired(j, now)
  }

  /** The oldest ready job; failing that, the abandoned job whose lease ran out first. */
  ghost predicate IsLeaseChoice(jobs: seq<Job>, j: JobId, jobType: string, now: int) {
    && j < |jobs|
    && if Ready(jobs[j], jobType, now) then forall i :: 0 <= i < j ==> !Ready(jobs[i], jobType, now)
       else
         && Abandoned(jobs[j], jobType, now)
         && (forall i :: 0 <= i < |jobs| ==> !Ready(jobs[i], jobType, now))
         && (forall i :: 0 <= i < |jobs| && Abandoned(jobs[i], jobType, now)
               ==> jobs[j].leasedUntil.value <= jobs[i].leasedUntil.value)
  }

  function SetJob(s: Outbox, j: JobId, job: Job): (t: Outbox)
    requires j < |s.jobs|
    ensures t.events == s.events && t.handlers == s.handlers && |t.jobs| == |s.jobs|
  {
    s.(jobs := s.jobs[j := job])
  }

  function LeasedTo(s: Outbox, j: JobId, now: int, leaseMs: int): Outbox
    requires j < |s.jobs|
  {
    SetJob(s, j, s.jobs[j].(leaseToken := Some(s.nextToken), leasedUntil := Some(now + leaseMs), status := Leased))
      .(nextToken := s.nextToken + 1)
  }

  // ----- outcomes -----

  predicate KeyTaken(jobs: seq<Job>, j: JobId, key: string) {
    exists i :: 0 <= i < |jobs| && i != j && jobs[i].idempotencyKey == Some(key)
  }

  predicate CanComplete(s: Outbox, j: JobId, token: Token, key: string) {
    j < |s.jobs| && s.jobs[j].leaseToken == Some(token) && s.jobs[j].eventId < |s.events| && !KeyTaken(s.jobs, j, key)
  }

  predicate AllCompleted(jobs: seq<Job>, e: EventId) {
    forall j :: 0 <= j < |jobs| && jobs[j].eventId == e ==> jobs[j].status.Completed?
  }

  predicate SomeDeadLetter(jobs: seq<Job>, e: EventId) {
    exists j :: 0 <= j < |jobs| && jobs[j].eventId == e && jobs[j].status.JobDeadLetter?
  }

  function CompletedJob(s: Outbox, j: JobId, key: string): Outbox
    requires j < |s.jobs| && s.jobs[j].eventId < |s.events|
  {
    var t := SetJob(s, j, s.jobs[j].(status := Completed, idempotencyKey := Some(key),
                                     leaseToken := None, leasedUntil := None));
    if AllCompleted(t.jobs, s.jobs[j].eventId) then SetEvent(t, s.jobs[j].eventId, Published) else t
  }

  predicate CanFail(s: Outbox, j: JobId, token: Token) {
    j < |s.jobs| && s.jobs[j].leaseToken == Some(token) && s.jobs[j].eventId < |s.events|
  }

  function Power(x: real, n: nat): real {
    if n == 0 then 1.0 else x * Power(x, n - 1)
  }

  /** The delay before the retry that follows the n-th failure. */
  function DelayMs(j: Job, n: nat): real {
    j.backoffBaseMs as real * Power(j.backoffMultiplier, n)
  }

  predicate IsLastAttempt(j: Job) {
    j.attempt + 1 >= j.maxAttempts
  }

  function Retried(j: Job, now: int): Job {
    var delay := DelayMs(j, j.attempt + 1);
    j.(status := JobPending, attempt := j.attempt + 1, availableAt := now + delay.Floor,
       leaseToken := None, leasedUntil := None, failures := j.failures + 1, waited := j.waited + delay)
  }

  function DeadLettered(j: Job): Job {
    j.(status := JobDeadLetter, leaseToken := None, leasedUntil := None, failures := j.failures + 1)
  }

  function FailedJob(s: Outbox, j: JobId, now: int): Outbox
    requires j < |s.jobs| && s.jobs[j].eventId < |s.events|
  {
    if IsLastAttempt(s.jobs[j]) then
      SetEvent(SetJob(s, j, DeadLettered(s.jobs[j])), s.jobs[j].eventId, EventDeadLetter)
    else SetJob(s, j, Retried(s.jobs[j], now))
  }

  // ----- recovery and replay -----

  function Recovered(j: Job, now: int): Job {
    if Expired(j, now) then j.(status := JobPending, leaseToken := None, leasedUntil := None) else j
  }

  function RecoverAll(jobs: seq<Job>, now: int): (r: seq<Job>)
    ensures |r| == |jobs| && forall i :: 0 <= i < |jobs| ==> r[i] == Recovered(jobs[i], now)
  {
    seq(|jobs|, i requires 0 <= i < |jobs| => Recovered(jobs[i], now))
  }

  function Reset(j: Job, e: EventId, now: int): Job {
    if j.eventId == e && j.status.JobDeadLetter?
    then j.(status := JobPending, attempt := 0, availableAt := now, failures := 0, waited := 0.0) else j
  }

  function ResetAll(jobs: seq<Job>, e: EventId, now: int): (r: seq<Job>)
    ensures |r| == |jobs| && forall i :: 0 <= i < |jobs| ==> r[i] == Reset(jobs[i], e, now)
  {
    seq(|jobs|, i requires 0 <= i < |jobs| => Reset(jobs[i], e, now))
  }

  /** What replaying does to any event, wherever it stands. */
  function Replayed(s: Outbox, e: EventId, now: int): Outbox
    requires e < |s.events|
  {
    SetEvent(s.(jobs := ResetAll(s.jobs, e, now)), e, EventPending)
  }

  // ----- the machine -----

  datatype Action =
    | Emit(eventType: string, eventVersion: nat)
    | Register(handler: Handler)
    | Materialize(e: EventId, now: int)
    | LeaseJob(j: JobId, jobType: string, now: int, leaseMs: int)
    | CompleteJob(j: JobId, token: Token, key: string)
    | FailJob(j: JobId, token: Token, now: int)
    | RecoverAbandonedLeases(now: int)
    | ReplayDeadLetter(e: EventId, now: int)

  ghost predicate Enabled(s: Outbox, a: Action) {
    match a
    case Emit(_, _) => true
    case Register(h) => RegisterResult(s, h).Registered?
    case Materialize(e, _) => CanMaterialize(s, e)
    case LeaseJob(j, jobType, now, _) => IsLeaseChoice(s.jobs, j, jobType, now)
    case CompleteJob(j, token, key) => CanComplete(s, j, token, key)
    case FailJob(j, token, _) => CanFail(s, j, token)
    case RecoverAbandonedLeases(_) => true
    case ReplayDeadLetter(e, _) => e < |s.events| && !s.events[e].status.Published?
  }

  ghost function Apply(s: Outbox, a: Action): Outbox {
    if !Enabled(s, a) then s
    else
      match a
      case Emit(eventType, eventVersion) => s.(events := s.events + [Event(eventType, eventVersion, EventPending)])
      case Register(h) => s.(handlers := s.handlers + [h])
      case Materialize(e, now) => Materialized(s, e, now)
      case LeaseJob(j, _, now, leaseMs) => LeasedTo(s, j, now, leaseMs)
      case CompleteJob(j, _, key) => CompletedJob(s, j, key)
      case FailJob(j, _, now) => FailedJob(s, j, now)
      case RecoverAbandonedLeases(now) => s.(jobs := RecoverAll(s.jobs, now))
      case ReplayDeadLetter(e, now) => Replayed(s, e, now)
  }

  ghost function Run(s: Outbox, actions: seq<Action>): Outbox
    decreases |actions|
  {
    if actions == [] then s else Run(Apply(s, actions[0]), actions[1..])
  }

  function Initial(schemas: set<(string, nat)>): Outbox {
    Outbox([], [], [], schemas, 0)
  }

  // ----- what every step keeps -----

  ghost predicate JobsRooted(events: seq<Event>, jobs: seq<Job>) {
    forall j :: 0 <= j < |jobs| ==> jobs[j].eventId < |events|
  }

  /** A job holds a token, issued before, exactly while it is leased. */
  predicate LeaseValid(j: Job, nextToken: Token) {
    && (j.leaseToken.Some? <==> j.status.Leased?)
    && (j.leasedUntil.Some? <==> j.status.Leased?)
    && (j.leaseToken.Some? ==> j.leaseToken.value < nextToken)
  }

  ghost predicate LeasesValid(jobs: seq<Job>, nextToken: Token) {
    && (forall j :: 0 <= j < |jobs| ==> LeaseValid(jobs[j], nextToken))
    && (forall i, j :: 0 <= i < j < |jobs| && jobs[i].leaseToken.Some? ==> jobs[i].leaseToken != jobs[j].leaseToken)
  }

  function Budget(maxAttempts: int): nat {
    if maxAttempts < 1 then 1 else maxAttempts
  }

  function GeometricSum(x: real, n: nat): real {
    if n == 0 then 0.0 else GeometricSum(x, n - 1) + Power(x, n)
  }

  /** Failures are counted against the budget, and the delays scheduled so far are the first powers. */
  predicate BudgetKept(j: Job) {
    && j.attempt < Budget(j.maxAttempts)
    && j.failures == (if j.status.JobDeadLetter? then Budget(j.maxAttempts) else j.attempt)
    && (j.status.JobDeadLetter? ==> j.attempt == Budget(j.maxAttempts) - 1)
    && j.waited == j.backoffBaseMs as real * GeometricSum(j.backoffMultiplier, j.attempt)
  }

  ghost predicate BudgetsKept(jobs: seq<Job>) {
    forall j :: 0 <= j < |jobs| ==> BudgetKept(jobs[j])
  }

  predicate SameSlot(i: Job, j: Job) {
    i.eventId == j.eventId && i.jobType == j.jobType
  }

  /** One job per event and handler name, and no idempotency key twice. */
  ghost predicate JobsUnique(jobs: seq<Job>) {
    && (forall i, j :: 0 <= i < j < |jobs| ==> !SameSlot(jobs[i], jobs[j]))
    && (forall i, j :: 0 <= i < j < |jobs| && jobs[i].idempotencyKey.Some?
          ==> jobs[i].idempotencyKey != jobs[j].idempotencyKey)
  }

  /**
   * An event with jobs is PUBLISHED exactly when all of them are COMPLETED, DEAD_LETTER exactly
   * when one of them is, and PENDING otherwise; an event without jobs is never PUBLISHED.
   */
  predicate EventAgrees(events: seq<Event>, jobs: seq<Job>, e: EventId)
    requires e < |events|
  {
    if HasJobs(jobs, e) then
      && (events[e].status.Published? <==> AllCompleted(jobs, e))
      && (events[e].status.EventDeadLetter? <==> SomeDeadLetter(jobs, e))
    else !events[e].status.Published?
  }

  ghost predicate EventsAgree(events: seq<Event>, jobs: seq<Job>) {
    forall e :: 0 <= e < |events| ==> EventAgrees(events, jobs, e)
  }

  ghost predicate Inv(s: Outbox) {
    && NamesUnique(s.handlers)
    && JobsRooted(s.events, s.jobs)
    && LeasesValid(s.jobs, s.nextToken)
    && BudgetsKept(s.jobs)
    && JobsUnique(s.jobs)
    && EventsAgree(s.events, s.jobs)
  }

  /** How one job may change in a step: completed jobs never do, and tokens are never issued twice. */
  predicate JobMoved(before: Job, after: Job, nextToken: Token) {
    && SameSlot(before, after)
    && after.maxAttempts == before.maxAttempts
    && (before.status.Completed? ==> after == before)
    && (after.status.Completed? && !before.status.Completed? ==> before.status.Leased?)
    && (after.leaseToken.Some? && after.leaseToken.value < nextToken ==> before.leaseToken == after.leaseToken)
  }

  ghost predicate JobsMoved(s: Outbox, t: Outbox) {
    && |s.jobs| <= |t.jobs| && s.nextToken <= t.nextToken
    && (forall j :: 0 <= j < |s.jobs| ==> JobMoved(s.jobs[j], t.jobs[j], s.nextToken))
    && (forall j :: |s.jobs| <= j < |t.jobs| ==> t.jobs[j].leaseToken.None?)
  }
}
