/**
 * The in-process side of a scheduled job runner: timers, ticks in flight, start and stop.  Each
 * queue is meant to be one chain, a timer or a tick but never two of them.
 */
module Scheduler {
  type Id = nat

  /**
   * `armed` are the timers that will fire and `ticks` the ticks under way, as the event loop has
   * them; `timers` and `inFlight` are the runner's own records of them.
   */
  datatype Runner = Runner(
    queues: seq<string>,
    started: bool, stopping: bool,
    timers: map<string, Id>, inFlight: map<string, Id>,
    armed: map<Id, string>, ticks: map<Id, string>,
    next: Id)

  datatype Action =
    | Start
    | Fire(timer: Id)
    | Finish(tick: Id)
    | StopBegins
    | StopEnds

  function Initial(queues: seq<string>): Runner {
    Runner(queues, false, false, map[], map[], map[], map[], 0)
  }

  function Schedule(s: Runner, queue: string): Runner {
    s.(armed := s.armed[s.next := queue], timers := s.timers[queue := s.next], next := s.next + 1)
  }

  function ScheduleAll(s: Runner, queues: seq<string>): Runner
    decreases |queues|
  {
    if queues == [] then s else ScheduleAll(Schedule(s, queues[0]), queues[1..])
  }

  function Fired(s: Runner, timer: Id): Runner
    requires timer in s.armed
  {
    var queue := s.armed[timer];
    var t := s.(armed := s.armed - {timer}, timers := s.timers - {queue});
    if s.stopping then t
    else t.(ticks := t.ticks[t.next := queue], inFlight := t.inFlight[queue := t.next], next := t.next + 1)
  }

  function Finished(s: Runner, tick: Id): Runner
    requires tick in s.ticks
  {
    var queue := s.ticks[tick];
    var t := s.(ticks := s.ticks - {tick}, inFlight := s.inFlight - {queue});
    if s.stopping then t else Schedule(t, queue)
  }

  predicate Enabled(s: Runner, a: Action) {
    match a
    case Start => !s.started
    case Fire(timer) => timer in s.armed
    case Finish(tick) => tick in s.ticks
    case StopBegins => s.started && !s.stopping
    case StopEnds => s.started && s.stopping
  }

  /** Stopping ends when the ticks in flight are done or when the shutdown deadline passes, so at any time. */
  function Apply(s: Runner, a: Action): Runner {
    if !Enabled(s, a) then s
    else
      match a
      case Start => ScheduleAll(s.(started := true, stopping := false), s.queues)
      case Fire(timer) => Fired(s, timer)
      case Finish(tick) => Finished(s, tick)
      case StopBegins =>
        s.(stopping := true, armed := s.armed - s.timers.Values, timers := map[])
      case StopEnds => s.(started := false)
  }

  function Run(s: Runner, actions: seq<Action>): Runner
    decreases |actions|
  {
    if actions == [] then s else Run(Apply(s, actions[0]), actions[1..])
  }

  // ----- one chain per queue -----

  datatype Link = TimerLink(id: Id) | TickLink(id: Id)

  predicate Drives(s: Runner, x: Link, queue: string) {
    match x
    case TimerLink(id) => id in s.armed && s.armed[id] == queue
    case TickLink(id) => id in s.ticks && s.ticks[id] == queue
  }

  ghost predicate OneChain(s: Runner) {
    forall x, y, queue :: Drives(s, x, queue) && Drives(s, y, queue) ==> x == y
  }

  ghost predicate Distinct(queues: seq<string>) {
    forall i, j :: 0 <= i < j < |queues| ==> queues[i] != queues[j]
  }

  /** The runner's records are exactly what the event loop has, and a stopped runner has nothing armed. */
  ghost predicate Inv(s: Runner) {
    && OneChain(s)
    && Distinct(s.queues)
    && (forall id :: id in s.armed ==> id < s.next && s.armed[id] in s.timers && s.timers[s.armed[id]] == id)
    && (forall queue :: queue in s.timers ==> s.timers[queue] in s.armed && s.armed[s.timers[queue]] == queue)
    && (forall id :: id in s.ticks ==> id < s.next && s.ticks[id] in s.inFlight && s.inFlight[s.ticks[id]] == id)
    && (forall queue :: queue in s.inFlight ==> s.inFlight[queue] in s.ticks && s.ticks[s.inFlight[queue]] == queue)
    && (!s.started || s.stopping ==> s.armed == map[])
    && (!s.started && !s.stopping ==> s.ticks == map[])
  }

  /** A restart waits until the ticks of the life before have finished. */
  predicate Orderly(s: Runner, a: Action) {
    a.Start? && !s.started ==> s.ticks == map[]
  }

  predicate AllOrderly(s: Runner, actions: seq<Action>)
    decreases |actions|
  {
    actions == [] || (Orderly(s, actions[0]) && AllOrderly(Apply(s, actions[0]), actions[1..]))
  }

  predicate Idle(s: Runner, queue: string) {
    queue !in s.timers && queue !in s.inFlight
  }

  lemma ScheduleKeepsInv(s: Runner, queue: string)
    requires Inv(s) && Idle(s, queue) && s.started && !s.stopping
    ensures Inv(Schedule(s, queue))
  {
    var t := Schedule(s, queue);
    forall x, q | Drives(t, x, q) ensures if q == queue then x == TimerLink(s.next) else Drives(s, x, q) {
    }
  }

  lemma {:induction false} ScheduleAllKeepsInv(s: Runner, queues: seq<string>)
    requires Inv(s) && Distinct(queues) && s.started && !s.stopping
    requires forall i :: 0 <= i < |queues| ==> Idle(s, queues[i])
    ensures Inv(ScheduleAll(s, queues))
    decreases |queues|
  {
    if queues != [] {
      ScheduleKeepsInv(s, queues[0]);
      hide Inv;
      ScheduleAllKeepsInv(Schedule(s, queues[0]), queues[1..]);
    }
  }

  lemma FireKeepsInv(s: Runner, timer: Id)
    requires Inv(s) && timer in s.armed
    ensures Inv(Fired(s, timer))
  {
    var t := Fired(s, timer);
    var queue := s.armed[timer];
    assert Drives(s, TimerLink(timer), queue);
    forall id | id in s.ticks ensures s.ticks[id] != queue {
      assert !Drives(s, TickLink(id), queue);
    }
    forall x, q | Drives(t, x, q) ensures if q == queue then x == TickLink(s.next) else Drives(s, x, q) {
      assert Drives(s, x, queue) ==> x == TimerLink(timer);
    }
  }

  lemma FinishKeepsInv(s: Runner, tick: Id)
    requires Inv(s) && tick in s.ticks
    ensures Inv(Finished(s, tick))
  {
    var queue := s.ticks[tick];
    var t := s.(ticks := s.ticks - {tick}, inFlight := s.inFlight - {queue});
    assert Drives(s, TickLink(tick), queue);
    assert forall x, q :: Drives(t, x, q) ==> Drives(s, x, q);
    assert Inv(t);
    if queue in s.timers { assert Drives(s, TimerLink(s.timers[queue]), queue); }
    if !s.stopping { ScheduleKeepsInv(t, queue); }
  }

  lemma StopKeepsInv(s: Runner)
    requires Inv(s)
    ensures Inv(s.(stopping := true, armed := s.armed - s.timers.Values, timers := map[]))
  {
    var t := s.(stopping := true, armed := s.armed - s.timers.Values, timers := map[]);
    forall id | id in s.armed ensures id in s.timers.Values {
      assert s.armed[id] in s.timers && s.timers[s.armed[id]] == id;
    }
    assert t.armed == map[];
    assert forall x, q :: Drives(t, x, q) ==> Drives(s, x, q);
  }

  lemma StartKeepsInv(s: Runner)
    requires Inv(s) && !s.started && s.ticks == map[]
    ensures Inv(Apply(s, Start))
  {
    var t := s.(started := true, stopping := false);
    assert Inv(t);
    forall i | 0 <= i < |s.queues| ensures Idle(t, s.queues[i]) {}
    ScheduleAllKeepsInv(t, s.queues);
  }

  lemma StepKeepsInv(s: Runner, a: Action)
    requires Inv(s) && Orderly(s, a)
    ensures Inv(Apply(s, a))
  {
    if Enabled(s, a) {
      match a
      case Start => StartKeepsInv(s);
      case Fire(timer) => FireKeepsInv(s, timer);
      case Finish(tick) => FinishKeepsInv(s, tick);
      case StopBegins => StopKeepsInv(s);
      case StopEnds => assert forall x, q :: Drives(Apply(s, a), x, q) ==> Drives(s, x, q);
    }
  }

  lemma {:induction false} RunKeepsInv(s: Runner, actions: seq<Action>)
    requires Inv(s) && AllOrderly(s, actions)
    ensures Inv(Run(s, actions))
    decreases |actions|
  {
    if actions != [] {
      StepKeepsInv(s, actions[0]);
      hide Inv;
      RunKeepsInv(Apply(s, actions[0]), actions[1..]);
    }
  }

  // ----- no queue is forgotten -----

  predicate IsDriven(s: Runner, queue: string) {
    queue in s.timers || queue in s.inFlight
  }

  /** A runner at work has every one of its queues on a timer or in a tick. */
  ghost predicate AllDriven(s: Runner) {
    s.started && !s.stopping ==> forall queue :: queue in s.queues ==> IsDriven(s, queue)
  }

  lemma {:induction false} ScheduleAllDrives(s: Runner, queues: seq<string>, queue: string)
    requires queue in queues || IsDriven(s, queue)
    ensures IsDriven(ScheduleAll(s, queues), queue) && ScheduleAll(s, queues).queues == s.queues
    decreases |queues|
  {
    if queues != [] {
      ScheduleAllDrives(Schedule(s, queues[0]), queues[1..], queue);
    }
  }

  lemma {:induction false} ScheduleAllKeepsFlags(s: Runner, queues: seq<string>)
    ensures var t := ScheduleAll(s, queues); t.queues == s.queues && t.started == s.started && t.stopping == s.stopping
    decreases |queues|
  {
    if queues != [] {
      ScheduleAllKeepsFlags(Schedule(s, queues[0]), queues[1..]);
    }
  }

  lemma StepKeepsDriven(s: Runner, a: Action)
    requires AllDriven(s)
    ensures AllDriven(Apply(s, a)) && Apply(s, a).queues == s.queues
  {
    if a.Start? && Enabled(s, a) {
      var t := s.(started := true, stopping := false);
      ScheduleAllKeepsFlags(t, s.queues);
      forall queue | queue in s.queues ensures IsDriven(Apply(s, a), queue) { ScheduleAllDrives(t, s.queues, queue); }
    }
  }

  lemma {:induction false} RunKeepsDriven(s: Runner, actions: seq<Action>)
    requires AllDriven(s)
    ensures AllDriven(Run(s, actions)) && Run(s, actions).queues == s.queues
    decreases |actions|
  {
    if actions != [] {
      StepKeepsDriven(s, actions[0]);
      hide AllDriven, Apply;
      RunKeepsDriven(Apply(s, actions[0]), actions[1..]);
    }
  }

  ghost predicate OneLink(s: Runner, queue: string) {
    exists x :: Drives(s, x, queue) && forall y :: Drives(s, y, queue) ==> y == x
  }

  lemma DrivenHasLink(s: Runner, queue: string)
    requires Inv(s) && IsDriven(s, queue)
    ensures OneLink(s, queue)
  {
    if queue in s.timers {
      assert Drives(s, TimerLink(s.timers[queue]), queue);
    } else {
      assert Drives(s, TickLink(s.inFlight[queue]), queue);
    }
  }

  /**
   * As long as no restart overtakes ticks of the life before, in every reachable state no queue has
   * two links, a runner at work has exactly one timer or tick for each of its queues, and a runner
   * that is stopping has no timer left.
   */
  lemma QueuesAreSingleChains(queues: seq<string>, actions: seq<Action>)
    requires Distinct(queues) && AllOrderly(Initial(queues), actions)
    ensures var s := Run(Initial(queues), actions);
      && OneChain(s)
      && (s.started && !s.stopping ==> forall queue :: queue in queues ==> OneLink(s, queue))
      && (!s.started || s.stopping ==> s.armed == map[])
  {
    RunKeepsInv(Initial(queues), actions);
    RunKeepsDriven(Initial(queues), actions);
    var s := Run(Initial(queues), actions);
    hide Run;
    if s.started && !s.stopping {
      forall queue | queue in queues ensures OneLink(s, queue) {
        assert IsDriven(s, queue);
        DrivenHasLink(s, queue);
      }
    }
  }

  predicate HasTimer(s: Runner, queue: string) {
    exists id :: id in s.armed && s.armed[id] == queue
  }

  lemma {:induction false} ScheduleAllArms(s: Runner, queues: seq<string>, queue: string)
    requires queue in queues && forall id :: id in s.armed ==> id < s.next
    ensures var t := ScheduleAll(s, queues);
      && HasTimer(t, queue)
      && t.ticks == s.ticks && t.stopping == s.stopping && (forall id :: id in t.armed ==> id < t.next)
    decreases |queues|
  {
    var u := Schedule(s, queues[0]);
    var t := ScheduleAll(s, queues);
    assert t == ScheduleAll(u, queues[1..]);
    if queue in queues[1..] {
      ScheduleAllArms(u, queues[1..], queue);
    } else {
      ScheduleAllFrames(u, queues[1..], s.next);
      assert s.next in t.armed && t.armed[s.next] == queue;
    }
  }

  lemma {:induction false} ScheduleAllFrames(s: Runner, queues: seq<string>, id: Id)
    requires id in s.armed && forall i :: i in s.armed ==> i < s.next
    ensures var t := ScheduleAll(s, queues);
      && id in t.armed && t.armed[id] == s.armed[id]
      && t.ticks == s.ticks && t.stopping == s.stopping && (forall i :: i in t.armed ==> i < t.next)
    decreases |queues|
  {
    if queues != [] {
      ScheduleAllFrames(Schedule(s, queues[0]), queues[1..], id);
    }
  }

  /**
   * Restarting a stopped runner is safe exactly when no tick of one of its queues is still under
   * way: otherwise that queue is driven twice from then on, by the old tick and the new timer.
   */
  lemma RestartIsSafeExactlyWhenDrained(s: Runner)
    requires Inv(s) && !s.started && forall id :: id in s.ticks ==> s.ticks[id] in s.queues
    ensures OneChain(Apply(s, Start)) <==> s.ticks == map[]
  {
    if s.ticks == map[] {
      StartKeepsInv(s);
    } else {
      var tick :| tick in s.ticks;
      var queue := s.ticks[tick];
      var t := Apply(s, Start);
      ScheduleAllArms(s.(started := true, stopping := false), s.queues, queue);
      var id :| id in t.armed && t.armed[id] == queue;
      assert Drives(t, TimerLink(id), queue) && Drives(t, TickLink(tick), queue);
    }
  }

  lemma FirstTick(s: Runner, queue: string)
    requires s == Initial([queue])
    ensures var t := Apply(Apply(s, Start), Fire(0));
      t.started && !t.stopping && t.ticks == map[1 := queue] && t.armed == map[] && t.timers == map[]
  {
    var started := s.(started := true, stopping := false);
    assert ScheduleAll(started, [queue]) == ScheduleAll(Schedule(started, queue), []);
  }

  /** The shutdown deadline passes during the very first tick: the runner has stopped, and is not drained. */
  lemma StopsWithTickUnderWay(queue: string)
    ensures var s := Run(Initial([queue]), [Start, Fire(0), StopBegins, StopEnds]);
      && !s.started && s.ticks != map[]
      && !OneChain(Apply(s, Start))
  {
    var all := [Start, Fire(0), StopBegins, StopEnds];
    FirstTick(Initial([queue]), queue);
    var a := Apply(Apply(Initial([queue]), Start), Fire(0));
    var rest := [StopBegins, StopEnds];
    assert all[1..][1..] == rest && rest[1..] == [StopEnds] && [StopEnds][1..] == [];
    assert Run(Initial([queue]), all) == Run(Apply(Initial([queue]), Start), all[1..]) == Run(a, rest);
    var s := Apply(Apply(a, StopBegins), StopEnds);
    assert Run(a, rest) == Run(Apply(a, StopBegins), [StopEnds]) == s;
    RunKeepsInv(Initial([queue]), all);
    RunKeepsDriven(Initial([queue]), all);
    assert s.ticks[1] == queue;
    RestartIsSafeExactlyWhenDrained(s);
  }

  /** While stopping no timer starts a tick and no tick arms a timer. */
  lemma StoppingStartsNothing(s: Runner, id: Id)
    requires s.stopping
    ensures Apply(s, Fire(id)).ticks == s.ticks
    ensures Apply(s, Finish(id)).armed == s.armed
  {
  }

  /** Stopping is for a runner at work, and ends once; at any other time it changes nothing. */
  lemma StopIsIdempotent(s: Runner)
    ensures !s.started || s.stopping ==> Apply(s, StopBegins) == s
    ensures !s.started || !s.stopping ==> Apply(s, StopEnds) == s
    ensures s.started ==> Apply(s, Start) == s
  {
  }

  class ScheduledJobRunner {
    const queues: seq<string>
    var started: bool
    var stopping: bool
    var timers: map<string, Id>
    var inFlight: map<string, Id>
    var armed: map<Id, string>
    var ticks: map<Id, string>
    var next: Id

    ghost function View(): Runner
      reads this
    {
      Runner(queues, started, stopping, timers, inFlight, armed, ticks, next)
    }

    constructor (queues: seq<string>)
      ensures View() == Initial(queues)
    {
      this.queues := queues;
      started, stopping := false, false;
      timers, inFlight, armed, ticks, next := map[], map[], map[], map[], 0;
    }

    method SetTimeout(queue: string)
      modifies this
      ensures View() == Schedule(old(View()), queue)
    {
      armed := armed[next := queue];
      timers := timers[queue := next];
      next := next + 1;
    }

    method StartRunner()
      modifies this
      ensures View() == Apply(old(View()), Start)
    {
      if started {
        return;
      }
      started, stopping := true, false;
      ghost var s := View();
      for i := 0 to |queues|
        invariant ScheduleAll(View(), queues[i..]) == ScheduleAll(s, queues)
        invariant View().queues == queues
      {
        SetTimeout(queues[i]);
      }
    }

    /** The timer's callback up to the point where the tick is under way. */
    method TimerFires(timer: Id)
      requires timer in armed
      modifies this
      ensures View() == Apply(old(View()), Fire(timer))
    {
      var queue := armed[timer];
      armed := armed - {timer};
      timers := timers - {queue};
      if stopping {
        return;
      }
      ticks := ticks[next := queue];
      inFlight := inFlight[queue := next];
      next := next + 1;
    }

    /** The rest of the callback: forget the tick and, unless stopping, arm the next timer. */
    method TickFinishes(tick: Id)
      requires tick in ticks
      modifies this
      ensures View() == Apply(old(View()), Finish(tick))
    {
      var queue := ticks[tick];
      ticks := ticks - {tick};
      inFlight := inFlight - {queue};
      if !stopping {
        SetTimeout(queue);
      }
    }

    method BeginStop()
      modifies this
      ensures View() == Apply(old(View()), StopBegins)
    {
      if !started || stopping {
        return;
      }
      stopping := true;
      armed := armed - timers.Values;
      timers := map[];
    }

    /** Called once the ticks in flight have settled or the shutdown deadline has passed. */
    method EndStop()
      requires started && stopping
      modifies this
      ensures View() == Apply(old(View()), StopEnds)
    {
      started := false;
    }
  }
}
