/**
 * The handler of UserCreated events.  A delivery reserves the user's wallet, looks whether this
 * event has already asked for provisioning, and asks if not: three steps, with crashes and
 * redeliveries in between.  The outbox delivers an event at least once.
 */
module UserCreated {
  type EventId = nat
  type UserId = nat
  type WalletId = nat
  type DeliveryId = nat

  datatype Request = Request(walletId: WalletId, causedBy: EventId)

  /** `NotAsked` is a delivery whose look-up found no request. */
  datatype Stage = WalletReserved | NotAsked

  datatype Delivery = Delivery(event: EventId, walletId: WalletId, stage: Stage)

  datatype Result = Result(event: EventId, walletId: WalletId, requested: bool)

  /** `wallets` is what the repository answers, one wallet per user. */
  datatype System = System(
    payloads: map<EventId, UserId>,
    wallets: map<UserId, WalletId>,
    requests: seq<Request>,
    deliveries: map<DeliveryId, Delivery>,
    results: seq<Result>,
    nextWallet: WalletId,
    nextDelivery: DeliveryId)

  datatype Action =
    | Emit(e: EventId, u: UserId)
    | Deliver(e: EventId)
    | LookUp(d: DeliveryId)
    | Ask(d: DeliveryId)
    | Crash(d: DeliveryId)

  function Initial(): System {
    System(map[], map[], [], map[], [], 0, 0)
  }

  predicate At(s: System, d: DeliveryId, stage: Stage) {
    d in s.deliveries && s.deliveries[d].stage == stage
  }

  predicate Asked(requests: seq<Request>, w: WalletId, e: EventId) {
    exists i :: 0 <= i < |requests| && requests[i] == Request(w, e)
  }

  predicate Enabled(s: System, a: Action) {
    match a
    case Emit(e, _) => e !in s.payloads
    case Deliver(e) => e in s.payloads
    case LookUp(d) => At(s, d, WalletReserved)
    case Ask(d) => At(s, d, NotAsked)
    case Crash(d) => d in s.deliveries
  }

  function WalletOf(s: System, e: EventId): WalletId
    requires e in s.payloads
  {
    if s.payloads[e] in s.wallets then s.wallets[s.payloads[e]] else s.nextWallet
  }

  function Apply(s: System, a: Action): System {
    if !Enabled(s, a) then s
    else
      match a
      case Emit(e, u) => s.(payloads := s.payloads[e := u])
      case Deliver(e) =>
        s.(wallets := s.wallets[s.payloads[e] := WalletOf(s, e)],
           nextWallet := if s.payloads[e] in s.wallets then s.nextWallet else s.nextWallet + 1,
           deliveries := s.deliveries[s.nextDelivery := Delivery(e, WalletOf(s, e), WalletReserved)],
           nextDelivery := s.nextDelivery + 1)
      case LookUp(d) =>
        var delivery := s.deliveries[d];
        if Asked(s.requests, delivery.walletId, delivery.event) then
          s.(deliveries := s.deliveries - {d},
             results := s.results + [Result(delivery.event, delivery.walletId, false)])
        else s.(deliveries := s.deliveries[d := delivery.(stage := NotAsked)])
      case Ask(d) =>
        var delivery := s.deliveries[d];
        s.(requests := s.requests + [Request(delivery.walletId, delivery.event)],
           deliveries := s.deliveries - {d},
           results := s.results + [Result(delivery.event, delivery.walletId, true)])
      case Crash(d) => s.(deliveries := s.deliveries - {d})
  }

  function Run(s: System, actions: seq<Action>): System
    decreases |actions|
  {
    if actions == [] then s else Run(Apply(s, actions[0]), actions[1..])
  }

  // ----- every delivery of an event works on the same wallet -----

  predicate OfWallet(s: System, e: EventId, w: WalletId) {
    e in s.payloads && s.payloads[e] in s.wallets && s.wallets[s.payloads[e]] == w
  }

  predicate DeliveryValid(s: System, d: DeliveryId) {
    d in s.deliveries ==> d < s.nextDelivery && OfWallet(s, s.deliveries[d].event, s.deliveries[d].walletId)
  }

  predicate RequestValid(s: System, r: Request) {
    OfWallet(s, r.causedBy, r.walletId)
  }

  predicate ResultValid(s: System, r: Result) {
    OfWallet(s, r.event, r.walletId) && Asked(s.requests, r.walletId, r.event)
  }

  ghost predicate WalletsValid(s: System) {
    && (forall u :: u in s.wallets ==> s.wallets[u] < s.nextWallet)
    && (forall u, v :: u in s.wallets && v in s.wallets && u != v ==> s.wallets[u] != s.wallets[v])
  }

  ghost predicate Inv(s: System) {
    && WalletsValid(s)
    && (forall d :: DeliveryValid(s, d))
    && (forall i :: 0 <= i < |s.requests| ==> RequestValid(s, s.requests[i]))
    && (forall i :: 0 <= i < |s.results| ==> ResultValid(s, s.results[i]))
  }

  lemma AskedStays(requests: seq<Request>, r: Request, w: WalletId, e: EventId)
    ensures Asked(requests + [r], w, e) <==> Asked(requests, w, e) || r == Request(w, e)
  {
    var all := requests + [r];
    assert all[|requests|] == r;
    if i :| 0 <= i < |requests| && requests[i] == Request(w, e) { assert all[i] == Request(w, e); }
  }

  lemma StepKeepsWallets(s: System, a: Action)
    requires WalletsValid(s)
    ensures WalletsValid(Apply(s, a))
  {
  }

  lemma WalletStays(s: System, a: Action, e: EventId, w: WalletId)
    ensures OfWallet(s, e, w) ==> OfWallet(Apply(s, a), e, w)
  {
  }

  lemma StepKeepsDelivery(s: System, a: Action, d: DeliveryId)
    requires DeliveryValid(s, d)
    ensures DeliveryValid(Apply(s, a), d)
  {
    hide Asked;
  }

  lemma StepKeepsRequests(s: System, a: Action, i: nat)
    requires forall d :: DeliveryValid(s, d)
    requires forall i :: 0 <= i < |s.requests| ==> RequestValid(s, s.requests[i])
    requires i < |Apply(s, a).requests|
    ensures RequestValid(Apply(s, a), Apply(s, a).requests[i])
  {
    hide Asked, OfWallet;
    var r := Apply(s, a).requests[i];
    WalletStays(s, a, r.causedBy, r.walletId);
    if a.Ask? { assert DeliveryValid(s, a.d); }
  }

  lemma StepKeepsAsked(s: System, a: Action, w: WalletId, e: EventId)
    requires Asked(s.requests, w, e)
    ensures Asked(Apply(s, a).requests, w, e)
  {
    hide Asked;
    if a.Ask? && Enabled(s, a) {
      AskedStays(s.requests, Apply(s, a).requests[|s.requests|], w, e);
    }
  }

  lemma StepKeepsResults(s: System, a: Action, i: nat)
    requires forall d :: DeliveryValid(s, d)
    requires forall i :: 0 <= i < |s.results| ==> ResultValid(s, s.results[i])
    requires i < |Apply(s, a).results|
    ensures ResultValid(Apply(s, a), Apply(s, a).results[i])
  {
    hide Asked, OfWallet;
    var r := Apply(s, a).results[i];
    WalletStays(s, a, r.event, r.walletId);
    if i < |s.results| {
      StepKeepsAsked(s, a, r.walletId, r.event);
    } else if a.Ask? {
      assert DeliveryValid(s, a.d);
      AskedStays(s.requests, Apply(s, a).requests[|s.requests|], r.walletId, r.event);
    } else {
      assert a.LookUp? && DeliveryValid(s, a.d);
    }
  }

  lemma StepKeepsInv(s: System, a: Action)
    requires Inv(s)
    ensures Inv(Apply(s, a))
  {
    hide Apply, WalletsValid, DeliveryValid, RequestValid, ResultValid;
    var t := Apply(s, a);
    StepKeepsWallets(s, a);
    forall d ensures DeliveryValid(t, d) { StepKeepsDelivery(s, a, d); }
    forall i | 0 <= i < |t.requests| ensures RequestValid(t, t.requests[i]) { StepKeepsRequests(s, a, i); }
    forall i | 0 <= i < |t.results| ensures ResultValid(t, t.results[i]) { StepKeepsResults(s, a, i); }
  }

  lemma {:induction false} RunKeepsInv(s: System, actions: seq<Action>)
    requires Inv(s)
    ensures Inv(Run(s, actions))
    decreases |actions|
  {
    if actions != [] {
      StepKeepsInv(s, actions[0]);
      hide Inv, Apply;
      RunKeepsInv(Apply(s, actions[0]), actions[1..]);
    }
  }

  /**
   * Whatever was redelivered: users share no wallet, all results of one event name the same wallet,
   * and every result is backed by a request for it.
   */
  lemma ResultsAgree(actions: seq<Action>, i: nat, j: nat)
    requires i < |Run(Initial(), actions).results| && j < |Run(Initial(), actions).results|
    ensures var s := Run(Initial(), actions); var q, r := s.results[i], s.results[j];
      && q.event in s.payloads && r.event in s.payloads && Asked(s.requests, q.walletId, q.event)
      && (q.event == r.event ==> q.walletId == r.walletId)
      && (q.walletId == r.walletId ==> s.payloads[q.event] == s.payloads[r.event])
  {
    RunKeepsInv(Initial(), actions);
    var s := Run(Initial(), actions);
    hide Run;
    assert ResultValid(s, s.results[i]) && ResultValid(s, s.results[j]);
  }

  /** A delivery that crashes is over and leaves what it has done so far. */
  lemma CrashLeavesWhatWasDone(s: System, d: DeliveryId)
    ensures var t := Apply(s, Crash(d)); t == s.(deliveries := s.deliveries - {d})
  {
    if d !in s.deliveries { assert s.deliveries - {d} == s.deliveries; }
  }

  // ----- how many requests one event causes -----

  function Requests(requests: seq<Request>, e: EventId): nat {
    if requests == [] then 0
    else Requests(requests[..|requests| - 1], e) + (if requests[|requests| - 1].causedBy == e then 1 else 0)
  }

  predicate Handles(s: System, d: DeliveryId, e: EventId) {
    d in s.deliveries && s.deliveries[d].event == e
  }

  lemma {:induction false} NoneAsked(requests: seq<Request>, w: WalletId, e: EventId)
    requires forall i :: 0 <= i < |requests| && requests[i].causedBy == e ==> requests[i].walletId == w
    ensures Requests(requests, e) == 0 <==> !Asked(requests, w, e)
    decreases |requests|
  {
    if requests != [] {
      var before := requests[..|requests| - 1];
      NoneAsked(before, w, e);
      AskedStays(before, requests[|requests| - 1], w, e);
      assert before + [requests[|requests| - 1]] == requests;
    }
  }

  /** A delivery of `e` starts only when no other delivery of it is under way. */
  ghost predicate Apart(s: System, a: Action, e: EventId) {
    a == Deliver(e) ==> forall d :: !Handles(s, d, e)
  }

  ghost predicate AllApart(s: System, actions: seq<Action>, e: EventId)
    decreases |actions|
  {
    actions == [] || (Apart(s, actions[0], e) && AllApart(Apply(s, actions[0]), actions[1..], e))
  }

  /** One delivery of `e` at a time, and a delivery that is about to ask is the first to do so. */
  ghost predicate OneAtATime(s: System, e: EventId) {
    && (forall d, c :: Handles(s, d, e) && Handles(s, c, e) ==> c == d)
    && Requests(s.requests, e) <= 1
    && (forall d :: Handles(s, d, e) && s.deliveries[d].stage.NotAsked? ==> Requests(s.requests, e) == 0)
  }

  lemma LookUpIsRight(s: System, d: DeliveryId)
    requires Inv(s) && At(s, d, WalletReserved)
    ensures At(Apply(s, LookUp(d)), d, NotAsked) <==> Requests(s.requests, s.deliveries[d].event) == 0
  {
    var delivery := s.deliveries[d];
    assert DeliveryValid(s, d);
    forall i | 0 <= i < |s.requests| && s.requests[i].causedBy == delivery.event
      ensures s.requests[i].walletId == delivery.walletId
    {
      assert RequestValid(s, s.requests[i]);
    }
    NoneAsked(s.requests, delivery.walletId, delivery.event);
  }

  lemma DeliverKeepsOneAtATime(s: System, f: EventId, e: EventId)
    requires Inv(s) && OneAtATime(s, e) && (f == e ==> forall d :: !Handles(s, d, e))
    ensures OneAtATime(Apply(s, Deliver(f)), e)
  {
    var t := Apply(s, Deliver(f));
    forall d | Handles(t, d, e) ensures if f == e then d == s.nextDelivery else Handles(s, d, e) {
      assert d != s.nextDelivery ==> Handles(s, d, e);
    }
    forall d | Handles(t, d, e) && t.deliveries[d].stage.NotAsked? ensures Requests(t.requests, e) == 0 {
      assert Handles(s, d, e);
    }
  }

  /** A step that adds no delivery and no request, and sends none of them on to ask. */
  lemma QuietKeepsOneAtATime(s: System, t: System, e: EventId)
    requires OneAtATime(s, e) && t.requests == s.requests
    requires forall d :: Handles(t, d, e) ==> Handles(s, d, e)
    requires forall d :: Handles(t, d, e) && t.deliveries[d].stage.NotAsked? ==>
      s.deliveries[d].stage.NotAsked? || Requests(s.requests, e) == 0
    ensures OneAtATime(t, e)
  {
  }

  lemma AskKeepsOneAtATime(s: System, d: DeliveryId, e: EventId)
    requires Inv(s) && OneAtATime(s, e) && Enabled(s, Ask(d))
    ensures OneAtATime(Apply(s, Ask(d)), e)
  {
    var t := Apply(s, Ask(d));
    assert t.requests[..|s.requests|] == s.requests;
    forall c | Handles(t, c, e) ensures Handles(s, c, e) && c != d {}
    if s.deliveries[d].event == e { assert Handles(s, d, e); }
  }

  lemma StepKeepsOneAtATime(s: System, a: Action, e: EventId)
    requires Inv(s) && OneAtATime(s, e) && Apart(s, a, e)
    ensures OneAtATime(Apply(s, a), e)
  {
    hide OneAtATime, Inv;
    if Enabled(s, a) {
      match a
      case Emit(_, _) => QuietKeepsOneAtATime(s, Apply(s, a), e);
      case Deliver(f) => DeliverKeepsOneAtATime(s, f, e);
      case LookUp(d) => LookUpIsRight(s, d); QuietKeepsOneAtATime(s, Apply(s, a), e);
      case Ask(d) => AskKeepsOneAtATime(s, d, e);
      case Crash(_) => QuietKeepsOneAtATime(s, Apply(s, a), e);
    }
  }

  lemma {:induction false} RunKeepsOneAtATime(s: System, actions: seq<Action>, e: EventId)
    requires Inv(s) && OneAtATime(s, e) && AllApart(s, actions, e)
    ensures OneAtATime(Run(s, actions), e)
    decreases |actions|
  {
    if actions != [] {
      StepKeepsInv(s, actions[0]);
      StepKeepsOneAtATime(s, actions[0], e);
      hide Inv, Apply, OneAtATime;
      RunKeepsOneAtATime(Apply(s, actions[0]), actions[1..], e);
    }
  }

  /** Redeliveries that do not overlap ask at most once, however often they crash or repeat. */
  lemma RedeliveryAsksOnce(actions: seq<Action>, e: EventId)
    requires AllApart(Initial(), actions, e)
    ensures Requests(Run(Initial(), actions).requests, e) <= 1
  {
    RunKeepsOneAtATime(Initial(), actions, e);
  }

  // ----- overlapping deliveries -----

  /** Whatever happens later, as long as no later delivery of the event overlaps with another. */
  ghost predicate AsksOnce(s: System, e: EventId) {
    forall actions :: AllApart(s, actions, e) ==> Requests(Run(s, actions).requests, e) <= 1
  }

  /** Whatever happens later. */
  ghost predicate NeverAsksTwice(s: System, e: EventId) {
    forall actions :: Requests(Run(s, actions).requests, e) <= 1
  }

  /** The one request is there, and no delivery has looked before it was. */
  ghost predicate Answered(s: System, e: EventId) {
    Requests(s.requests, e) == 1 && forall d :: Handles(s, d, e) ==> !s.deliveries[d].stage.NotAsked?
  }

  lemma StepKeepsAnswered(s: System, a: Action, e: EventId)
    requires Inv(s) && Answered(s, e)
    ensures Answered(Apply(s, a), e)
  {
    var t := Apply(s, a);
    if Enabled(s, a) {
      if a.LookUp? {
        LookUpIsRight(s, a.d);
      } else if a.Ask? {
        assert t.requests[..|s.requests|] == s.requests;
        assert Handles(s, a.d, s.deliveries[a.d].event);
      }
    }
    hide Inv, Asked, Requests;
    forall d | Handles(t, d, e) ensures !t.deliveries[d].stage.NotAsked? {
      assert d in s.deliveries ==> (Handles(s, d, e) <==> s.deliveries[d].event == e);
    }
  }

  lemma {:induction false} RunKeepsAnswered(s: System, actions: seq<Action>, e: EventId)
    requires Inv(s) && Answered(s, e)
    ensures Answered(Run(s, actions), e)
    decreases |actions|
  {
    if actions != [] {
      StepKeepsInv(s, actions[0]);
      StepKeepsAnswered(s, actions[0], e);
      hide Inv, Apply, Answered;
      RunKeepsAnswered(Apply(s, actions[0]), actions[1..], e);
    }
  }

  lemma RunFrom(s: System, a: Action, rest: seq<Action>, e: EventId)
    ensures Run(s, [a] + rest) == Run(Apply(s, a), rest)
    ensures AllApart(Apply(s, a), rest, e) && Apart(s, a, e) ==> AllApart(s, [a] + rest, e)
  {
    hide Apply;
    assert ([a] + rest)[1..] == rest;
  }

  lemma OneMoreAsks(s: System, d: DeliveryId)
    requires At(s, d, NotAsked)
    ensures var e := s.deliveries[d].event; var t := Apply(s, Ask(d));
      && Requests(t.requests, e) == Requests(s.requests, e) + 1
      && forall c :: c != d ==> (Handles(t, c, e) <==> Handles(s, c, e))
  {
    assert Apply(s, Ask(d)).requests[..|s.requests|] == s.requests;
  }

  lemma AsksAgain(s: System, d: DeliveryId, e: EventId)
    requires At(s, d, NotAsked) && Handles(s, d, e) && Requests(s.requests, e) > 0
    ensures !AsksOnce(s, e)
  {
    OneMoreAsks(s, d);
    RunFrom(s, Ask(d), [], e);
    assert AllApart(s, [Ask(d)] + [], e);
  }

  /** Any two deliveries under way before anybody has asked can both look first, and then both ask. */
  lemma {:induction false} BothAsk(s: System, c: DeliveryId, d: DeliveryId, e: EventId) returns (actions: seq<Action>)
    requires Inv(s) && c != d && Handles(s, c, e) && Handles(s, d, e) && Requests(s.requests, e) == 0
    ensures AllApart(s, actions, e) && Requests(Run(s, actions).requests, e) == 2
    decreases (if At(s, c, NotAsked) then 0 else 1) + (if At(s, d, NotAsked) then 0 else 1)
  {
    hide Inv, Asked, Requests, Run, AllApart;
    if At(s, c, NotAsked) && At(s, d, NotAsked) {
      TwoAsk(s, c, d, e);
      actions := [Ask(c)] + ([Ask(d)] + []);
    } else {
      var x := if At(s, c, NotAsked) then d else c;
      LookUpIsRight(s, x);
      StepKeepsInv(s, LookUp(x));
      var rest := BothAsk(Apply(s, LookUp(x)), c, d, e);
      RunFrom(s, LookUp(x), rest, e);
      actions := [LookUp(x)] + rest;
    }
  }

  lemma TwoAsk(s: System, c: DeliveryId, d: DeliveryId, e: EventId)
    requires c != d && Handles(s, c, e) && Handles(s, d, e) && At(s, c, NotAsked) && At(s, d, NotAsked)
    ensures var actions := [Ask(c)] + ([Ask(d)] + []);
      AllApart(s, actions, e) && Requests(Run(s, actions).requests, e) == Requests(s.requests, e) + 2
  {
    var t := Apply(s, Ask(c));
    OneMoreAsks(s, c);
    OneMoreAsks(t, d);
    hide Requests;
    RunFrom(s, Ask(c), [Ask(d)] + [], e);
    RunFrom(t, Ask(d), [], e);
  }

  /**
   * From any reachable state, as long as no later delivery of the event overlaps with another: at
   * most one request is ever made exactly when one has been made and nobody is about to make a
   * second, or none has and at most one delivery is under way.
   */
  lemma AsksOnceExactlyWhen(actions: seq<Action>, e: EventId)
    ensures var s := Run(Initial(), actions);
      AsksOnce(s, e) <==>
        || Answered(s, e)
        || (Requests(s.requests, e) == 0 && forall c, d :: Handles(s, c, e) && Handles(s, d, e) ==> c == d)
  {
    RunKeepsInv(Initial(), actions);
    var s := Run(Initial(), actions);
    hide Inv;
    if Answered(s, e) {
      forall later | AllApart(s, later, e) ensures Requests(Run(s, later).requests, e) <= 1 {
        RunKeepsAnswered(s, later, e);
      }
    } else if Requests(s.requests, e) > 1 {
      assert AllApart(s, [], e) && Run(s, []) == s;
    } else if Requests(s.requests, e) == 1 {
      var d :| Handles(s, d, e) && s.deliveries[d].stage.NotAsked?;
      AsksAgain(s, d, e);
    } else if c, d :| Handles(s, c, e) && Handles(s, d, e) && c != d {
      var both := BothAsk(s, c, d, e);
    } else {
      forall later | AllApart(s, later, e) ensures Requests(Run(s, later).requests, e) <= 1 {
        RunKeepsOneAtATime(s, later, e);
      }
    }
  }

  /**
   * The look-up and the request are separate steps.  A delivery that found no request is safe from
   * a second one, as long as no later delivery of the event overlaps with another, exactly when
   * nobody has asked since and no other delivery of it is under way now.
   */
  lemma AskingIsSafeExactlyWhenAlone(actions: seq<Action>, d: DeliveryId)
    requires At(Run(Initial(), actions), d, NotAsked)
    ensures var s := Run(Initial(), actions); var e := s.deliveries[d].event;
      AsksOnce(s, e) <==> Requests(s.requests, e) == 0 && forall c :: Handles(s, c, e) ==> c == d
  {
    var s := Run(Initial(), actions);
    AsksOnceExactlyWhen(actions, s.deliveries[d].event);
    assert Handles(s, d, s.deliveries[d].event);
  }

  lemma DeliveryStarts(s: System, e: EventId)
    requires Inv(s) && e in s.payloads
    ensures var t := Apply(s, Deliver(e));
      && Inv(t) && e in t.payloads && t.requests == s.requests && t.nextDelivery == s.nextDelivery + 1
      && Handles(t, s.nextDelivery, e) && forall d :: Handles(s, d, e) ==> Handles(t, d, e)
  {
    StepKeepsInv(s, Deliver(e));
    forall d | Handles(s, d, e) ensures d != s.nextDelivery { assert DeliveryValid(s, d); }
  }

  /** Two deliveries that start now and overlap ask twice, if nobody has asked so far. */
  lemma {:induction false} NewOverlapAsksTwice(s: System, e: EventId) returns (actions: seq<Action>)
    requires Inv(s) && Requests(s.requests, e) == 0
    ensures Requests(Run(s, actions).requests, e) == 2
    decreases if e in s.payloads then 0 else 1
  {
    if e in s.payloads {
      var one := Apply(s, Deliver(e));
      var two := Apply(one, Deliver(e));
      DeliveryStarts(s, e);
      DeliveryStarts(one, e);
      hide Inv, Apply, Requests, Run, AllApart;
      var rest := BothAsk(two, s.nextDelivery, one.nextDelivery, e);
      RunFrom(one, Deliver(e), rest, e);
      RunFrom(s, Deliver(e), [Deliver(e)] + rest, e);
      actions := [Deliver(e)] + ([Deliver(e)] + rest);
    } else {
      StepKeepsInv(s, Emit(e, 0));
      var rest := NewOverlapAsksTwice(Apply(s, Emit(e, 0)), e);
      RunFrom(s, Emit(e, 0), rest, e);
      actions := [Emit(e, 0)] + rest;
    }
  }

  /** With deliveries overlapping as they like, only an event that has been answered is safe. */
  lemma NeverAsksTwiceExactlyWhenAnswered(actions: seq<Action>, e: EventId)
    ensures var s := Run(Initial(), actions); NeverAsksTwice(s, e) <==> Answered(s, e)
  {
    RunKeepsInv(Initial(), actions);
    var s := Run(Initial(), actions);
    if Answered(s, e) {
      forall later ensures Requests(Run(s, later).requests, e) <= 1 { RunKeepsAnswered(s, later, e); }
    } else if Requests(s.requests, e) == 0 {
      var later := NewOverlapAsksTwice(s, e);
    } else {
      AsksOnceExactlyWhen(actions, e);
    }
  }

  // ----- the handler -----

  class UserCreatedHandler {
    var wallets: map<UserId, WalletId>
    var requests: seq<Request>
    var nextWallet: WalletId
    ghost var payloads: map<EventId, UserId>
    ghost var deliveries: map<DeliveryId, Delivery>
    ghost var results: seq<Result>
    ghost var nextDelivery: DeliveryId

    ghost function View(): System
      reads this
    {
      System(payloads, wallets, requests, deliveries, results, nextWallet, nextDelivery)
    }

    constructor ()
      ensures View() == Initial()
    {
      wallets, requests, nextWallet := map[], [], 0;
      payloads, deliveries, results, nextDelivery := map[], map[], [], 0;
    }

    /** The wallet of the event's user, created if there is none. */
    method Reserve(e: EventId, u: UserId) returns (w: WalletId, ghost d: DeliveryId)
      requires e in payloads && payloads[e] == u
      modifies this
      ensures View() == Apply(old(View()), Deliver(e))
      ensures d == old(nextDelivery) && At(View(), d, WalletReserved) && deliveries[d] == Delivery(e, w, WalletReserved)
    {
      if u in wallets {
        w := wallets[u];
      } else {
        w := nextWallet;
        nextWallet := nextWallet + 1;
      }
      wallets := wallets[u := w];
      d := nextDelivery;
      deliveries := deliveries[d := Delivery(e, w, WalletReserved)];
      nextDelivery := nextDelivery + 1;
    }

    method AlreadyRequested(w: WalletId, e: EventId) returns (found: bool)
      ensures found <==> Asked(requests, w, e)
    {
      for i := 0 to |requests|
        invariant forall j :: 0 <= j < i ==> requests[j] != Request(w, e)
      {
        if requests[i].walletId == w && requests[i].causedBy == e {
          return true;
        }
      }
      found := false;
    }

    method LookUpRequest(ghost d: DeliveryId, w: WalletId, e: EventId) returns (asked: bool)
      requires At(View(), d, WalletReserved) && deliveries[d] == Delivery(e, w, WalletReserved)
      modifies this
      ensures View() == Apply(old(View()), LookUp(d))
      ensures asked <==> Asked(old(requests), w, e)
    {
      asked := AlreadyRequested(w, e);
      if asked {
        deliveries := deliveries - {d};
        results := results + [Result(e, w, false)];
      } else {
        deliveries := deliveries[d := deliveries[d].(stage := NotAsked)];
      }
    }

    method CreateRequest(ghost d: DeliveryId, w: WalletId, e: EventId)
      requires At(View(), d, NotAsked) && deliveries[d] == Delivery(e, w, NotAsked)
      modifies this
      ensures View() == Apply(old(View()), Ask(d))
    {
      requests := requests + [Request(w, e)];
      deliveries := deliveries - {d};
      results := results + [Result(e, w, true)];
    }

    /** One undisturbed delivery: afterwards there is a request, and it asked exactly if there was none. */
    method Handle(e: EventId, u: UserId) returns (r: Result)
      requires Inv(View()) && e in payloads && payloads[e] == u
      modifies this
      ensures Inv(View())
      ensures OfWallet(View(), e, r.walletId) && r.event == e
      ensures r.requested <==> Requests(old(requests), e) == 0
      ensures Requests(requests, e) == if r.requested then 1 else Requests(old(requests), e)
      ensures results == old(results) + [r] && deliveries == old(deliveries)
    {
      Undisturbed(View(), e);
      hide Inv, Apply, Asked, OfWallet, Requests;
      var w, d := Reserve(e, u);
      assert At(View(), d, WalletReserved);
      var asked := LookUpRequest(d, w, e);
      if !asked {
        CreateRequest(d, w, e);
      }
      r := Result(e, w, !asked);
    }
  }

  /** Where the three steps lead when nothing comes in between. */
  lemma Undisturbed(s: System, e: EventId)
    requires Inv(s) && e in s.payloads
    ensures var d, w, first := s.nextDelivery, WalletOf(s, e), Requests(s.requests, e) == 0;
      var reserved := Apply(s, Deliver(e)); var looked := Apply(reserved, LookUp(d));
      var t := if first then Apply(looked, Ask(d)) else looked;
      && reserved.requests == s.requests && d in reserved.deliveries && reserved.deliveries[d].walletId == w
      && (Asked(s.requests, w, e) <==> !first)
      && (first ==> At(looked, d, NotAsked) && looked.deliveries[d] == Delivery(e, w, NotAsked))
      && Inv(t) && OfWallet(t, e, w) && t.deliveries == s.deliveries
      && t.results == s.results + [Result(e, w, first)]
      && Requests(t.requests, e) == if first then 1 else Requests(s.requests, e)
  {
    hide Inv, Asked, Apply, Requests, WalletOf;
    var d := s.nextDelivery;
    var reserved := Apply(s, Deliver(e));
    var looked := Apply(reserved, LookUp(d));
    DeliverMeans(s, e);
    LookUpMeans(reserved, d);
    if Requests(s.requests, e) == 0 { AskMeans(looked, d); }
    assert reserved.deliveries - {d} == s.deliveries;
    assert reserved.deliveries[d := Delivery(e, WalletOf(s, e), NotAsked)] - {d} == s.deliveries;
  }

  lemma DeliverMeans(s: System, e: EventId)
    requires Inv(s) && e in s.payloads
    ensures var d, w := s.nextDelivery, WalletOf(s, e); var t := Apply(s, Deliver(e));
      && Inv(t) && t.requests == s.requests && t.results == s.results && OfWallet(t, e, w)
      && d !in s.deliveries && t.deliveries == s.deliveries[d := Delivery(e, w, WalletReserved)]
  {
    StepKeepsInv(s, Deliver(e));
    assert DeliveryValid(s, s.nextDelivery);
  }

  lemma LookUpMeans(s: System, d: DeliveryId)
    requires Inv(s) && At(s, d, WalletReserved)
    ensures var x := s.deliveries[d]; var t := Apply(s, LookUp(d)); var first := Requests(s.requests, x.event) == 0;
      && Inv(t) && t.requests == s.requests && (Asked(s.requests, x.walletId, x.event) <==> !first)
      && t.wallets == s.wallets && t.payloads == s.payloads
      && t.deliveries == (if first then s.deliveries[d := x.(stage := NotAsked)] else s.deliveries - {d})
      && t.results == (if first then s.results else s.results + [Result(x.event, x.walletId, false)])
  {
    StepKeepsInv(s, LookUp(d));
    LookUpIsRight(s, d);
    hide Inv, Asked, Requests;
  }

  lemma AskMeans(s: System, d: DeliveryId)
    requires Inv(s) && At(s, d, NotAsked)
    ensures var x := s.deliveries[d]; var t := Apply(s, Ask(d));
      && Inv(t) && Requests(t.requests, x.event) == Requests(s.requests, x.event) + 1
      && t.wallets == s.wallets && t.payloads == s.payloads
      && t.deliveries == s.deliveries - {d} && t.results == s.results + [Result(x.event, x.walletId, true)]
  {
    StepKeepsInv(s, Ask(d));
    hide Inv;
    assert Apply(s, Ask(d)).requests[..|s.requests|] == s.requests;
  }
}
