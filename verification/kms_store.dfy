/**
 * The in-memory key store as it is: it awaits a hook between looking for an entry and writing one,
 * so two stores under one idempotency key can both get past the look.  The protocol of wallet
 * provisioning takes the store as its interface demands it; here is when that is what happens.
 */
module KmsStore {
  import opened Wrappers

  type Key = nat
  type WalletId = nat
  type CallId = nat

  /** `log` lists every write, in order; no step reads it. */
  datatype Kms = Kms(
    entries: map<WalletId, Key>,
    suspended: map<CallId, WalletId>,
    log: seq<(WalletId, Key)>,
    nextCall: CallId,
    nextKey: Key)

  datatype Action =
    | Begin(w: WalletId)
    | Write(c: CallId)
    | HookThrows(c: CallId)

  function Initial(): Kms {
    Kms(map[], map[], [], 0, 0)
  }

  predicate Enabled(s: Kms, a: Action) {
    match a
    case Begin(_) => true
    case Write(c) => c in s.suspended
    case HookThrows(c) => c in s.suspended
  }

  /** A store that finds an entry returns it; every other one writes when its hook is done. */
  function Apply(s: Kms, a: Action): Kms {
    if !Enabled(s, a) then s
    else
      match a
      case Begin(w) =>
        if w in s.entries then s
        else s.(suspended := s.suspended[s.nextCall := w], nextCall := s.nextCall + 1)
      case Write(c) =>
        var w := s.suspended[c];
        s.(entries := s.entries[w := s.nextKey], suspended := s.suspended - {c},
           log := s.log + [(w, s.nextKey)], nextKey := s.nextKey + 1)
      case HookThrows(c) => s.(suspended := s.suspended - {c})
  }

  function Run(s: Kms, actions: seq<Action>): Kms
    decreases |actions|
  {
    if actions == [] then s else Run(Apply(s, actions[0]), actions[1..])
  }

  function Writes(log: seq<(WalletId, Key)>, w: WalletId): nat {
    if log == [] then 0 else Writes(log[..|log| - 1], w) + (if log[|log| - 1].0 == w then 1 else 0)
  }

  predicate Pending(s: Kms, c: CallId, w: WalletId) {
    c in s.suspended && s.suspended[c] == w
  }

  ghost predicate Inv(s: Kms) {
    && (forall c :: c in s.suspended ==> c < s.nextCall)
    && (forall w: WalletId :: EntryMeansWritten(s, w))
  }

  predicate EntryMeansWritten(s: Kms, w: WalletId) {
    w in s.entries <==> Writes(s.log, w) > 0
  }

  lemma StepOnWrites(s: Kms, a: Action, w: WalletId)
    ensures Writes(Apply(s, a).log, w) == Writes(s.log, w) + (if a.Write? && Pending(s, a.c, w) then 1 else 0)
    ensures w in Apply(s, a).entries <==> w in s.entries || (a.Write? && Pending(s, a.c, w))
  {
    if a.Write? && Enabled(s, a) {
      assert Apply(s, a).log[..|s.log|] == s.log;
    }
  }

  lemma StepKeepsInv(s: Kms, a: Action)
    requires Inv(s)
    ensures Inv(Apply(s, a))
  {
    forall w: WalletId ensures EntryMeansWritten(Apply(s, a), w) {
      assert EntryMeansWritten(s, w);
      StepOnWrites(s, a, w);
    }
  }

  lemma {:induction false} RunKeepsInv(s: Kms, actions: seq<Action>)
    requires Inv(s)
    ensures Inv(Run(s, actions))
    decreases |actions|
  {
    if actions != [] {
      StepKeepsInv(s, actions[0]);
      hide Inv, Apply;
      RunKeepsInv(Apply(s, actions[0]), actions[1..]);
    }
  }

  /** One store of `w` at a time gets past the look, and only before the first write. */
  ghost predicate OneAtATime(s: Kms, w: WalletId) {
    && (forall c, d :: Pending(s, c, w) && Pending(s, d, w) ==> c == d)
    && Writes(s.log, w) <= 1
    && (forall c :: Pending(s, c, w) ==> Writes(s.log, w) == 0)
  }

  lemma StepKeepsOneAtATime(s: Kms, a: Action, w: WalletId)
    requires Inv(s) && OneAtATime(s, w) && Apart(s, a, w)
    ensures OneAtATime(Apply(s, a), w)
  {
    var t := Apply(s, a);
    StepOnWrites(s, a, w);
    assert EntryMeansWritten(s, w);
    forall c | Pending(t, c, w) ensures Pending(s, c, w) || (a == Begin(w) && w !in s.entries && c == s.nextCall) {}
  }

  /** A store of `w` begins only when no other one of it is under way. */
  ghost predicate Apart(s: Kms, a: Action, w: WalletId) {
    a == Begin(w) ==> forall c :: !Pending(s, c, w)
  }

  ghost predicate AllApart(s: Kms, actions: seq<Action>, w: WalletId)
    decreases |actions|
  {
    actions == [] || (Apart(s, actions[0], w) && AllApart(Apply(s, actions[0]), actions[1..], w))
  }

  lemma {:induction false} RunKeepsOneAtATime(s: Kms, actions: seq<Action>, w: WalletId)
    requires Inv(s) && OneAtATime(s, w) && AllApart(s, actions, w)
    ensures OneAtATime(Run(s, actions), w)
    decreases |actions|
  {
    if actions != [] {
      StepKeepsInv(s, actions[0]);
      StepKeepsOneAtATime(s, actions[0], w);
      hide Inv, Apply, OneAtATime;
      RunKeepsOneAtATime(Apply(s, actions[0]), actions[1..], w);
    }
  }

  /** Stores that do not overlap behave as the interface demands: the first key written is the only one. */
  lemma StoresApartWriteOnce(actions: seq<Action>, w: WalletId)
    requires AllApart(Initial(), actions, w)
    ensures Writes(Run(Initial(), actions).log, w) <= 1
  {
    RunKeepsOneAtATime(Initial(), actions, w);
  }

  /** A store whose hook throws is over and leaves no key. */
  lemma ThrownHookWritesNothing(s: Kms, c: CallId, w: WalletId)
    requires Pending(s, c, w)
    ensures var t := Apply(s, HookThrows(c));
      !Pending(t, c, w) && t.entries == s.entries && Writes(t.log, w) == Writes(s.log, w)
    ensures forall d :: d != c ==> (Pending(Apply(s, HookThrows(c)), d, w) <==> Pending(s, d, w))
  {
  }

  // ----- stores that overlap -----

  /** Whatever happens later, as long as no later store of the wallet overlaps with another. */
  ghost predicate WritesOnce(s: Kms, w: WalletId) {
    forall actions :: AllApart(s, actions, w) ==> Writes(Run(s, actions).log, w) <= 1
  }

  /** Whatever happens later. */
  ghost predicate NeverWritesTwice(s: Kms, w: WalletId) {
    forall actions :: Writes(Run(s, actions).log, w) <= 1
  }

  lemma RunFrom(s: Kms, a: Action, rest: seq<Action>, w: WalletId)
    ensures Run(s, [a] + rest) == Run(Apply(s, a), rest)
    ensures AllApart(Apply(s, a), rest, w) && Apart(s, a, w) ==> AllApart(s, [a] + rest, w)
  {
    hide Apply;
    assert ([a] + rest)[1..] == rest;
  }

  lemma WriteAgain(s: Kms, c: CallId, w: WalletId)
    requires Pending(s, c, w)
    ensures var actions := [Write(c)] + [];
      AllApart(s, actions, w) && Writes(Run(s, actions).log, w) == Writes(s.log, w) + 1
  {
    StepOnWrites(s, Write(c), w);
    RunFrom(s, Write(c), [], w);
  }

  /** Two suspended stores of one wallet both write, and the second key replaces the first. */
  lemma BothWrite(s: Kms, c: CallId, d: CallId, w: WalletId)
    requires c != d && Pending(s, c, w) && Pending(s, d, w)
    ensures var actions := [Write(c)] + ([Write(d)] + []); var t := Run(s, actions);
      && AllApart(s, actions, w)
      && Writes(t.log, w) == Writes(s.log, w) + 2 && w in t.entries && t.entries[w] == s.nextKey + 1
  {
    var t := Apply(s, Write(c));
    StepOnWrites(s, Write(c), w);
    StepOnWrites(t, Write(d), w);
    hide Writes;
    RunFrom(s, Write(c), [Write(d)] + [], w);
    RunFrom(t, Write(d), [], w);
  }

  /**
   * From any reachable state, as long as no later store of the wallet overlaps with another: at most
   * one key is ever written exactly when the stores under way and the keys written are at most one.
   */
  lemma WritesOnceExactlyWhen(actions: seq<Action>, w: WalletId)
    ensures var s := Run(Initial(), actions); WritesOnce(s, w) <==> OneAtATime(s, w)
  {
    RunKeepsInv(Initial(), actions);
    var s := Run(Initial(), actions);
    if OneAtATime(s, w) {
      forall later | AllApart(s, later, w) ensures Writes(Run(s, later).log, w) <= 1 {
        RunKeepsOneAtATime(s, later, w);
      }
    } else if Writes(s.log, w) > 1 {
      assert AllApart(s, [], w) && Run(s, []) == s;
    } else if c, d :| Pending(s, c, w) && Pending(s, d, w) && c != d {
      BothWrite(s, c, d, w);
    } else {
      var c :| Pending(s, c, w) && Writes(s.log, w) > 0;
      WriteAgain(s, c, w);
    }
  }

  /**
   * A store that found no entry is the only one ever to write a key for its wallet, as long as no
   * later store of it overlaps with another, exactly when none has been written since and no other
   * store of the wallet is under way now.
   */
  lemma KeyIsWrittenOnceExactlyWhenAlone(actions: seq<Action>, c: CallId)
    requires c in Run(Initial(), actions).suspended
    ensures var s := Run(Initial(), actions); var w := s.suspended[c];
      WritesOnce(s, w) <==> w !in s.entries && forall d :: Pending(s, d, w) ==> d == c
  {
    RunKeepsInv(Initial(), actions);
    var s := Run(Initial(), actions);
    var w := s.suspended[c];
    assert EntryMeansWritten(s, w) && Pending(s, c, w);
    WritesOnceExactlyWhen(actions, w);
  }

  /** Two stores that begin now and overlap write two keys, if there is none so far. */
  lemma NewOverlapWritesTwice(s: Kms, w: WalletId) returns (actions: seq<Action>)
    requires Inv(s) && w !in s.entries
    ensures Writes(Run(s, actions).log, w) == 2
  {
    var one := Apply(s, Begin(w));
    var two := Apply(one, Begin(w));
    assert EntryMeansWritten(s, w);
    hide Inv, Writes;
    var rest := [Write(s.nextCall)] + ([Write(s.nextCall + 1)] + []);
    BothWrite(two, s.nextCall, s.nextCall + 1, w);
    RunFrom(one, Begin(w), rest, w);
    RunFrom(s, Begin(w), [Begin(w)] + rest, w);
    actions := [Begin(w)] + ([Begin(w)] + rest);
  }

  /** With stores overlapping as they like, only a wallet with its one key and no store under way is safe. */
  lemma NeverWritesTwiceExactlyWhen(actions: seq<Action>, w: WalletId)
    ensures var s := Run(Initial(), actions);
      NeverWritesTwice(s, w) <==> Writes(s.log, w) == 1 && forall c :: !Pending(s, c, w)
  {
    RunKeepsInv(Initial(), actions);
    var s := Run(Initial(), actions);
    assert EntryMeansWritten(s, w);
    if Writes(s.log, w) == 0 {
      var later := NewOverlapWritesTwice(s, w);
    } else if OneAtATime(s, w) {
      forall later ensures Writes(Run(s, later).log, w) <= 1 { RunKeepsWritten(s, later, w); }
    } else {
      WritesOnceExactlyWhen(actions, w);
    }
  }

  lemma {:induction false} RunKeepsWritten(s: Kms, actions: seq<Action>, w: WalletId)
    requires w in s.entries && forall c :: !Pending(s, c, w)
    ensures Writes(Run(s, actions).log, w) == Writes(s.log, w)
    decreases |actions|
  {
    if actions != [] {
      var t := Apply(s, actions[0]);
      StepOnWrites(s, actions[0], w);
      forall c ensures !Pending(t, c, w) { assert !Pending(s, c, w); }
      hide Apply, Writes;
      RunKeepsWritten(t, actions[1..], w);
    }
  }

  /** The store in place, cut at its await; `suspended` are the calls waiting for their hook. */
  class InMemoryEnvelopeKms {
    var entries: map<WalletId, Key>
    ghost var suspended: map<CallId, WalletId>
    ghost var log: seq<(WalletId, Key)>
    ghost var nextCall: CallId
    var nextKey: Key

    ghost function View(): Kms
      reads this
    {
      Kms(entries, suspended, log, nextCall, nextKey)
    }

    constructor ()
      ensures View() == Initial()
    {
      entries, suspended, log, nextCall, nextKey := map[], map[], [], 0, 0;
    }

    /** Up to the await: an entry that is there is the answer. */
    method BeginStore(w: WalletId) returns (existing: Option<Key>, ghost c: CallId)
      modifies this
      ensures View() == Apply(old(View()), Begin(w))
      ensures existing == if w in old(entries) then Some(old(entries)[w]) else None
      ensures existing.None? ==> Pending(View(), c, w)
    {
      c := nextCall;
      if w in entries {
        return Some(entries[w]), c;
      }
      suspended := suspended[nextCall := w];
      nextCall := nextCall + 1;
      existing := None;
    }

    /** After the await: the entry is written without looking again. */
    method FinishStore(ghost c: CallId, w: WalletId) returns (key: Key)
      requires Pending(View(), c, w)
      modifies this
      ensures View() == Apply(old(View()), Write(c))
      ensures w in entries && entries[w] == key && key == old(nextKey)
    {
      key := nextKey;
      entries := entries[w := key];
      log := log + [(w, key)];
      suspended := suspended - {c};
      nextKey := nextKey + 1;
    }
  }
}
