/** What reconciliation means: completions are a join, and progress does not go back. */
module OfflineSyncSafety {
  import opened OfflineSync
  import opened Wrappers

  // ----- completions -----

  /** The events of a batch that count: accepted, not seen before the batch, and first with their key. */
  predicate Counts(s: Store, es: seq<Event>, i: int) {
    0 <= i < |es| && IsNew(s, es[i]) && forall j :: 0 <= j < i && Accepted(s, es[j]) ==> es[j].key != es[i].key
  }

  predicate CountsFor(s: Store, es: seq<Event>, i: int, m: ModuleId) {
    Counts(s, es, i) && es[i].moduleId.value == m
  }

  function Score(s: Store, u: UserId, m: ModuleId): Option<real> {
    if (u, m) in s.completions then Some(s.completions[(u, m)]) else None
  }

  predicate AtMost(a: Option<real>, b: Option<real>) {
    a.Some? ==> b.Some? && a.value <= b.value
  }

  predicate Knows(s: Store, es: seq<Event>, key: string) {
    HasKey(s.events, key) || exists i :: 0 <= i < |es| && Accepted(s, es[i]) && es[i].key.value == key
  }

  lemma RecordHasKey(s: Store, u: UserId, e: Event, kind: Kind, status: Status, key: string)
    requires Flaw(e).NoReason?
    ensures HasKey(Record(s, u, e, kind, status).events, key) <==> HasKey(s.events, key) || key == e.key.value
  {
    var t := Record(s, u, e, kind, status);
    assert t.events[|s.events|].key == e.key.value;
    if i :| 0 <= i < |s.events| && s.events[i].key == key { assert t.events[i].key == key; }
  }

  lemma CompleteHasKey(s: Store, u: UserId, e: Event, key: string)
    ensures HasKey(Complete(s, u, e).events, key) <==> HasKey(s.events, key) || (Accepted(s, e) && key == e.key.value)
    ensures Complete(s, u, e).modules == s.modules
  {
    if IsNew(s, e) {
      RecordHasKey(WriteScore(s, u, e), u, e, Completion, if Higher(s, u, e) then Applied else Skipped, key);
    }
  }

  /** Afterwards exactly the keys known before and the keys of accepted events are recorded. */
  lemma {:induction false} BatchKeys(s: Store, u: UserId, es: seq<Event>, key: string)
    ensures HasKey(Completions(s, u, es).events, key) <==> Knows(s, es, key)
    ensures Completions(s, u, es).modules == s.modules
    decreases |es|
  {
    if es != [] {
      var before, e := es[..|es| - 1], es[|es| - 1];
      BatchKeys(s, u, before, key);
      CompleteHasKey(Completions(s, u, before), u, e, key);
      if i :| 0 <= i < |before| && Accepted(s, before[i]) && before[i].key.value == key { assert es[i] == before[i]; }
      if i :| 0 <= i < |es| && Accepted(s, es[i]) && es[i].key.value == key {
        assert i < |before| ==> before[i] == es[i];
      }
    }
  }

  lemma CountsPrefix(s: Store, es: seq<Event>, i: int)
    requires es != [] && i < |es| - 1
    ensures Counts(s, es[..|es| - 1], i) <==> Counts(s, es, i)
  {
  }

  /** The last event of a batch counts exactly when its key is unknown once the others are done. */
  lemma CountsLast(s: Store, u: UserId, es: seq<Event>)
    requires es != []
    ensures IsNew(Completions(s, u, es[..|es| - 1]), es[|es| - 1]) <==> Counts(s, es, |es| - 1)
  {
    var before, e := es[..|es| - 1], es[|es| - 1];
    var t := Completions(s, u, before);
    BatchKeys(s, u, before, "");
    assert Accepted(t, e) <==> Accepted(s, e);
    if Accepted(s, e) {
      BatchKeys(s, u, before, e.key.value);
      if IsNew(t, e) {
        forall j | 0 <= j < |es| - 1 && Accepted(s, es[j]) ensures es[j].key != e.key { assert before[j] == es[j]; }
      }
    }
  }

  /** `score` is the least upper bound of the score before and those of the events that count. */
  ghost predicate IsJoin(s: Store, u: UserId, es: seq<Event>, m: ModuleId, score: Option<real>) {
    && AtMost(Score(s, u, m), score)
    && (forall i :: CountsFor(s, es, i, m) ==> AtMost(Some(es[i].amount.value), score))
    && (score == Score(s, u, m) || exists i :: CountsFor(s, es, i, m) && score == Some(es[i].amount.value))
  }

  /**
   * After a batch every score of the user is the join of what it was and of the events that count;
   * other users' scores are as they were.
   */
  lemma {:induction false} BatchIsJoin(s: Store, u: UserId, es: seq<Event>, v: UserId, m: ModuleId)
    ensures v == u ==> IsJoin(s, u, es, m, Score(Completions(s, u, es), u, m))
    ensures v != u ==> Score(Completions(s, u, es), v, m) == Score(s, v, m)
    decreases |es|
  {
    if es != [] {
      var before, n := es[..|es| - 1], |es| - 1;
      var t := Completions(s, u, before);
      BatchIsJoin(s, u, before, v, m);
      CountsLast(s, u, es);
      if v == u { JoinSnoc(s, u, es, m, Score(t, u, m), Score(Complete(t, u, es[n]), u, m)); }
    }
  }

  lemma JoinSnoc(s: Store, u: UserId, es: seq<Event>, m: ModuleId, prior: Option<real>, next: Option<real>)
    requires es != [] && IsJoin(s, u, es[..|es| - 1], m, prior)
    requires next == if CountsFor(s, es, |es| - 1, m) && !AtMost(Some(es[|es| - 1].amount.value), prior)
                     then Some(es[|es| - 1].amount.value) else prior
    ensures IsJoin(s, u, es, m, next)
  {
    var before, n := es[..|es| - 1], |es| - 1;
    forall i | 0 <= i < n ensures CountsFor(s, before, i, m) <==> CountsFor(s, es, i, m) { CountsPrefix(s, es, i); }
    forall i | CountsFor(s, es, i, m) ensures AtMost(Some(es[i].amount.value), next) {
      if i < n { assert CountsFor(s, before, i, m); }
    }
    if next == prior && prior != Score(s, u, m) {
      var i :| CountsFor(s, before, i, m) && prior == Some(before[i].amount.value);
      assert CountsFor(s, es, i, m);
    }
  }

  // ----- what the device is told -----

  /** All fields are there, the amount is a percentage and the time can be read. */
  predicate WellMade(e: Event) {
    && e.key.Some? && e.key.value != "" && e.deviceId.Some? && e.deviceId.value != ""
    && e.moduleId.Some? && e.moduleId.value != ""
    && e.amount.Number? && 0.0 <= e.amount.value <= 100.0 && e.timestamp.Readable? && e.syncVersion.Some?
  }

  /** A field is absent, which is what a refused event is told before anything else. */
  predicate LacksField(e: Event) {
    || e.key == None || e.key == Some("") || e.deviceId == None || e.deviceId == Some("")
    || e.moduleId == None || e.moduleId == Some("")
    || e.amount == Missing || e.timestamp == NoStamp || e.syncVersion == None
  }

  /** Why an event is refused: the first of these that applies. */
  lemma RefusedFor(e: Event)
    ensures Flaw(e).NoReason? <==> WellMade(e)
    ensures Flaw(e).MissingFields? <==> LacksField(e)
    ensures Flaw(e).OutOfRange? <==> !LacksField(e) && !(e.amount.Number? && 0.0 <= e.amount.value <= 100.0)
    ensures Flaw(e).BadTimestamp? <==>
      !LacksField(e) && e.amount.Number? && 0.0 <= e.amount.value <= 100.0 && e.timestamp == Unreadable
  {
  }

  function KeyOr(e: Event, other: string): string {
    match e.key case Some(key) => key case None => other
  }

  /**
   * A completion is answered under its own key: `applied` exactly when it changed a score,
   * `rejected` exactly when it is badly made or, not seen before, of an unknown module, and
   * otherwise `skipped`; a skipped one seen before leaves everything as it was.
   */
  lemma CompletionAnswers(s: Store, u: UserId, e: Event)
    ensures var o, t := CompletionOutcome(s, u, e), Complete(s, u, e);
      && o.key == KeyOr(e, "unknown")
      && (o.status.Applied? <==> t.completions != s.completions) && (o.status.Applied? ==> o.reason == NoReason)
      && (o.status.Rejected? <==>
            !WellMade(e) || (!HasKey(s.events, e.key.value) && e.moduleId.value !in s.modules))
      && (o.status.Rejected? ==> t == s && o.reason == if WellMade(e) then UnknownModule else Flaw(e))
      && (o.status.Skipped? ==> o.reason == if HasKey(s.events, e.key.value) then NoReason else NotHigher)
      && (WellMade(e) && HasKey(s.events, e.key.value) ==> t == s)
  {
    RefusedFor(e);
    var t := Complete(s, u, e);
    hide Flaw, LacksField;
    if IsNew(s, e) && Higher(s, u, e) {
      assert (u, e.moduleId.value) in t.completions && t.completions[(u, e.moduleId.value)] == e.amount.value;
    }
  }

  /** What is recorded of a completion that was not refused and not seen before. */
  lemma CompletionIsRecorded(s: Store, u: UserId, e: Event)
    requires WellMade(e) && !HasKey(s.events, e.key.value) && e.moduleId.value in s.modules
    ensures var o, t := CompletionOutcome(s, u, e), Complete(s, u, e);
      && |t.events| == |s.events| + 1 && s.events <= t.events
      && var stored := t.events[|s.events|];
         && stored.key == e.key.value && stored.userId == u && stored.kind.Completion?
         && stored.syncVersion == e.syncVersion.value && stored.status == o.status
         && stored.payload == Payload(Completion, e.moduleId.value, e.amount.text)
  {
    RefusedFor(e);
  }

  /**
   * Progress is answered under its own key: `rejected` exactly when it is badly made, `applied`
   * exactly when it is recorded, and otherwise `skipped`, as seen before or as stale.
   */
  lemma ProgressAnswers(s: Store, u: UserId, e: Event)
    ensures var o, t := ProgressOutcome(s, u, e), Advance(s, u, e);
      && o.key == KeyOr(e, "unknown")
      && (o.status.Rejected? <==> !WellMade(e))
      && (o.status.Applied? <==> t != s)
      && (o.status.Rejected? ==> o.reason == Flaw(e))
      && (o.status.Skipped? ==> o.reason == if HasKey(s.events, e.key.value) then NoReason else Stale)
      && (t != s ==> o.reason == NoReason && !HasKey(s.events, e.key.value) && t.completions == s.completions)
  {
    RefusedFor(e);
    var t := Advance(s, u, e);
    hide Flaw, LacksField;
    assert Progresses(s, u, e) ==> |t.events| == |s.events| + 1;
  }

  /** What is recorded of progress that was applied. */
  lemma ProgressIsRecorded(s: Store, u: UserId, e: Event)
    requires ProgressOutcome(s, u, e).status.Applied?
    ensures var t := Advance(s, u, e);
      && WellMade(e) && |t.events| == |s.events| + 1 && s.events <= t.events
      && var stored := t.events[|s.events|];
         && stored.key == e.key.value && stored.userId == u && stored.kind.Progress? && stored.status.Applied?
         && stored.syncVersion == e.syncVersion.value
         && stored.payload == Payload(Progress, e.moduleId.value, e.amount.text)
  {
    RefusedFor(e);
  }

  /** There is one answer for each event, in order, given in the state that the events before it left. */
  lemma {:induction false} AnswersAreInOrder(s: Store, u: UserId, es: seq<Event>, i: nat)
    requires i < |es|
    ensures |CompletionOutcomes(s, u, es)| == |es| == |ProgressOutcomes(s, u, es)|
    ensures CompletionOutcomes(s, u, es)[i] == CompletionOutcome(Completions(s, u, es[..i]), u, es[i])
    ensures ProgressOutcomes(s, u, es)[i] == ProgressOutcome(Advances(s, u, es[..i]), u, es[i])
    decreases |es|
  {
    var before := es[..|es| - 1];
    if i < |before| {
      assert before[..i] == es[..i];
      AnswersAreInOrder(s, u, before, i);
    } else if before != [] {
      AnswersAreInOrder(s, u, before, 0);
    }
  }

  // ----- how a payload is spelled -----

  lemma TailsAre()
    ensures Tail(Progress) == "\",\"progressPercent\":" && Tail(Completion) == "\",\"score\":"
  {
  }

  /** The two payloads, as JSON.stringify writes them. */
  lemma PayloadIsTheJson(m: ModuleId, text: string)
    ensures Payload(Progress, m, text) == "{\"moduleId\":\"" + Escape(m) + "\",\"progressPercent\":" + text + "}"
    ensures Payload(Completion, m, text) == "{\"moduleId\":\"" + Escape(m) + "\",\"score\":" + text + "}"
  {
    hide Escape;
    TailsAre();
    hide Tail;
  }

  /** QuoteJSONString of ECMA-262, section 25.5.2.3: seven short escapes, hex for other controls, the rest plain. */
  lemma CharsAreQuoted(c: char)
    ensures match c as int
      case 8 => EscapeChar(c) == "\\b"
      case 9 => EscapeChar(c) == "\\t"
      case 10 => EscapeChar(c) == "\\n"
      case 12 => EscapeChar(c) == "\\f"
      case 13 => EscapeChar(c) == "\\r"
      case 34 => EscapeChar(c) == "\\\""
      case 92 => EscapeChar(c) == "\\\\"
      case n =>
        if n < 32 then EscapeChar(c) == "\\u00" + ["0123456789abcdef"[n / 16], "0123456789abcdef"[n % 16]]
        else EscapeChar(c) == [c]
  {
    var digits := "0123456789abcdef";
    forall n: nat | n < 16 ensures HexDigit(n) == digits[n] {}
  }

  // ----- sending again, in another order, or after a crash -----

  /** A batch whose accepted events are all recorded already changes nothing. */
  lemma {:induction false} RecordedBatchStutters(s: Store, u: UserId, es: seq<Event>)
    requires forall i :: 0 <= i < |es| && Accepted(s, es[i]) ==> HasKey(s.events, es[i].key.value)
    ensures Completions(s, u, es) == s
    decreases |es|
  {
    if es != [] {
      RecordedBatchStutters(s, u, es[..|es| - 1]);
    }
  }

  /** Sending any part of a batch again, by whichever user, leaves the whole store as it is. */
  lemma ResendingChangesNothing(s: Store, u: UserId, es: seq<Event>, v: UserId, again: seq<Event>)
    requires forall i :: 0 <= i < |again| ==> again[i] in es
    ensures var t := Completions(s, u, es); Completions(t, v, again) == t
  {
    var t := Completions(s, u, es);
    BatchKeys(s, u, es, "");
    forall i | 0 <= i < |again| && Accepted(t, again[i]) ensures HasKey(t.events, again[i].key.value) {
      BatchKeys(s, u, es, again[i].key.value);
      var j :| 0 <= j < |es| && es[j] == again[i];
      assert Accepted(s, es[j]);
    }
    RecordedBatchStutters(t, v, again);
  }

  /** Accepted events that share a key say the same thing. */
  predicate Consistent(s: Store, es: seq<Event>) {
    forall i, j :: 0 <= i < |es| && 0 <= j < |es| ==> Agree(s, es[i], es[j])
  }

  predicate Agree(s: Store, e: Event, f: Event) {
    Accepted(s, e) && Accepted(s, f) && e.key == f.key ==> e.moduleId == f.moduleId && e.amount.value == f.amount.value
  }

  /** Some event with the key of event `i` counts, and it says what event `i` says. */
  lemma {:induction false} FirstWithKey(s: Store, es: seq<Event>, i: nat) returns (k: nat)
    requires Consistent(s, es) && i < |es| && IsNew(s, es[i])
    ensures Counts(s, es, k) && es[k].moduleId == es[i].moduleId && es[k].amount.value == es[i].amount.value
    decreases i
  {
    if j :| 0 <= j < i && Accepted(s, es[j]) && es[j].key == es[i].key {
      assert Agree(s, es[j], es[i]);
      k := FirstWithKey(s, es, j);
    } else {
      k := i;
    }
  }

  lemma JoinBelow(s: Store, u: UserId, es: seq<Event>, fs: seq<Event>, m: ModuleId, a: Option<real>, b: Option<real>)
    requires IsJoin(s, u, es, m, a) && IsJoin(s, u, fs, m, b) && Consistent(s, fs)
    requires forall i :: 0 <= i < |es| ==> es[i] in fs
    ensures AtMost(a, b)
  {
    if a != Score(s, u, m) {
      var i :| CountsFor(s, es, i, m) && a == Some(es[i].amount.value);
      assert es[i] in fs;
      var j :| 0 <= j < |fs| && fs[j] == es[i];
      var k := FirstWithKey(s, fs, j);
      assert CountsFor(s, fs, k, m);
    }
  }

  /**
   * Order and repetition do not matter: two batches with the same events end with the same scores
   * and the same recorded keys, as long as events that share a key agree.
   */
  lemma SameEventsSameScores(s: Store, u: UserId, es: seq<Event>, fs: seq<Event>)
    requires Consistent(s, es) && forall e :: e in es <==> e in fs
    ensures Completions(s, u, es).completions == Completions(s, u, fs).completions
    ensures forall key :: HasKey(Completions(s, u, es).events, key) <==> HasKey(Completions(s, u, fs).events, key)
  {
    var x, y := Completions(s, u, es), Completions(s, u, fs);
    forall i, j | 0 <= i < |fs| && 0 <= j < |fs| ensures Agree(s, fs[i], fs[j]) {
      assert fs[i] in es && fs[j] in es;
      var p :| 0 <= p < |es| && es[p] == fs[i];
      var q :| 0 <= q < |es| && es[q] == fs[j];
      assert Agree(s, es[p], es[q]);
    }
    forall v, m ensures Score(x, v, m) == Score(y, v, m) {
      BatchIsJoin(s, u, es, v, m);
      BatchIsJoin(s, u, fs, v, m);
      if v == u {
        JoinBelow(s, u, es, fs, m, Score(x, u, m), Score(y, u, m));
        JoinBelow(s, u, fs, es, m, Score(y, u, m), Score(x, u, m));
      }
    }
    SameScores(x, y);
    forall key ensures HasKey(x.events, key) <==> HasKey(y.events, key) {
      BatchKeys(s, u, es, key);
      BatchKeys(s, u, fs, key);
      KnowsSame(s, es, fs, key);
      KnowsSame(s, fs, es, key);
    }
  }

  lemma KnowsSame(s: Store, es: seq<Event>, fs: seq<Event>, key: string)
    requires forall e :: e in es ==> e in fs
    ensures Knows(s, es, key) ==> Knows(s, fs, key)
  {
    if Knows(s, es, key) && !HasKey(s.events, key) {
      var i :| 0 <= i < |es| && Accepted(s, es[i]) && es[i].key.value == key;
      assert es[i] in fs;
    }
  }

  lemma SameScores(x: Store, y: Store)
    requires forall v, m :: Score(x, v, m) == Score(y, v, m)
    ensures x.completions == y.completions
  {
    forall p ensures p in x.completions <==> p in y.completions {
      assert Score(x, p.0, p.1) == Score(y, p.0, p.1);
    }
    forall p | p in x.completions ensures x.completions[p] == y.completions[p] {
      assert Score(x, p.0, p.1) == Score(y, p.0, p.1);
    }
  }

  /** That condition is needed: of two new events with one key only the one that comes first counts. */
  lemma SharedKeyFirstWins(s: Store, u: UserId, e: Event, f: Event)
    requires IsNew(s, e) && IsNew(s, f) && e.key == f.key
    ensures Completions(s, u, [e, f]) == Complete(s, u, e)
    ensures Completions(s, u, [e, f]).completions == Completions(s, u, [f, e]).completions
      <==> WriteScore(s, u, e).completions == WriteScore(s, u, f).completions
  {
    TwoWithOneKey(s, u, e, f);
    TwoWithOneKey(s, u, f, e);
  }

  lemma TwoWithOneKey(s: Store, u: UserId, e: Event, f: Event)
    requires IsNew(s, e) && IsNew(s, f) && e.key == f.key
    ensures Completions(s, u, [e, f]) == Complete(s, u, e)
  {
    assert [e, f][..1] == [e] && [e][..0] == [];
    CompleteHasKey(s, u, e, f.key.value);
    assert Completions(s, u, [e]) == Complete(s, u, e);
  }

  // A crash between the two writes of an event.

  ghost predicate Alike(s: Store, t: Store) {
    && s.completions == t.completions && s.modules == t.modules
    && forall key :: HasKey(s.events, key) <==> HasKey(t.events, key)
  }

  lemma {:induction false} BatchKeepsAlike(s: Store, t: Store, u: UserId, es: seq<Event>)
    requires Alike(s, t)
    ensures Alike(Completions(s, u, es), Completions(t, u, es))
    decreases |es|
  {
    if es != [] {
      var before, e := es[..|es| - 1], es[|es| - 1];
      BatchKeepsAlike(s, t, u, before);
      StepKeepsAlike(Completions(s, u, before), Completions(t, u, before), u, e);
    }
  }

  lemma StepKeepsAlike(s: Store, t: Store, u: UserId, e: Event)
    requires Alike(s, t)
    ensures Alike(Complete(s, u, e), Complete(t, u, e))
  {
    forall key ensures HasKey(Complete(s, u, e).events, key) <==> HasKey(Complete(t, u, e).events, key) {
      CompleteHasKey(s, u, e, key);
      CompleteHasKey(t, u, e, key);
    }
    CompleteHasKey(s, u, e, "");
    CompleteHasKey(t, u, e, "");
  }

  /** The store when the process dies in a batch after `n` events and the score of the next. */
  function Interrupted(s: Store, u: UserId, es: seq<Event>, n: nat): Store
    requires n < |es|
  {
    var t := Completions(s, u, es[..n]);
    if IsNew(t, es[n]) then WriteScore(t, u, es[n]) else t
  }

  lemma {:induction false} BatchSplit(s: Store, u: UserId, es: seq<Event>, n: nat)
    requires n <= |es|
    ensures Completions(s, u, es) == Completions(Completions(s, u, es[..n]), u, es[n..])
    decreases |es|
  {
    if n == |es| {
      assert es[..n] == es && es[n..] == [];
    } else {
      var before := es[..|es| - 1];
      BatchSplit(s, u, before, n);
      assert before[..n] == es[..n] && es[n..][..|es[n..]| - 1] == before[n..];
      assert es[n..][|es[n..]| - 1] == es[|es| - 1];
    }
  }

  /**
   * Score and record of an event are two separate writes.  Wherever a crash falls, even between
   * them, sending the whole batch again gives the scores and the recorded keys of an undisturbed one.
   */
  lemma ResendAfterCrash(s: Store, u: UserId, es: seq<Event>, n: nat)
    requires n < |es|
    ensures Alike(Completions(Interrupted(s, u, es, n), u, es), Completions(s, u, es))
  {
    var t, c := Completions(s, u, es[..n]), Interrupted(s, u, es, n);
    BatchKeys(s, u, es[..n], "");
    forall i | 0 <= i < n && Accepted(c, es[i]) ensures HasKey(c.events, es[i].key.value) {
      BatchKeys(s, u, es[..n], es[i].key.value);
      assert es[..n][i] == es[i] && Accepted(s, es[i]);
    }
    RecordedBatchStutters(c, u, es[..n]);
    BatchSplit(c, u, es, n);
    BatchSplit(s, u, es, n);
    RewriteIsAlike(t, c, u, es[n]);
    var rest := es[n..];
    assert rest[..1] == [es[n]] && [es[n]][..0] == [];
    BatchSplit(c, u, rest, 1);
    BatchSplit(t, u, rest, 1);
    assert Completions(c, u, [es[n]]) == Complete(c, u, es[n]) && Completions(t, u, [es[n]]) == Complete(t, u, es[n]);
    BatchKeepsAlike(Complete(c, u, es[n]), Complete(t, u, es[n]), u, rest[1..]);
  }

  lemma RewriteIsAlike(t: Store, c: Store, u: UserId, e: Event)
    requires c == if IsNew(t, e) then WriteScore(t, u, e) else t
    ensures Alike(Complete(c, u, e), Complete(t, u, e))
  {
    forall key ensures HasKey(Complete(c, u, e).events, key) <==> HasKey(Complete(t, u, e).events, key) {
      CompleteHasKey(c, u, e, key);
      CompleteHasKey(t, u, e, key);
    }
    CompleteHasKey(c, u, e, "");
    CompleteHasKey(t, u, e, "");
  }

  // Two requests at once.

  /** The writes of two requests that both compared their event with the score in `s`, `e` writing first. */
  function Overlapped(s: Store, u: UserId, e: Event, f: Event): map<(UserId, ModuleId), real>
    requires Flaw(e).NoReason? && Flaw(f).NoReason?
  {
    var first := WriteScore(s, u, e).completions;
    if Higher(s, u, f) then first[(u, f.moduleId.value) := f.amount.value] else first
  }

  /**
   * Two requests that update one score at the same time keep the join exactly when the event that
   * is written last is not the lower of two that both raise the score.
   */
  lemma OverlapKeepsJoinExactlyWhen(s: Store, u: UserId, e: Event, f: Event)
    requires IsNew(s, e) && IsNew(s, f) && e.key != f.key && e.moduleId == f.moduleId
    requires (u, e.moduleId.value) in s.completions
    ensures Overlapped(s, u, e, f) == Completions(s, u, [e, f]).completions
      <==> !(Higher(s, u, f) && f.amount.value < e.amount.value)
  {
    assert [e, f][..1] == [e] && [e][..0] == [];
    var t := Complete(s, u, e);
    assert Completions(s, u, [e]) == t && Completions(s, u, [e, f]) == Complete(t, u, f);
    CompleteHasKey(s, u, e, f.key.value);
    assert IsNew(t, f);
    var p := (u, f.moduleId.value);
    assert Complete(t, u, f).completions == WriteScore(t, u, f).completions;
    assert Overlapped(s, u, e, f)[p] == Complete(t, u, f).completions[p]
      ==> Overlapped(s, u, e, f) == Complete(t, u, f).completions;
  }

  // ----- progress -----

  /** A history of requests to the two endpoints, by any users. */
  datatype Request = ForProgress(u: UserId, es: seq<Event>) | ForCompletions(u: UserId, es: seq<Event>)

  function Serve(s: Store, history: seq<Request>): Store {
    if history == [] then s
    else
      var before := Serve(s, history[..|history| - 1]);
      match history[|history| - 1]
      case ForProgress(u, es) => Advances(before, u, es)
      case ForCompletions(u, es) => Completions(before, u, es)
  }

  function Empty(modules: set<ModuleId>): Store {
    Store([], map[], modules)
  }

  ghost predicate PayloadsMade(s: Store) {
    forall i :: 0 <= i < |s.events| ==> MadeFrom(s.events[i])
  }

  predicate MadeFrom(stored: Stored) {
    stored.payload == Payload(stored.kind, stored.moduleId, stored.text)
  }

  predicate IsFor(stored: Stored, u: UserId, m: ModuleId) {
    stored.kind.Progress? && stored.userId == u && stored.moduleId == m
  }

  predicate Backwards(events: seq<Stored>, u: UserId, m: ModuleId, i: int, j: int) {
    && 0 <= i < j < |events| && IsFor(events[i], u, m) && IsFor(events[j], u, m)
    && events[i].syncVersion > events[j].syncVersion
  }

  /** The versions applied for the user's module never decrease. */
  ghost predicate NeverBack(s: Store, u: UserId, m: ModuleId) {
    forall i, j :: !Backwards(s.events, u, m, i, j)
  }

  /** What the payloads of a module's progress begin with, whatever the number. */
  function Opening(m: ModuleId): string {
    HEAD + Escape(m) + Tail(Progress)
  }

  /** The lookup for a module finds the module's own events. */
  predicate FindsItself(m: ModuleId) {
    Contains(Opening(m), m)
  }

  lemma FoundWhateverTheNumber(m: ModuleId, text: string)
    requires FindsItself(m)
    ensures Contains(Payload(Progress, m, text), m)
  {
    hide Contains, Escape, Tail;
    PartOfMiddle("", Opening(m), text + "}", m);
    assert "" + Opening(m) + (text + "}") == Payload(Progress, m, text);
  }

  lemma AdvanceKeeps(s: Store, v: UserId, e: Event, u: UserId, m: ModuleId)
    requires PayloadsMade(s) && NeverBack(s, u, m) && FindsItself(m)
    ensures PayloadsMade(Advance(s, v, e)) && NeverBack(Advance(s, v, e), u, m)
  {
    var t := Advance(s, v, e);
    forall i, j ensures !Backwards(t.events, u, m, i, j) {
      assert !Backwards(s.events, u, m, i, j);
      if Backwards(t.events, u, m, i, j) && j == |s.events| {
        assert MadeFrom(s.events[i]);
        FoundWhateverTheNumber(m, s.events[i].text);
        assert Found(s.events[i], v, m);
      }
    }
  }

  lemma {:induction false} AdvancesKeep(s: Store, v: UserId, es: seq<Event>, u: UserId, m: ModuleId)
    requires PayloadsMade(s) && NeverBack(s, u, m) && FindsItself(m)
    ensures PayloadsMade(Advances(s, v, es)) && NeverBack(Advances(s, v, es), u, m)
    decreases |es|
  {
    if es != [] {
      AdvancesKeep(s, v, es[..|es| - 1], u, m);
      AdvanceKeeps(Advances(s, v, es[..|es| - 1]), v, es[|es| - 1], u, m);
    }
  }

  lemma {:induction false} CompletionsKeep(s: Store, v: UserId, es: seq<Event>, u: UserId, m: ModuleId)
    requires PayloadsMade(s) && NeverBack(s, u, m)
    ensures PayloadsMade(Completions(s, v, es)) && NeverBack(Completions(s, v, es), u, m)
    decreases |es|
  {
    if es != [] {
      CompletionsKeep(s, v, es[..|es| - 1], u, m);
      var before := Completions(s, v, es[..|es| - 1]);
      var after := Completions(s, v, es);
      forall i, j ensures !Backwards(after.events, u, m, i, j) {
        assert !Backwards(before.events, u, m, i, j);
      }
    }
  }

  lemma {:induction false} ServeKeeps(modules: set<ModuleId>, history: seq<Request>, u: UserId, m: ModuleId)
    requires FindsItself(m)
    ensures PayloadsMade(Serve(Empty(modules), history)) && NeverBack(Serve(Empty(modules), history), u, m)
    decreases |history|
  {
    if history != [] {
      ServeKeeps(modules, history[..|history| - 1], u, m);
      var before := Serve(Empty(modules), history[..|history| - 1]);
      match history[|history| - 1]
      case ForProgress(v, es) => AdvancesKeep(before, v, es, u, m);
      case ForCompletions(v, es) => CompletionsKeep(before, v, es, u, m);
    }
  }

  // How JSON prints numbers.

  predicate NumberText(text: string) {
    text != "" && forall i :: 0 <= i < |text| ==> text[i] in "0123456789.e-"
  }

  predicate InRange(value: real) {
    0.0 <= value <= 100.0
  }

  /** What is used of `JSON.stringify` on the numbers that the checks let through. */
  ghost predicate Prints(render: real -> string) {
    render(0.0) == "0" && render(1.0) == "1" && forall value :: InRange(value) ==> NumberText(render(value))
  }

  predicate Printed(render: real -> string, e: Event) {
    e.amount.Number? ==> e.amount.text == render(e.amount.value)
  }

  ghost predicate EventsPrinted(render: real -> string, es: seq<Event>) {
    forall k :: 0 <= k < |es| ==> Printed(render, es[k])
  }

  /** Every number of the history's progress events is spelled as it is printed. */
  ghost predicate AllPrinted(render: real -> string, history: seq<Request>) {
    forall i :: 0 <= i < |history| && history[i].ForProgress? ==> EventsPrinted(render, history[i].es)
  }

  predicate Named(names: set<ModuleId>, e: Event) {
    e.moduleId.Some? ==> e.moduleId.value in names
  }

  ghost predicate EventsNamed(names: set<ModuleId>, es: seq<Event>) {
    forall k :: 0 <= k < |es| ==> Named(names, es[k])
  }

  /** The history reports progress on these modules alone. */
  ghost predicate OnNames(names: set<ModuleId>, history: seq<Request>) {
    forall i :: 0 <= i < |history| && history[i].ForProgress? ==> EventsNamed(names, history[i].es)
  }

  function ProgressEvent(key: string, m: ModuleId, value: real, text: string, version: int): Event {
    Event(Some(key), Some("device"), Some(m), Number(value, text), Readable(0), Some(version))
  }

  lemma OneApplied(modules: set<ModuleId>, u: UserId, e: Event)
    requires Flaw(e).NoReason?
    ensures Serve(Empty(modules), [ForProgress(u, [e])]) == Record(Empty(modules), u, e, Progress, Applied)
  {
    var history := [ForProgress(u, [e])];
    assert history[..0] == [] && [e][..0] == [];
    assert Serve(Empty(modules), history) == Advances(Empty(modules), u, [e]) == Advance(Empty(modules), u, e);
  }

  /** Two events, the older one last, for a module whose lookup misses the first of them. */
  lemma LookupMissesItself(modules: set<ModuleId>, u: UserId, m: ModuleId, value: real, text: string)
    requires m != "" && InRange(value) && !Contains(Payload(Progress, m, text), m)
    ensures !NeverBack(Serve(Empty(modules),
      [ForProgress(u, [ProgressEvent("a", m, value, text, 2), ProgressEvent("b", m, value, text, 1)])]), u, m)
  {
    var e, f := ProgressEvent("a", m, value, text, 2), ProgressEvent("b", m, value, text, 1);
    var history := [ForProgress(u, [e, f])];
    assert history[..0] == [];
    assert [e, f][..1] == [e] && [e][..0] == [];
    var s := Empty(modules);
    var t := Advance(s, u, e);
    assert Advances(s, u, [e]) == t && t == Record(s, u, e, Progress, Applied);
    assert !HasKey(t.events, "b");
    assert !Found(t.events[0], u, m);
    assert Advances(s, u, [e, f]) == Advance(t, u, f) == Record(t, u, f, Progress, Applied);
    assert Serve(s, history) == Advances(s, u, [e, f]);
    assert Backwards(Record(t, u, f, Progress, Applied).events, u, m, 0, 1);
  }

  /** An occurrence that starts in the opening and runs into a one-digit number tells the digit. */
  lemma RunsIntoDigit(opening: string, digit: char, m: string, j: nat)
    requires PlainChar(digit) && j < |m| && !PlainChar(m[j]) && Contains(opening + [digit] + "}", m)
    ensures Contains(opening, m)
      || m[|m| - 1] == digit || (|m| >= 2 && m[|m| - 1] == '}' && m[|m| - 2] == digit)
  {
    var whole := opening + [digit] + "}";
    var k: nat :| k <= |whole| && ContainsAt(whole, m, k);
    assert whole[k + j] == m[j];
    assert whole[k + |m| - 1] == m[|m| - 1];
    if k + |m| <= |opening| {
      assert opening[k..k + |m|] == whole[k..k + |m|];
      assert ContainsAt(opening, m, k);
    } else if k + |m| == |opening| + 2 {
      assert whole[k + |m| - 2] == m[|m| - 2];
    }
  }

  /**
   * Whether a module's name is found in all the payloads written for it shows in what they begin
   * with: the numbers 0 and 1 already decide it.
   */
  lemma FoundInEveryPayload(render: real -> string, m: ModuleId)
    requires Prints(render)
    ensures FindsItself(m) <==> forall value :: InRange(value) ==> Contains(Payload(Progress, m, render(value)), m)
    ensures FindsItself(m)
      <==> Contains(Payload(Progress, m, render(0.0)), m) && Contains(Payload(Progress, m, render(1.0)), m)
  {
    if FindsItself(m) {
      forall value ensures Contains(Payload(Progress, m, render(value)), m) {
        FoundWhateverTheNumber(m, render(value));
      }
    } else if Plain(m) {
      PlainFindsItself(m);
    } else if Contains(Payload(Progress, m, render(0.0)), m) && Contains(Payload(Progress, m, render(1.0)), m) {
      var j :| 0 <= j < |m| && !PlainChar(m[j]);
      assert Opening(m) + ['0'] + "}" == Payload(Progress, m, "0");
      assert Opening(m) + ['1'] + "}" == Payload(Progress, m, "1");
      RunsIntoDigit(Opening(m), '0', m, j);
      RunsIntoDigit(Opening(m), '1', m, j);
    }
  }

  lemma SomePayloadMisses(render: real -> string, m: ModuleId) returns (value: real)
    requires Prints(render) && !FindsItself(m)
    ensures InRange(value) && !Contains(Payload(Progress, m, render(value)), m)
  {
    FoundInEveryPayload(render, m);
    value := if Contains(Payload(Progress, m, render(0.0)), m) then 1.0 else 0.0;
  }

  /**
   * In every history the versions applied for a module never decrease exactly when the module's
   * name occurs in what its payloads begin with, which is where the lookup searches.
   */
  lemma NeverBackExactlyWhenFound(render: real -> string, modules: set<ModuleId>, u: UserId, m: ModuleId)
    requires Prints(render) && m != ""
    ensures FindsItself(m) <==>
      forall history :: AllPrinted(render, history) ==> NeverBack(Serve(Empty(modules), history), u, m)
  {
    if FindsItself(m) {
      forall history ensures NeverBack(Serve(Empty(modules), history), u, m) { ServeKeeps(modules, history, u, m); }
    } else {
      var value := SomePayloadMisses(render, m);
      var text := render(value);
      LookupMissesItself(modules, u, m, value, text);
      var es := [ProgressEvent("a", m, value, text, 2), ProgressEvent("b", m, value, text, 1)];
      assert EventsPrinted(render, es);
      assert AllPrinted(render, [ForProgress(u, es)]);
    }
  }

  predicate Plain(text: string) {
    forall i :: 0 <= i < |text| ==> PlainChar(text[i])
  }

  lemma {:induction false} EscapePlain(text: string)
    requires Plain(text)
    ensures Escape(text) == text
    decreases |text|
  {
    if text != "" {
      EscapePlain(text[..|text| - 1]);
    }
  }

  /** A name without quotes, backslashes and control characters is found. */
  lemma PlainFindsItself(m: ModuleId)
    requires Plain(m)
    ensures FindsItself(m)
  {
    EscapePlain(m);
    assert ContainsAt(Opening(m), m, |HEAD|);
  }

  ghost predicate Printable(text: string) {
    forall c :: c in text ==> c >= ' '
  }

  lemma {:induction false} EscapeIsPrintable(text: string)
    ensures Printable(Escape(text))
    decreases |text|
  {
    if text != "" {
      EscapeIsPrintable(text[..|text| - 1]);
      EscapeCharIsPrintable(text[|text| - 1]);
    }
  }

  lemma EscapeCharIsPrintable(c: char)
    ensures Printable(EscapeChar(c))
  {
    if !PlainChar(c) && c != '"' && c != '\\' {
      var n := c as int;
      assert EscapeChar(c)[0] == '\\';
      assert |EscapeChar(c)| == 2 || EscapeChar(c) == "\\u00" + [HexDigit(n / 16), HexDigit(n % 16)];
    }
  }

  /** A name with a control character is written differently and never found: its versions can go back. */
  lemma ControlNameGoesBack(render: real -> string, modules: set<ModuleId>, u: UserId, m: ModuleId, i: nat)
    requires Prints(render) && i < |m| && m[i] < ' '
    ensures !FindsItself(m)
    ensures exists history :: !NeverBack(Serve(Empty(modules), history), u, m)
  {
    EscapeIsPrintable(m);
    OpeningIsPrintable(m);
    var opening := Opening(m);
    hide Opening;
    forall k: nat | k <= |opening| ensures !ContainsAt(opening, m, k) {
      assert k + |m| <= |opening| ==> opening[k + i] in opening;
    }
    NeverBackExactlyWhenFound(render, modules, u, m);
  }

  lemma OpeningIsPrintable(m: ModuleId)
    requires Printable(Escape(m))
    ensures Printable(Opening(m))
  {
    hide Escape, Tail;
    TailIsPrintable();
    assert forall c :: c in HEAD + Escape(m) + Tail(Progress) ==> c in HEAD || c in Escape(m) || c in Tail(Progress);
  }

  lemma TailIsPrintable()
    ensures Printable(HEAD) && Printable(Tail(Progress))
  {
  }

  // ----- other modules' versions -----

  predicate NewerOwn(events: seq<Stored>, u: UserId, m: ModuleId, version: int) {
    exists i :: 0 <= i < |events| && IsFor(events[i], u, m) && events[i].syncVersion > version
  }

  /** What the documentation promises: an event is stale exactly when its own module is further on. */
  ghost predicate MeansOwn(s: Store, u: UserId, m: ModuleId) {
    forall e :: Asks(s, e, m) ==>
      (ProgressOutcome(s, u, e).reason.Stale? <==> NewerOwn(s.events, u, m, e.syncVersion.value))
  }

  predicate Asks(s: Store, e: Event, m: ModuleId) {
    Flaw(e).NoReason? && e.moduleId == Some(m) && !HasKey(s.events, e.key.value)
  }

  /** Some payload written for `n` is found when `m` is looked up. */
  ghost predicate Hides(render: real -> string, n: ModuleId, m: ModuleId) {
    exists value :: InRange(value) && Contains(Payload(Progress, n, render(value)), m)
  }

  predicate StoredFits(names: set<ModuleId>, stored: Stored) {
    MadeFrom(stored) && (stored.kind.Progress? ==> stored.moduleId in names)
  }

  ghost predicate StoredPrinted(render: real -> string, stored: Stored) {
    stored.kind.Progress? ==> exists value :: InRange(value) && stored.text == render(value)
  }

  ghost predicate StoreFits(render: real -> string, names: set<ModuleId>, s: Store) {
    forall i :: 0 <= i < |s.events| ==> StoredFits(names, s.events[i]) && StoredPrinted(render, s.events[i])
  }

  lemma {:induction false} AdvancesFit(
      render: real -> string, names: set<ModuleId>, s: Store, u: UserId, es: seq<Event>)
    requires StoreFits(render, names, s) && EventsPrinted(render, es) && EventsNamed(names, es)
    ensures StoreFits(render, names, Advances(s, u, es))
    decreases |es|
  {
    if es != [] {
      var before, e := es[..|es| - 1], es[|es| - 1];
      forall k | 0 <= k < |before| ensures Printed(render, before[k]) && Named(names, before[k]) {
        assert before[k] == es[k] && Printed(render, es[k]) && Named(names, es[k]);
      }
      AdvancesFit(render, names, s, u, before);
      assert Printed(render, e) && Named(names, e);
      var t := Advances(s, u, before);
      if Progresses(t, u, e) {
        assert InRange(e.amount.value) && e.amount.text == render(e.amount.value);
      }
    }
  }

  lemma {:induction false} CompletionsFit(
      render: real -> string, names: set<ModuleId>, s: Store, u: UserId, es: seq<Event>)
    requires StoreFits(render, names, s)
    ensures StoreFits(render, names, Completions(s, u, es))
    decreases |es|
  {
    if es != [] {
      CompletionsFit(render, names, s, u, es[..|es| - 1]);
    }
  }

  lemma {:induction false} ServeFits(
      render: real -> string, modules: set<ModuleId>, names: set<ModuleId>, history: seq<Request>)
    requires AllPrinted(render, history) && OnNames(names, history)
    ensures StoreFits(render, names, Serve(Empty(modules), history))
    decreases |history|
  {
    if history != [] {
      var before, last := history[..|history| - 1], history[|history| - 1];
      forall k | 0 <= k < |before| && before[k].ForProgress?
        ensures EventsPrinted(render, before[k].es) && EventsNamed(names, before[k].es)
      {
        assert before[k] == history[k];
      }
      ServeFits(render, modules, names, before);
      hide StoreFits;
      match last
      case ForProgress(u, es) => AdvancesFit(render, names, Serve(Empty(modules), before), u, es);
      case ForCompletions(u, es) => CompletionsFit(render, names, Serve(Empty(modules), before), u, es);
    }
  }

  /** One applied event of module `n`, and an older one of `m`: the answer tells which payloads are found. */
  lemma OneEventDecides(
      render: real -> string, modules: set<ModuleId>, names: set<ModuleId>,
      u: UserId, n: ModuleId, m: ModuleId, value: real)
    requires Prints(render) && n in names && "" !in names && m != "" && InRange(value)
    requires forall history :: AllPrinted(render, history) && OnNames(names, history) ==>
      MeansOwn(Serve(Empty(modules), history), u, m)
    ensures Contains(Payload(Progress, n, render(value)), m) <==> n == m
  {
    var text := render(value);
    var e, f := ProgressEvent("a", n, value, text, 2), ProgressEvent("b", m, value, text, 1);
    var history := [ForProgress(u, [e])];
    assert EventsPrinted(render, [e]) && EventsNamed(names, [e]);
    assert AllPrinted(render, history) && OnNames(names, history);
    var s := Serve(Empty(modules), history);
    OneApplied(modules, u, e);
    assert |s.events| == 1 && s.events[0].payload == Payload(Progress, n, text) && s.events[0].moduleId == n;
    assert Asks(s, f, m);
    assert Found(s.events[0], u, m) <==> Contains(Payload(Progress, n, text), m);
    assert ProgressOutcome(s, u, f).reason.Stale? <==> NewerOwn(s.events, u, m, 1);
  }

  lemma FoundIsOwn(render: real -> string, names: set<ModuleId>, s: Store, u: UserId, m: ModuleId)
    requires StoreFits(render, names, s) && FindsItself(m)
    requires forall n :: n in names && n != m ==> !Hides(render, n, m)
    ensures MeansOwn(s, u, m)
  {
    hide Payload, Contains, FindsItself;
    forall i | 0 <= i < |s.events| ensures Found(s.events[i], u, m) <==> IsFor(s.events[i], u, m) {
      var stored := s.events[i];
      assert StoredFits(names, stored) && StoredPrinted(render, stored);
      if stored.kind.Progress? {
        if stored.moduleId == m {
          FoundWhateverTheNumber(m, stored.text);
        } else {
          assert !Hides(render, stored.moduleId, m);
        }
      }
    }
  }

  /**
   * For any modules in use: over all histories on them, staleness for module `m` means that `m`
   * itself is further on exactly when the name of `m` occurs in what its own payloads begin with,
   * and in no payload of another module in use.
   */
  lemma StaleMeansOwnExactlyWhen(
      render: real -> string, modules: set<ModuleId>, names: set<ModuleId>, u: UserId, m: ModuleId)
    requires Prints(render) && m in names && "" !in names
    ensures (forall history :: AllPrinted(render, history) && OnNames(names, history) ==>
              MeansOwn(Serve(Empty(modules), history), u, m))
      <==> FindsItself(m) && forall n :: n in names && n != m ==> !Hides(render, n, m)
  {
    if FindsItself(m) && forall n :: n in names && n != m ==> !Hides(render, n, m) {
      forall history | AllPrinted(render, history) && OnNames(names, history)
        ensures MeansOwn(Serve(Empty(modules), history), u, m)
      {
        ServeFits(render, modules, names, history);
        FoundIsOwn(render, names, Serve(Empty(modules), history), u, m);
      }
    } else if forall history :: AllPrinted(render, history) && OnNames(names, history) ==>
                MeansOwn(Serve(Empty(modules), history), u, m) {
      hide MeansOwn, Payload, Contains, FindsItself, Prints;
      if !FindsItself(m) {
        var value := SomePayloadMisses(render, m);
        OneEventDecides(render, modules, names, u, m, m, value);
      } else {
        var n :| n in names && n != m && Hides(render, n, m);
        var value :| InRange(value) && Contains(Payload(Progress, n, render(value)), m);
        OneEventDecides(render, modules, names, u, n, m, value);
      }
    }
  }

  /**
   * What hides `m` behind `n`: the name of `n` if it contains that of `m`, but also the text that is
   * in every payload, and any number that is printed with `m` in it.
   */
  lemma WhatHides(render: real -> string, n: ModuleId, m: ModuleId, value: real)
    requires Prints(render) && InRange(value)
    requires Contains(HEAD, m) || Contains(Escape(n), m) || Contains(Tail(Progress), m) || Contains(render(value), m)
    ensures Hides(render, n, m)
  {
    hide Contains, Escape, Tail;
    var text := render(value);
    var payload := Payload(Progress, n, text);
    if Contains(HEAD, m) {
      PartOfMiddle("", HEAD, Escape(n) + Tail(Progress) + text + "}", m);
      assert payload == "" + HEAD + (Escape(n) + Tail(Progress) + text + "}");
    } else if Contains(Escape(n), m) {
      PartOfMiddle(HEAD, Escape(n), Tail(Progress) + text + "}", m);
      assert payload == HEAD + Escape(n) + (Tail(Progress) + text + "}");
    } else if Contains(Tail(Progress), m) {
      PartOfMiddle(HEAD + Escape(n), Tail(Progress), text + "}", m);
      assert payload == HEAD + Escape(n) + Tail(Progress) + (text + "}");
    } else {
      PartOfMiddle(HEAD + Escape(n) + Tail(Progress), text, "}", m);
    }
  }

  lemma PartOfMiddle(before: string, middle: string, after: string, part: string)
    requires Contains(middle, part)
    ensures Contains(before + middle + after, part)
  {
    var k: nat :| k <= |middle| && ContainsAt(middle, part, k);
    var whole := before + middle + after;
    assert whole[|before|..|before| + |middle|] == middle;
    assert whole[|before| + k..|before| + k + |part|] == middle[k..k + |part|];
    assert ContainsAt(whole, part, |before| + k);
  }

  /** Names as long as UUIDs: longer than every fixed part of a payload and than any number in it. */
  predicate Uniform(n: ModuleId, text: string, length: nat) {
    Plain(n) && |n| == length && length > |"progressPercent"| && length > |text| + 2
  }

  /** Between quotes at these places there is room for a text of this length only at `start`. */
  lemma OnlyOnePlace(payload: string, part: string, k: nat, start: nat, end: nat)
    requires start <= end && |part| == end - start && |part| > 15 && 1 <= start
    requires end + 18 < |payload| < end + 19 + |part|
    requires payload[start - 1] == '"' && payload[end] == '"' && payload[end + 2] == '"' && payload[end + 18] == '"'
    requires ContainsAt(payload, part, k) && '"' !in part && start <= 15
    ensures k == start
  {
    forall q | k <= q < k + |part| ensures payload[q] != '"' {
      assert payload[q] == part[q - k];
    }
  }

  lemma TailQuotes()
    ensures var tail := Tail(Progress); |tail| == 20 && tail[0] == '"' && tail[2] == '"' && tail[18] == '"'
  {
  }

  lemma PayloadQuotes(n: ModuleId, text: string)
    requires Plain(n)
    ensures var payload := Payload(Progress, n, text); var start, end := |HEAD|, |HEAD| + |n|;
      && |payload| == end + 21 + |text| && payload[start..end] == n
      && payload[start - 1] == '"' && payload[end] == '"' && payload[end + 2] == '"' && payload[end + 18] == '"'
  {
    EscapePlain(n);
    TailQuotes();
    QuotesAt(HEAD, n, Tail(Progress), text + "}");
    hide Tail;
    assert HEAD + n + Tail(Progress) + (text + "}") == Payload(Progress, n, text);
  }

  lemma QuotesAt(head: string, n: string, tail: string, rest: string)
    requires head != "" && head[|head| - 1] == '"'
    requires |tail| == 20 && tail[0] == '"' && tail[2] == '"' && tail[18] == '"'
    ensures var payload := head + n + tail + rest; var end := |head| + |n|;
      && payload[|head|..end] == n
      && payload[|head| - 1] == '"' && payload[end] == '"' && payload[end + 2] == '"' && payload[end + 18] == '"'
  {
    assert (head + n + tail)[|head| + |n|..] == tail;
  }

  lemma UniformNamesDoNotMix(n: ModuleId, text: string, m: ModuleId)
    requires Uniform(n, text, |m|) && Plain(m) && Contains(Payload(Progress, n, text), m)
    ensures n == m
  {
    PayloadQuotes(n, text);
    var payload := Payload(Progress, n, text);
    hide Payload;
    var k: nat :| k <= |payload| && ContainsAt(payload, m, k);
    OnlyOnePlace(payload, m, k, |HEAD|, |HEAD| + |n|);
  }

  /**
   * Plain names of one length, above that of the fixed text and of every number, as UUIDs are, keep
   * the promise in every history.
   */
  lemma StaleMeansOwnModule(
      render: real -> string, modules: set<ModuleId>, names: set<ModuleId>,
      u: UserId, m: ModuleId, history: seq<Request>)
    requires Prints(render) && m in names
    requires forall n, value :: n in names && InRange(value) ==> Uniform(n, render(value), |m|)
    requires AllPrinted(render, history) && OnNames(names, history)
    ensures MeansOwn(Serve(Empty(modules), history), u, m)
  {
    assert InRange(0.0);
    assert forall n :: n in names ==> Uniform(n, render(0.0), |m|);
    PlainFindsItself(m);
    forall n | n in names && n != m ensures !Hides(render, n, m) {
      forall value | InRange(value) ensures !Contains(Payload(Progress, n, render(value)), m) {
        if Contains(Payload(Progress, n, render(value)), m) { UniformNamesDoNotMix(n, render(value), m); }
      }
    }
    ServeFits(render, modules, names, history);
    FoundIsOwn(render, names, Serve(Empty(modules), history), u, m);
  }
}
