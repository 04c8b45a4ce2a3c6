/**
 * Reconciling what a device did offline.  A batch is a list of events; each is checked, compared
 * with what is stored and either applied, skipped or rejected.
 */
module OfflineSync {
  import opened Wrappers

  type UserId = nat
  type ModuleId = string

  /** A JSON field that should hold a number; `text` is how the number is printed. */
  datatype Amount = Missing | OtherType | Number(value: real, text: string)

  datatype Stamp = NoStamp | Unreadable | Readable(ms: int)

  /** `amount` is the score of a completion or the percentage of a progress event. */
  datatype Event = Event(
    key: Option<string>,
    deviceId: Option<string>,
    moduleId: Option<ModuleId>,
    amount: Amount,
    timestamp: Stamp,
    syncVersion: Option<int>)

  datatype Kind = Progress | Completion

  datatype Status = Applied | Skipped | Rejected

  datatype Reason = NoReason | MissingFields | OutOfRange | BadTimestamp | UnknownModule | NotHigher | Stale

  datatype Outcome = Outcome(key: string, status: Status, reason: Reason)

  /** The last two are what the payload was made from; no operation reads them. */
  datatype Stored = Stored(
    key: string,
    userId: UserId,
    kind: Kind,
    payload: string,
    syncVersion: int,
    status: Status,
    moduleId: ModuleId,
    text: string)

  /** `events` is in the order of creation. */
  datatype Store = Store(events: seq<Stored>, completions: map<(UserId, ModuleId), real>, modules: set<ModuleId>)

  // ----- the checks that both endpoints make -----

  predicate Present(field: Option<string>) {
    field.Some? && field.value != ""
  }

  function Flaw(e: Event): (r: Reason)
    ensures r.NoReason? ==> e.key.Some? && e.moduleId.Some? && e.amount.Number? && e.syncVersion.Some?
  {
    if !Present(e.key) || !Present(e.deviceId) || !Present(e.moduleId)
       || e.amount.Missing? || e.timestamp.NoStamp? || e.syncVersion.None? then MissingFields
    else if !e.amount.Number? || e.amount.value < 0.0 || e.amount.value > 100.0 then OutOfRange
    else if e.timestamp.Unreadable? then BadTimestamp
    else NoReason
  }

  predicate HasKey(events: seq<Stored>, key: string) {
    exists i :: 0 <= i < |events| && events[i].key == key
  }

  function Refuse(e: Event, reason: Reason): Outcome {
    Outcome(if e.key.Some? then e.key.value else "unknown", Rejected, reason)
  }

  // ----- completions -----

  function Record(s: Store, u: UserId, e: Event, kind: Kind, status: Status): Store
    requires Flaw(e).NoReason?
  {
    s.(events := s.events + [
      Stored(e.key.value, u, kind, Payload(kind, e.moduleId.value, e.amount.text), e.syncVersion.value, status,
             e.moduleId.value, e.amount.text)])
  }

  predicate Higher(s: Store, u: UserId, e: Event)
    requires Flaw(e).NoReason?
  {
    (u, e.moduleId.value) !in s.completions || e.amount.value > s.completions[(u, e.moduleId.value)]
  }

  /** The first of the two writes for an event. */
  function WriteScore(s: Store, u: UserId, e: Event): Store
    requires Flaw(e).NoReason?
  {
    if Higher(s, u, e) then s.(completions := s.completions[(u, e.moduleId.value) := e.amount.value]) else s
  }

  predicate Accepted(s: Store, e: Event) {
    Flaw(e).NoReason? && e.moduleId.value in s.modules
  }

  predicate IsNew(s: Store, e: Event) {
    Accepted(s, e) && !HasKey(s.events, e.key.value)
  }

  function Complete(s: Store, u: UserId, e: Event): Store {
    if !IsNew(s, e) then s
    else Record(WriteScore(s, u, e), u, e, Completion, if Higher(s, u, e) then Applied else Skipped)
  }

  function CompletionOutcome(s: Store, u: UserId, e: Event): Outcome {
    if !Flaw(e).NoReason? then Refuse(e, Flaw(e))
    else if HasKey(s.events, e.key.value) then Outcome(e.key.value, Skipped, NoReason)
    else if e.moduleId.value !in s.modules then Refuse(e, UnknownModule)
    else if Higher(s, u, e) then Outcome(e.key.value, Applied, NoReason)
    else Outcome(e.key.value, Skipped, NotHigher)
  }

  function Completions(s: Store, u: UserId, es: seq<Event>): Store {
    if es == [] then s else Complete(Completions(s, u, es[..|es| - 1]), u, es[|es| - 1])
  }

  // ----- progress -----

  /** The characters that JSON writes as they are. */
  predicate PlainChar(c: char) {
    c >= ' ' && c != '"' && c != '\\'
  }

  function HexDigit(n: nat): (d: char)
    requires n < 16
    ensures d >= '0'
  {
    if n < 10 then '0' + n as char else 'a' + (n - 10) as char
  }

  function EscapeChar(c: char): string {
    if PlainChar(c) then [c]
    else if c == '"' || c == '\\' then ['\\', c]
    else if c == '\n' then "\\n"
    else if c == '\r' then "\\r"
    else if c == '\t' then "\\t"
    else if c as int == 8 then "\\b"
    else if c as int == 12 then "\\f"
    else "\\u00" + [HexDigit(c as int / 16), HexDigit(c as int % 16)]
  }

  function Escape(text: string): string {
    if text == "" then "" else Escape(text[..|text| - 1]) + EscapeChar(text[|text| - 1])
  }

  const HEAD := "{\"moduleId\":\""

  function Tail(kind: Kind): string {
    "\",\"" + (if kind.Progress? then "progressPercent" else "score") + "\":"
  }

  function Payload(kind: Kind, moduleId: ModuleId, text: string): string {
    HEAD + Escape(moduleId) + Tail(kind) + text + "}"
  }

  predicate ContainsAt(text: string, part: string, i: nat) {
    i + |part| <= |text| && text[i..i + |part|] == part
  }

  predicate Contains(text: string, part: string) {
    exists i: nat :: i <= |text| && ContainsAt(text, part, i)
  }

  /** The query for a module's events looks for its name anywhere in the payload. */
  predicate Found(stored: Stored, u: UserId, m: ModuleId) {
    stored.userId == u && stored.kind.Progress? && Contains(stored.payload, m)
  }

  predicate NewerFound(events: seq<Stored>, u: UserId, m: ModuleId, version: int) {
    exists i :: 0 <= i < |events| && Found(events[i], u, m) && events[i].syncVersion > version
  }

  predicate Progresses(s: Store, u: UserId, e: Event) {
    Flaw(e).NoReason? && !HasKey(s.events, e.key.value)
    && !NewerFound(s.events, u, e.moduleId.value, e.syncVersion.value)
  }

  function Advance(s: Store, u: UserId, e: Event): Store {
    if Progresses(s, u, e) then Record(s, u, e, Progress, Applied) else s
  }

  function ProgressOutcome(s: Store, u: UserId, e: Event): Outcome {
    if !Flaw(e).NoReason? then Refuse(e, Flaw(e))
    else if HasKey(s.events, e.key.value) then Outcome(e.key.value, Skipped, NoReason)
    else if NewerFound(s.events, u, e.moduleId.value, e.syncVersion.value) then Outcome(e.key.value, Skipped, Stale)
    else Outcome(e.key.value, Applied, NoReason)
  }

  function Advances(s: Store, u: UserId, es: seq<Event>): Store {
    if es == [] then s else Advance(Advances(s, u, es[..|es| - 1]), u, es[|es| - 1])
  }

  function CompletionOutcomes(s: Store, u: UserId, es: seq<Event>): seq<Outcome> {
    if es == [] then []
    else
      var before := es[..|es| - 1];
      CompletionOutcomes(s, u, before) + [CompletionOutcome(Completions(s, u, before), u, es[|es| - 1])]
  }

  function ProgressOutcomes(s: Store, u: UserId, es: seq<Event>): seq<Outcome> {
    if es == [] then []
    else
      var before := es[..|es| - 1];
      ProgressOutcomes(s, u, before) + [ProgressOutcome(Advances(s, u, before), u, es[|es| - 1])]
  }

  // ----- the controller -----

  class SyncController {
    var events: seq<Stored>
    var completions: map<(UserId, ModuleId), real>
    const modules: set<ModuleId>

    ghost function View(): Store
      reads this
    {
      Store(events, completions, modules)
    }

    constructor (known: set<ModuleId>)
      ensures View() == Store([], map[], known)
    {
      events, completions, modules := [], map[], known;
    }

    method FindKey(key: string) returns (found: bool)
      ensures found <==> HasKey(events, key)
    {
      found := false;
      for i := 0 to |events|
        invariant !HasKey(events[..i], key)
      {
        if events[i].key == key {
          return true;
        }
      }
      assert events[..|events|] == events;
    }

    /** The greatest version among the events found for the module. */
    method LatestFor(u: UserId, m: ModuleId) returns (latest: Option<int>)
      ensures latest.Some? ==>
        exists i :: 0 <= i < |events| && Found(events[i], u, m) && events[i].syncVersion == latest.value
      ensures forall i :: 0 <= i < |events| && Found(events[i], u, m) ==>
        latest.Some? && events[i].syncVersion <= latest.value
    {
      latest := None;
      for i := 0 to |events|
        invariant latest.Some? ==>
          exists j :: 0 <= j < i && Found(events[j], u, m) && events[j].syncVersion == latest.value
        invariant forall j :: 0 <= j < i && Found(events[j], u, m) ==>
          latest.Some? && events[j].syncVersion <= latest.value
      {
        if Found(events[i], u, m) && (latest.None? || events[i].syncVersion > latest.value) {
          latest := Some(events[i].syncVersion);
        }
      }
    }

    method Create(u: UserId, e: Event, kind: Kind, status: Status)
      requires Flaw(e).NoReason?
      modifies this
      ensures View() == Record(old(View()), u, e, kind, status)
    {
      events := events + [
        Stored(e.key.value, u, kind, Payload(kind, e.moduleId.value, e.amount.text), e.syncVersion.value, status,
               e.moduleId.value, e.amount.text)];
    }

    method SyncCompletion(u: UserId, e: Event) returns (o: Outcome)
      modifies this
      ensures View() == Complete(old(View()), u, e)
      ensures o == CompletionOutcome(old(View()), u, e)
    {
      var flaw := Flaw(e);
      if !flaw.NoReason? {
        return Refuse(e, flaw);
      }
      var existing := FindKey(e.key.value);
      if existing {
        return Outcome(e.key.value, Skipped, NoReason);
      }
      var m := e.moduleId.value;
      if m !in modules {
        return Refuse(e, UnknownModule);
      }
      if (u, m) in completions {
        if e.amount.value <= completions[(u, m)] {
          Create(u, e, Completion, Skipped);
          return Outcome(e.key.value, Skipped, NotHigher);
        }
        completions := completions[(u, m) := e.amount.value];
      } else {
        completions := completions[(u, m) := e.amount.value];
      }
      Create(u, e, Completion, Applied);
      o := Outcome(e.key.value, Applied, NoReason);
    }

    method SyncCompletions(u: UserId, es: seq<Event>) returns (r: Result<seq<Outcome>, string>)
      modifies this
      ensures View() == Completions(old(View()), u, es)
      ensures r == if es == [] then Err("events must be a non-empty array")
                   else Ok(CompletionOutcomes(old(View()), u, es))
    {
      if |es| == 0 {
        return Err("events must be a non-empty array");
      }
      ghost var start := View();
      var results := [];
      for i := 0 to |es|
        invariant View() == Completions(start, u, es[..i])
        invariant results == CompletionOutcomes(start, u, es[..i])
      {
        assert es[..i + 1][..i] == es[..i];
        var o := SyncCompletion(u, es[i]);
        results := results + [o];
      }
      assert es[..|es|] == es;
      r := Ok(results);
    }

    method SyncOneProgress(u: UserId, e: Event) returns (o: Outcome)
      modifies this
      ensures View() == Advance(old(View()), u, e)
      ensures o == ProgressOutcome(old(View()), u, e)
    {
      var flaw := Flaw(e);
      if !flaw.NoReason? {
        return Refuse(e, flaw);
      }
      var existing := FindKey(e.key.value);
      if existing {
        return Outcome(e.key.value, Skipped, NoReason);
      }
      var latest := LatestFor(u, e.moduleId.value);
      if latest.Some? && latest.value > e.syncVersion.value {
        return Outcome(e.key.value, Skipped, Stale);
      }
      Create(u, e, Progress, Applied);
      o := Outcome(e.key.value, Applied, NoReason);
    }

    method SyncProgress(u: UserId, es: seq<Event>) returns (r: Result<seq<Outcome>, string>)
      modifies this
      ensures View() == Advances(old(View()), u, es)
      ensures r == if es == [] then Err("events must be a non-empty array")
                   else Ok(ProgressOutcomes(old(View()), u, es))
    {
      if |es| == 0 {
        return Err("events must be a non-empty array");
      }
      ghost var start := View();
      var results := [];
      for i := 0 to |es|
        invariant View() == Advances(start, u, es[..i])
        invariant results == ProgressOutcomes(start, u, es[..i])
      {
        assert es[..i + 1][..i] == es[..i];
        var o := SyncOneProgress(u, es[i]);
        results := results + [o];
      }
      assert es[..|es|] == es;
      r := Ok(results);
    }
  }
}
