/** The fixed-window rate limiter: one counter per client and route, started afresh when it has expired. */
module RateLimiter {
  import opened Wrappers

  datatype Entry = Entry(count: int, resetTime: int)

  datatype Limit = Limit(windowMs: nat, max: int)

  datatype Request = Request(key: string, now: int)

  // ----- one key -----

  predicate Expired(entry: Option<Entry>, now: int) {
    entry.None? || entry.value.resetTime < now
  }

  function Counted(l: Limit, entry: Option<Entry>, now: int): Entry {
    if Expired(entry, now) then Entry(1, now + l.windowMs)
    else Entry(entry.value.count + 1, entry.value.resetTime)
  }

  predicate Admits(l: Limit, entry: Option<Entry>, now: int) {
    Counted(l, entry, now).count <= l.max
  }

  /** A refused request still counts, unless its counter is new: then it is never stored. */
  function After(l: Limit, entry: Option<Entry>, now: int): Option<Entry> {
    if Admits(l, entry, now) || !Expired(entry, now) then Some(Counted(l, entry, now)) else entry
  }

  function Verdicts(l: Limit, entry: Option<Entry>, times: seq<int>): (vs: seq<bool>)
    ensures |vs| == |times|
    decreases |times|
  {
    if times == [] then [] else [Admits(l, entry, times[0])] + Verdicts(l, After(l, entry, times[0]), times[1..])
  }

  /** How many of the requests between `a` and `b`, both included, are let through. */
  function AdmittedIn(times: seq<int>, vs: seq<bool>, a: int, b: int): nat
    requires |times| == |vs|
    decreases |times|
  {
    if times == [] then 0
    else (if vs[0] && a <= times[0] <= b then 1 else 0) + AdmittedIn(times[1..], vs[1..], a, b)
  }

  predicate Monotone(times: seq<int>) {
    forall i, j :: 0 <= i < j < |times| ==> times[i] <= times[j]
  }

  function Room(l: Limit, entry: Entry): nat {
    if entry.count < l.max then l.max - entry.count else 0
  }

  lemma {:induction false} NothingAfter(times: seq<int>, vs: seq<bool>, a: int, b: int)
    requires Monotone(times) && |vs| == |times| && (times != [] ==> b < times[0])
    ensures AdmittedIn(times, vs, a, b) == 0
    decreases |times|
  {
    if times != [] { NothingAfter(times[1..], vs[1..], a, b); }
  }

  /** A window that lasts to the end of the interval admits no more than it has room for. */
  lemma {:induction false} WithinOneWindow(l: Limit, entry: Entry, times: seq<int>, a: int, b: int)
    requires Monotone(times) && entry.resetTime >= b
    ensures AdmittedIn(times, Verdicts(l, Some(entry), times), a, b) <= Room(l, entry)
    decreases |times|
  {
    if times != [] {
      var vs := Verdicts(l, Some(entry), times);
      if times[0] > b {
        NothingAfter(times, vs, a, b);
      } else {
        WithinOneWindow(l, After(l, Some(entry), times[0]).value, times[1..], a, b);
        assert vs[1..] == Verdicts(l, After(l, Some(entry), times[0]), times[1..]);
      }
    }
  }

  /** Once the interval has begun at most one more window can open in it. */
  lemma {:induction false} WithinTwoWindows(l: Limit, entry: Entry, times: seq<int>, a: int)
    requires Monotone(times) && (times != [] ==> a <= times[0]) && l.max >= 1
    ensures AdmittedIn(times, Verdicts(l, Some(entry), times), a, a + l.windowMs) <= Room(l, entry) + l.max
    decreases |times|
  {
    if times != [] {
      var next := After(l, Some(entry), times[0]).value;
      assert Verdicts(l, Some(entry), times)[1..] == Verdicts(l, Some(next), times[1..]);
      if Expired(Some(entry), times[0]) {
        WithinOneWindow(l, next, times[1..], a, a + l.windowMs);
      } else {
        WithinTwoWindows(l, next, times[1..], a);
      }
    }
  }

  lemma {:induction false} SlidingBoundFrom(l: Limit, entry: Entry, times: seq<int>, a: int)
    requires Monotone(times) && l.max >= 1 && entry.count >= 1
    ensures AdmittedIn(times, Verdicts(l, Some(entry), times), a, a + l.windowMs) <= 2 * l.max - 1
    decreases |times|
  {
    if times != [] {
      var next := After(l, Some(entry), times[0]).value;
      assert Verdicts(l, Some(entry), times)[1..] == Verdicts(l, Some(next), times[1..]);
      if a <= times[0] {
        WithinTwoWindows(l, entry, times, a);
      } else {
        SlidingBoundFrom(l, next, times[1..], a);
      }
    }
  }

  /**
   * For any monotone trace of requests, every closed interval as long as the window admits fewer
   * than twice the maximum: if it meets two windows, the first was opened before it began.
   */
  lemma SlidingBound(l: Limit, times: seq<int>, a: int)
    requires Monotone(times) && l.max >= 1
    ensures AdmittedIn(times, Verdicts(l, None, times), a, a + l.windowMs) <= 2 * l.max - 1
  {
    if times != [] {
      var next := After(l, None, times[0]).value;
      assert Verdicts(l, None, times)[1..] == Verdicts(l, Some(next), times[1..]);
      if a <= times[0] {
        WithinOneWindow(l, next, times[1..], a, a + l.windowMs);
      } else {
        SlidingBoundFrom(l, next, times[1..], a);
      }
    }
  }

  // ----- the bound is reached -----

  function Repeat(t: int, n: nat): seq<int> {
    seq(n, i => t)
  }

  /** Opens a window, fills it at its last instant, and fills the next one an instant later. */
  function Burst(l: Limit): seq<int>
    requires l.max >= 1
  {
    [0] + Repeat(l.windowMs, l.max - 1) + Repeat(l.windowMs + 1, l.max)
  }

  lemma {:induction false} FillsUp(l: Limit, entry: Entry, t: int, n: nat, rest: seq<int>, a: int, b: int)
    requires !Expired(Some(entry), t) && entry.count + n <= l.max && a <= t <= b
    ensures AdmittedIn(Repeat(t, n) + rest, Verdicts(l, Some(entry), Repeat(t, n) + rest), a, b)
         == n + AdmittedIn(rest, Verdicts(l, Some(Entry(entry.count + n, entry.resetTime)), rest), a, b)
    decreases n
  {
    var times := Repeat(t, n) + rest;
    if n == 0 {
      assert times == rest;
    } else {
      var next := Entry(entry.count + 1, entry.resetTime);
      assert times[1..] == Repeat(t, n - 1) + rest;
      FillsUp(l, next, t, n - 1, rest, a, b);
      assert Verdicts(l, Some(entry), times)[1..] == Verdicts(l, Some(next), times[1..]);
    }
  }

  lemma FillsNext(l: Limit, entry: Entry, t: int, a: int, b: int)
    requires l.max >= 1 && Expired(Some(entry), t) && a <= t <= b
    ensures AdmittedIn(Repeat(t, l.max), Verdicts(l, Some(entry), Repeat(t, l.max)), a, b) == l.max
  {
    var times, initial := Repeat(t, l.max), Entry(1, t + l.windowMs);
    assert times[1..] == Repeat(t, l.max - 1) + [];
    FillsUp(l, initial, t, l.max - 1, [], a, b);
    assert Verdicts(l, Some(entry), times)[1..] == Verdicts(l, Some(initial), times[1..]);
  }

  lemma BurstIsMonotone(l: Limit)
    requires l.max >= 1
    ensures Monotone(Burst(l))
  {
    var first := [0] + Repeat(l.windowMs, l.max - 1);
    forall i | 0 <= i < |Burst(l)|
      ensures Burst(l)[i] == if i == 0 then 0 else l.windowMs + (if i < |first| then 0 else 1)
    {
    }
  }

  /** Some monotone trace admits that many, whatever the maximum and the length of the window. */
  lemma SlidingBoundIsReached(l: Limit)
    requires l.max >= 1 && l.windowMs >= 1
    ensures Monotone(Burst(l))
    ensures AdmittedIn(Burst(l), Verdicts(l, None, Burst(l)), 1, 1 + l.windowMs) == 2 * l.max - 1
  {
    BurstIsMonotone(l);
    var w, times := l.windowMs, Burst(l);
    var first, second := Repeat(w, l.max - 1), Repeat(w + 1, l.max);
    assert times[1..] == first + second;
    var initial := Entry(1, w);
    assert Verdicts(l, None, times)[1..] == Verdicts(l, Some(initial), first + second);
    FillsUp(l, initial, w, l.max - 1, second, 1, 1 + w);
    FillsNext(l, Entry(l.max, w), w + 1, 1, 1 + w);
  }

  // ----- one window -----

  lemma {:induction false} WindowAdmitsFrom(l: Limit, entry: Entry, times: seq<int>, i: nat)
    requires i < |times| && forall j :: 0 <= j <= i ==> times[j] <= entry.resetTime
    ensures Verdicts(l, Some(entry), times)[i] <==> entry.count + i + 1 <= l.max
    decreases |times|
  {
    if i > 0 {
      WindowAdmitsFrom(l, After(l, Some(entry), times[0]).value, times[1..], i - 1);
    }
  }

  lemma {:induction false} NeverAdmits(l: Limit, entry: Option<Entry>, times: seq<int>, i: nat)
    requires l.max < 1 && i < |times| && forall j :: 0 <= j <= i ==> Expired(entry, times[j])
    ensures !Verdicts(l, entry, times)[i]
    decreases |times|
  {
    if i > 0 {
      assert After(l, entry, times[0]) == entry;
      NeverAdmits(l, entry, times[1..], i - 1);
    }
  }

  /** Of the requests that fall into one counter window exactly the first `max` are let through. */
  lemma WindowAdmitsTheFirst(l: Limit, entry: Option<Entry>, times: seq<int>, i: nat)
    requires Monotone(times) && times != [] && Expired(entry, times[0])
    requires i < |times| && times[i] <= times[0] + l.windowMs
    ensures Verdicts(l, entry, times)[i] <==> i < l.max
  {
    if l.max < 1 {
      NeverAdmits(l, entry, times, i);
    } else if i > 0 {
      WindowAdmitsFrom(l, After(l, entry, times[0]).value, times[1..], i - 1);
    }
  }

  /**
   * A counter that has not expired counts every request, refused ones too, and keeps its end; a new
   * one starts at one, ends a window later, and is kept only if it admits.
   */
  lemma EveryRequestCounts(l: Limit, entry: Option<Entry>, now: int)
    ensures if entry.Some? && now <= entry.value.resetTime then
              After(l, entry, now) == Some(Entry(entry.value.count + 1, entry.value.resetTime))
            else After(l, entry, now) == if l.max >= 1 then Some(Entry(1, now + l.windowMs)) else entry
  {
  }

  // ----- the store of all keys -----

  function Lookup(store: map<string, Entry>, key: string): Option<Entry> {
    if key in store then Some(store[key]) else None
  }

  function Put(store: map<string, Entry>, key: string, entry: Option<Entry>): map<string, Entry> {
    if entry.Some? then store[key := entry.value] else store
  }

  function Handle(l: Limit, store: map<string, Entry>, r: Request): map<string, Entry> {
    Put(store, r.key, After(l, Lookup(store, r.key), r.now))
  }

  function Served(l: Limit, store: map<string, Entry>, rs: seq<Request>): (vs: seq<bool>)
    ensures |vs| == |rs|
    decreases |rs|
  {
    if rs == [] then []
    else [Admits(l, Lookup(store, rs[0].key), rs[0].now)] + Served(l, Handle(l, store, rs[0]), rs[1..])
  }

  function TimesOf(rs: seq<Request>, key: string): seq<int> {
    if rs == [] then [] else (if rs[0].key == key then [rs[0].now] else []) + TimesOf(rs[1..], key)
  }

  function VerdictsOf(rs: seq<Request>, vs: seq<bool>, key: string): seq<bool>
    requires |vs| == |rs|
  {
    if rs == [] then [] else (if rs[0].key == key then [vs[0]] else []) + VerdictsOf(rs[1..], vs[1..], key)
  }

  /** Keys do not disturb each other: what a key gets depends on its own requests alone. */
  lemma {:induction false} KeysAreIndependent(l: Limit, store: map<string, Entry>, rs: seq<Request>, key: string)
    ensures VerdictsOf(rs, Served(l, store, rs), key) == Verdicts(l, Lookup(store, key), TimesOf(rs, key))
    decreases |rs|
  {
    if rs != [] {
      var next := Handle(l, store, rs[0]);
      KeysAreIndependent(l, next, rs[1..], key);
      assert Served(l, store, rs)[1..] == Served(l, next, rs[1..]);
      var rest := TimesOf(rs[1..], key);
      if rs[0].key == key {
        assert ([rs[0].now] + rest)[1..] == rest;
        assert Lookup(next, key) == After(l, Lookup(store, key), rs[0].now);
      } else {
        assert Lookup(next, key) == Lookup(store, key) && TimesOf(rs, key) == rest;
      }
    }
  }

  /** Every time of a key is the time of one of its requests. */
  lemma {:induction false} TimeHasRequest(rs: seq<Request>, key: string, i: nat) returns (j: nat)
    requires i < |TimesOf(rs, key)|
    ensures j < |rs| && rs[j].now == TimesOf(rs, key)[i]
    decreases |rs|
  {
    if rs[0].key == key && i == 0 {
      j := 0;
    } else {
      var k := TimeHasRequest(rs[1..], key, if rs[0].key == key then i - 1 else i);
      j := k + 1;
    }
  }

  lemma {:induction false} TimesAreMonotone(rs: seq<Request>, key: string)
    requires forall i, j :: 0 <= i < j < |rs| ==> rs[i].now <= rs[j].now
    ensures Monotone(TimesOf(rs, key))
    decreases |rs|
  {
    if rs != [] {
      TimesAreMonotone(rs[1..], key);
      var rest := TimesOf(rs[1..], key);
      if rs[0].key == key {
        forall i | 0 <= i < |rest| ensures rs[0].now <= rest[i] {
          var j := TimeHasRequest(rs[1..], key, i);
          assert rs[0].now <= rs[j + 1].now;
        }
        assert TimesOf(rs, key) == [rs[0].now] + rest;
      } else {
        assert TimesOf(rs, key) == rest;
      }
    }
  }

  /** The bound for every client and route of a limiter that starts with an empty store. */
  lemma EveryKeyIsBounded(l: Limit, rs: seq<Request>, key: string, a: int)
    requires l.max >= 1 && forall i, j :: 0 <= i < j < |rs| ==> rs[i].now <= rs[j].now
    ensures var times, vs := TimesOf(rs, key), VerdictsOf(rs, Served(l, map[], rs), key);
      |times| == |vs| && AdmittedIn(times, vs, a, a + l.windowMs) <= 2 * l.max - 1
  {
    KeysAreIndependent(l, map[], rs, key);
    TimesAreMonotone(rs, key);
    SlidingBound(l, TimesOf(rs, key), a);
  }

  class Limiter {
    const limit: Limit
    var store: map<string, Entry>

    constructor (l: Limit)
      ensures limit == l && store == map[]
    {
      limit, store := l, map[];
    }

    /** A counter that is in the store is counted in place, so refusing does not undo it. */
    method Check(key: string, now: int) returns (admitted: bool)
      modifies this
      ensures store == Handle(limit, old(store), Request(key, now))
      ensures admitted <==> Admits(limit, Lookup(old(store), key), now)
    {
      var data := Entry(0, now + limit.windowMs);
      var stored := key in store && !(store[key].resetTime < now);
      if stored {
        data := store[key];
      }
      data := data.(count := data.count + 1);
      if stored {
        store := store[key := data];
      }
      if data.count > limit.max {
        return false;
      }
      store := store[key := data];
      admitted := true;
    }
  }
}
