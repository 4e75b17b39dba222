/** The rate limiter (go/middleware/ratelimit.go): per key, a window opened by its first
    call. Times and durations are integers (nanoseconds); the clock is an input. */
module RateLimiter {

  datatype Counter = Counter(count: int, firstCall: int)

  datatype State = State(counters: map<string, Counter>, windows: map<string, int>)

  datatype Event =
    | Allow(key: string, limit: int, now: int)
    | SetWindow(key: string, window: int)
    | Reset(key: string)

  const MINUTE: int := 60_000_000_000

  function Window(s: State, key: string): int {
    if key in s.windows && s.windows[key] != 0 then s.windows[key] else MINUTE
  }

  /** The call opens a window: there is none, or it is over. */
  predicate Opens(s: State, key: string, now: int) {
    key !in s.counters || now - s.counters[key].firstCall > Window(s, key)
  }

  predicate Allowed(s: State, key: string, limit: int, now: int) {
    Opens(s, key, now) || s.counters[key].count < limit
  }

  function Next(s: State, e: Event): State {
    match e
    case SetWindow(key, window) => s.(windows := s.windows[key := window])
    case Reset(key) => s.(counters := s.counters - {key})
    case Allow(key, limit, now) =>
      if Opens(s, key, now) then s.(counters := s.counters[key := Counter(1, now)])
      else if s.counters[key].count < limit
      then s.(counters := s.counters[key := s.counters[key].(count := s.counters[key].count + 1)])
      else s
  }

  class Limiter {
    var counters: map<string, Counter>
    var windows: map<string, int>

    constructor ()
      ensures Value() == State(map[], map[])
    {
      counters, windows := map[], map[];
    }

    function Value(): State
      reads this
    {
      State(counters, windows)
    }

    method SetWindow(key: string, window: int)
      modifies this
      ensures Value() == Next(old(Value()), Event.SetWindow(key, window))
    {
      windows := windows[key := window];
    }

    method Allow(key: string, limit: int, now: int) returns (ok: bool)
      modifies this
      ensures ok == Allowed(old(Value()), key, limit, now)
      ensures Value() == Next(old(Value()), Event.Allow(key, limit, now))
    {
      var window := if key in windows then windows[key] else 0;
      if window == 0 { window := MINUTE; }
      if key !in counters || now - counters[key].firstCall > window {
        counters := counters[key := Counter(1, now)];
        return true;
      }
      if counters[key].count >= limit { return false; }
      counters := counters[key := counters[key].(count := counters[key].count + 1)];
      return true;
    }

    method Reset(key: string)
      modifies this
      ensures Value() == Next(old(Value()), Event.Reset(key))
    {
      counters := counters - {key};
    }
  }

  // ---- Runs ----

  function After(s0: State, events: seq<Event>): State {
    if events == [] then s0 else Next(After(s0, events[..|events| - 1]), events[|events| - 1])
  }

  /** How many calls for the key were allowed at times from a to b. */
  ghost function CountIn(s0: State, events: seq<Event>, key: string, a: int, b: int): nat {
    if events == [] then 0
    else
      var n := |events| - 1;
      var e := events[n];
      CountIn(s0, events[..n], key, a, b) +
      if && e.Allow? && e.key == key && a <= e.now <= b
         && Allowed(After(s0, events[..n]), key, e.limit, e.now) then 1 else 0
  }

  /** One key's calls have one limit and a clock that never falls (`last` is a bound on its
      readings so far), and the key is never reset and its window never changed. Other keys
      do what they like. */
  ghost predicate Regular(events: seq<Event>, key: string, limit: int, last: int) {
    && (forall i :: 0 <= i < |events| && events[i].key == key ==>
          events[i].Allow? && events[i].limit == limit && events[i].now <= last)
    && (forall i, j :: 0 <= i < j < |events| && events[i].key == key && events[j].key == key ==>
          events[i].now <= events[j].now)
  }

  ghost predicate Fresh(s0: State, key: string, window: int) {
    key !in s0.counters && Window(s0, key) == window
  }

  /** A first call is allowed whatever the limit. */
  function Most(limit: int): int {
    if limit < 1 then 1 else limit
  }

  lemma RegularPrefix(events: seq<Event>, key: string, limit: int, last: int) returns (last': int)
    requires Regular(events, key, limit, last) && events != []
    ensures Regular(events[..|events| - 1], key, limit, last') && last' <= last
    ensures var e := events[|events| - 1]; if e.key == key then last' == e.now else last' == last
  {
    var n := |events| - 1;
    last' := if events[n].key == key then events[n].now else last;
  }

  // ---- Counting ----

  lemma {:induction false} CountSplits(s0: State, events: seq<Event>, key: string, a: int, b: int, c: int)
    requires a <= b + 1 && b <= c
    ensures CountIn(s0, events, key, a, c) == CountIn(s0, events, key, a, b) + CountIn(s0, events, key, b + 1, c)
  {
    if events != [] { CountSplits(s0, events[..|events| - 1], key, a, b, c); }
  }

  lemma {:induction false} CountNone(s0: State, events: seq<Event>, key: string, a: int, b: int)
    requires b < a
    ensures CountIn(s0, events, key, a, b) == 0
  {
    if events != [] { CountNone(s0, events[..|events| - 1], key, a, b); }
  }

  /** A smaller interval has fewer calls. */
  lemma {:induction false} CountShrinks(s0: State, events: seq<Event>, key: string, a: int, b: int, a': int, b': int)
    requires a <= a' && b' <= b
    ensures CountIn(s0, events, key, a', b') <= CountIn(s0, events, key, a, b)
  {
    if events != [] { CountShrinks(s0, events[..|events| - 1], key, a, b, a', b'); }
  }

  lemma {:induction false} CountUpTo(s0: State, events: seq<Event>, key: string, limit: int, last: int, a: int, b: int)
    requires Regular(events, key, limit, last) && last <= b
    ensures CountIn(s0, events, key, a, b) == CountIn(s0, events, key, a, last)
  {
    if events != [] { CountUpTo(s0, events[..|events| - 1], key, limit, last, a, b); }
  }

  // ---- What the counter means ----

  ghost predicate WindowOk(s0: State, events: seq<Event>, key: string, limit: int, window: int, last: int) {
    var s := After(s0, events);
    && Window(s, key) == window
    && if key !in s.counters then true
       else
         var first, count := s.counters[key].firstCall, s.counters[key].count;
         && first <= last && 1 <= count <= Most(limit)
         && CountIn(s0, events, key, first, last) == count
         && CountIn(s0, events, key, first + 1, last) <= count - 1
         && CountIn(s0, events, key, first + window + 1, last) == 0
         && CountIn(s0, events, key, first - window, first - 1) <= Most(limit) - 1
  }

  /** No interval as long as the window holds more than this many allowed calls. */
  ghost predicate Spread(s0: State, events: seq<Event>, key: string, limit: int, window: int) {
    forall a, b :: b - a <= window ==> CountIn(s0, events, key, a, b) <= 2 * Most(limit) - 1
  }

  /** The key was never called. */
  lemma {:induction false} NeverCalled(s0: State, events: seq<Event>, key: string, limit: int, last: int,
                                       a: int, b: int)
    requires Regular(events, key, limit, last) && key !in After(s0, events).counters
    ensures CountIn(s0, events, key, a, b) == 0
  {
    if events != [] {
      assert events[|events| - 1].key != key;
      NeverCalled(s0, events[..|events| - 1], key, limit, last, a, b);
    }
  }

  ghost predicate Holds(s0: State, events: seq<Event>, key: string, limit: int, window: int, last: int) {
    WindowOk(s0, events, key, limit, window, last) && Spread(s0, events, key, limit, window)
  }

  /** An event that is not an allowed call of the key changes nothing for it. */
  lemma StepElsewhere(s0: State, events: seq<Event>, e: Event, key: string, limit: int, window: int, last: int)
    requires Holds(s0, events, key, limit, window, last)
    requires e.key != key || (e.Allow? && !Allowed(After(s0, events), key, e.limit, e.now))
    ensures Holds(s0, events + [e], key, limit, window, last)
  {
    var events' := events + [e];
    forall a, b ensures SameCount(s0, events, events', key, a, b) {
      CountNoMore(s0, events, e, key, a, b);
    }
    SameCounter(s0, events, e, key);
    HoldsAlike(s0, events, events', key, limit, window, last);
  }

  lemma SameCounter(s0: State, events: seq<Event>, e: Event, key: string)
    requires e.key != key || (e.Allow? && !Allowed(After(s0, events), key, e.limit, e.now))
    ensures SameFor(After(s0, events), After(s0, events + [e]), key)
  {
    assert (events + [e])[..|events|] == events;
  }

  ghost predicate SameFor(s: State, s': State, key: string) {
    && Window(s', key) == Window(s, key) && (key in s'.counters <==> key in s.counters)
    && (key in s.counters ==> s'.counters[key] == s.counters[key])
  }

  ghost predicate SameCount(s0: State, events: seq<Event>, events': seq<Event>, key: string, a: int, b: int) {
    CountIn(s0, events', key, a, b) == CountIn(s0, events, key, a, b)
  }

  lemma HoldsAlike(s0: State, events: seq<Event>, events': seq<Event>, key: string, limit: int, window: int, last: int)
    requires Holds(s0, events, key, limit, window, last) && SameFor(After(s0, events), After(s0, events'), key)
    requires forall a, b :: SameCount(s0, events, events', key, a, b)
    ensures Holds(s0, events', key, limit, window, last)
  {
    forall a, b | b - a <= window ensures CountIn(s0, events', key, a, b) <= 2 * Most(limit) - 1 {
      assert SameCount(s0, events, events', key, a, b);
    }
    if key in After(s0, events).counters {
      WindowAlike(s0, events, events', key, limit, window, last, After(s0, events).counters[key].firstCall);
    }
  }

  lemma WindowAlike(s0: State, events: seq<Event>, events': seq<Event>, key: string, limit: int, window: int, last: int,
                    first: int)
    requires WindowOk(s0, events, key, limit, window, last) && SameFor(After(s0, events), After(s0, events'), key)
    requires key in After(s0, events).counters && first == After(s0, events).counters[key].firstCall
    requires SameCount(s0, events, events', key, first, last)
    requires SameCount(s0, events, events', key, first + 1, last)
    requires SameCount(s0, events, events', key, first + window + 1, last)
    requires SameCount(s0, events, events', key, first - window, first - 1)
    ensures WindowOk(s0, events', key, limit, window, last)
  {
  }

  lemma CountNoMore(s0: State, events: seq<Event>, e: Event, key: string, a: int, b: int)
    requires e.key != key || (e.Allow? && !Allowed(After(s0, events), key, e.limit, e.now))
    ensures CountIn(s0, events + [e], key, a, b) == CountIn(s0, events, key, a, b)
  {
    assert (events + [e])[..|events|] == events;
  }

  lemma CountOneMore(s0: State, events: seq<Event>, e: Event, key: string, a: int, b: int)
    requires e.Allow? && e.key == key && Allowed(After(s0, events), key, e.limit, e.now)
    ensures CountIn(s0, events + [e], key, a, b) == CountIn(s0, events, key, a, b) + if a <= e.now <= b then 1 else 0
  {
    assert (events + [e])[..|events|] == events;
  }

  /** No call of an interval that reaches `now` but starts after the old window opened lies
      outside that window, and its opening call does not count. */
  lemma BeforeOpening(s0: State, events: seq<Event>, key: string, limit: int, window: int, now: int, a: int, b: int)
    requires Regular(events, key, limit, now) && WindowOk(s0, events, key, limit, window, now)
    requires Opens(After(s0, events), key, now) && now - window <= a
    ensures CountIn(s0, events, key, a, b) <= Most(limit) - 1
    ensures CountIn(s0, events, key, now, now) == 0
  {
    var s := After(s0, events);
    if key !in s.counters {
      NeverCalled(s0, events, key, limit, now, a, b);
      NeverCalled(s0, events, key, limit, now, now, now);
    } else {
      var first := s.counters[key].firstCall;
      CountShrinks(s0, events, key, first + 1, if b < now then now else b, a, b);
      CountUpTo(s0, events, key, limit, now, first + 1, if b < now then now else b);
      CountShrinks(s0, events, key, first + window + 1, now, now, now);
    }
  }

  lemma StepOpens(s0: State, events: seq<Event>, e: Event, key: string, limit: int, window: int)
    requires window >= 0 && e.Allow? && e.key == key && e.limit == limit
    requires Regular(events, key, limit, e.now) && Holds(s0, events, key, limit, window, e.now)
    requires Opens(After(s0, events), key, e.now)
    ensures Holds(s0, events + [e], key, limit, window, e.now)
  {
    var now, s := e.now, After(s0, events);
    assert (events + [e])[..|events|] == events;
    BeforeOpening(s0, events, key, limit, window, now, now - window, now - 1);
    CountOneMore(s0, events, e, key, now, now);
    CountOneMore(s0, events, e, key, now + 1, now);
    CountNone(s0, events, key, now + 1, now);
    CountOneMore(s0, events, e, key, now + window + 1, now);
    CountNone(s0, events, key, now + window + 1, now);
    CountOneMore(s0, events, e, key, now - window, now - 1);
    forall a, b | b - a <= window ensures CountIn(s0, events + [e], key, a, b) <= 2 * Most(limit) - 1 {
      CountOneMore(s0, events, e, key, a, b);
      if a <= now <= b { BeforeOpening(s0, events, key, limit, window, now, a, b); }
    }
  }

  lemma StepWithin(s0: State, events: seq<Event>, e: Event, key: string, limit: int, window: int)
    requires window >= 0 && e.Allow? && e.key == key && e.limit == limit
    requires Regular(events, key, limit, e.now) && Holds(s0, events, key, limit, window, e.now)
    requires !Opens(After(s0, events), key, e.now) && Allowed(After(s0, events), key, limit, e.now)
    ensures Holds(s0, events + [e], key, limit, window, e.now)
  {
    var now, s := e.now, After(s0, events);
    var first, count := s.counters[key].firstCall, s.counters[key].count;
    assert (events + [e])[..|events|] == events;
    CountOneMore(s0, events, e, key, first, now);
    CountOneMore(s0, events, e, key, first + 1, now);
    CountOneMore(s0, events, e, key, first + window + 1, now);
    CountOneMore(s0, events, e, key, first - window, first - 1);
    forall a, b | b - a <= window ensures CountIn(s0, events + [e], key, a, b) <= 2 * Most(limit) - 1 {
      SpreadWithin(s0, events, e, key, limit, window, a, b);
    }
  }

  lemma SpreadWithin(s0: State, events: seq<Event>, e: Event, key: string, limit: int, window: int, a: int, b: int)
    requires e.Allow? && e.key == key && e.limit == limit && b - a <= window
    requires Regular(events, key, limit, e.now) && Holds(s0, events, key, limit, window, e.now)
    requires !Opens(After(s0, events), key, e.now) && Allowed(After(s0, events), key, limit, e.now)
    ensures CountIn(s0, events + [e], key, a, b) <= 2 * Most(limit) - 1
  {
    CountOneMore(s0, events, e, key, a, b);
    if a <= e.now <= b { AcrossWindows(s0, events, key, limit, window, e.now, a, b); }
  }

  /** An interval that reaches into the current window has at most its calls so far and
      those just before it opened. */
  lemma AcrossWindows(s0: State, events: seq<Event>, key: string, limit: int, window: int, now: int, a: int, b: int)
    requires Regular(events, key, limit, now) && WindowOk(s0, events, key, limit, window, now)
    requires !Opens(After(s0, events), key, now) && b - a <= window && a <= now <= b
    ensures CountIn(s0, events, key, a, b) <= Most(limit) - 1 + After(s0, events).counters[key].count
  {
    var first := After(s0, events).counters[key].firstCall;
    if a < first {
      CountSplits(s0, events, key, a, first - 1, b);
      CountShrinks(s0, events, key, first - window, first - 1, a, first - 1);
    } else {
      CountShrinks(s0, events, key, first, b, a, b);
    }
    CountUpTo(s0, events, key, limit, now, first, b);
  }

  lemma LaterReading(s0: State, events: seq<Event>, key: string, limit: int, window: int, last: int, last': int)
    requires Regular(events, key, limit, last) && last <= last' && Holds(s0, events, key, limit, window, last)
    ensures Holds(s0, events, key, limit, window, last')
  {
    if key in After(s0, events).counters {
      var first := After(s0, events).counters[key].firstCall;
      CountUpTo(s0, events, key, limit, last, first, last');
      CountUpTo(s0, events, key, limit, last, first + 1, last');
      CountUpTo(s0, events, key, limit, last, first + window + 1, last');
    }
  }

  lemma {:induction false} OpenedBefore(s0: State, events: seq<Event>, key: string, limit: int, window: int, last: int)
    requires Fresh(s0, key, window) && Regular(events, key, limit, last)
    ensures var s := After(s0, events);
            Window(s, key) == window && (key in s.counters ==> s.counters[key].firstCall <= last)
  {
    if events != [] {
      var last' := RegularPrefix(events, key, limit, last);
      OpenedBefore(s0, events[..|events| - 1], key, limit, window, last');
    }
  }

  /** Over every run the counter means what it should; with a negative window, which no call
      ever falls into, every call is allowed. */
  lemma RunHolds(s0: State, events: seq<Event>, key: string, limit: int, window: int, last: int)
    requires Fresh(s0, key, window) && Regular(events, key, limit, last)
    ensures window >= 0 ==> Holds(s0, events, key, limit, window, last)
    ensures window < 0 ==> forall now :: now >= last ==> Allowed(After(s0, events), key, limit, now)
  {
    if window >= 0 { WindowHolds(s0, events, key, limit, window, last); }
    else { OpenedBefore(s0, events, key, limit, window, last); }
  }

  lemma {:induction false} WindowHolds(s0: State, events: seq<Event>, key: string, limit: int, window: int, last: int)
    requires Fresh(s0, key, window) && Regular(events, key, limit, last) && window >= 0
    ensures Holds(s0, events, key, limit, window, last)
  {
    if events != [] {
      var n := |events| - 1;
      var before, e := events[..n], events[n];
      assert events == before + [e];
      var last' := RegularPrefix(events, key, limit, last);
      WindowHolds(s0, before, key, limit, window, last');
      if e.key != key || !Allowed(After(s0, before), key, limit, e.now) {
        StepElsewhere(s0, before, e, key, limit, window, last');
      } else if Opens(After(s0, before), key, e.now) {
        StepOpens(s0, before, e, key, limit, window);
      } else {
        StepWithin(s0, before, e, key, limit, window);
      }
      assert Regular(events, key, limit, last');
      LaterReading(s0, events, key, limit, window, last', last);
    }
  }

  /** In every closed interval no longer than the window fewer than twice the limit of
      calls are allowed (a limit below one counts as one). */
  lemma AtMostTwiceTheLimit(s0: State, events: seq<Event>, key: string, limit: int, window: int, last: int,
                            a: int, b: int)
    requires Fresh(s0, key, window) && Regular(events, key, limit, last) && b - a <= window
    ensures CountIn(s0, events, key, a, b) <= 2 * Most(limit) - 1
  {
    if window < 0 {
      CountNone(s0, events, key, a, b);
    } else {
      RunHolds(s0, events, key, limit, window, last);
    }
  }

  /** A window that is not negative allows at most the limit, its opening call included, and
      a call is denied exactly when a window opened no more than its length ago has allowed
      that many; so at least `limit` calls were allowed in the time of one window before a
      denial. */
  lemma DeniedExactly(s0: State, events: seq<Event>, key: string, limit: int, window: int, now: int)
    requires Fresh(s0, key, window) && Regular(events, key, limit, now)
    ensures var s := After(s0, events);
            && (key in s.counters && window >= 0 ==>
                  CountIn(s0, events, key, s.counters[key].firstCall, now) <= Most(limit))
            && (!Allowed(s, key, limit, now) <==>
                  && key in s.counters && now - s.counters[key].firstCall <= window
                  && CountIn(s0, events, key, s.counters[key].firstCall, now) >= limit)
            && (!Allowed(s, key, limit, now) ==> CountIn(s0, events, key, now - window, now) >= Most(limit))
  {
    RunHolds(s0, events, key, limit, window, now);
    OpenedBefore(s0, events, key, limit, window, now);
    var s := After(s0, events);
    if key in s.counters && now - s.counters[key].firstCall <= window {
      CountShrinks(s0, events, key, now - window, now, s.counters[key].firstCall, now);
    }
  }

  // ---- The bound is reached ----

  function Burst(n: nat, key: string, limit: int, now: int): seq<Event> {
    if n == 0 then [] else Burst(n - 1, key, limit, now) + [Allow(key, limit, now)]
  }

  ghost predicate CounterIs(s: State, key: string, count: int, first: int, window: int) {
    key in s.counters && s.counters[key] == Counter(count, first) && Window(s, key) == window
  }

  lemma {:induction false} BurstIs(n: nat, key: string, limit: int, now: int)
    ensures |Burst(n, key, limit, now)| == n
    ensures forall i :: 0 <= i < n ==> Burst(n, key, limit, now)[i] == Allow(key, limit, now)
  {
    if n > 0 { BurstIs(n - 1, key, limit, now); }
  }

  lemma RegularBurst(events: seq<Event>, key: string, limit: int, last: int, n: nat, now: int)
    requires Regular(events, key, limit, last) && last <= now
    ensures Regular(events + Burst(n, key, limit, now), key, limit, now)
  {
    BurstIs(n, key, limit, now);
  }

  lemma RegularFill(events: seq<Event>, key: string, limit: int, last: int, opens: int, now: int)
    requires Regular(events, key, limit, last) && last <= opens <= now && limit >= 1
    ensures Regular(events + [Allow(key, limit, opens)] + Burst(limit - 1, key, limit, now), key, limit, now)
  {
    RegularBurst(events + [Allow(key, limit, opens)], key, limit, opens, limit - 1, now);
  }

  lemma {:induction false} BurstCounter(s0: State, events: seq<Event>, key: string, limit: int, now: int, n: nat,
                                        count: int, first: int, window: int)
    requires CounterIs(After(s0, events), key, count, first, window) && now - first <= window && count + n <= limit
    ensures CounterIs(After(s0, events + Burst(n, key, limit, now)), key, count + n, first, window)
  {
    if n == 0 {
      assert events + Burst(n, key, limit, now) == events;
    } else {
      BurstCounter(s0, events, key, limit, now, n - 1, count, first, window);
      OneInWindow(s0, events + Burst(n - 1, key, limit, now), key, limit, now, count + n - 1, first, window, 0, 0);
      BurstSnoc(events, n, key, limit, now);
    }
  }

  /** How many of n calls at one time fall into an interval. */
  function Hits(n: nat, now: int, a: int, b: int): nat {
    if a <= now <= b then n else 0
  }

  lemma {:induction false} BurstAllowed(s0: State, events: seq<Event>, key: string, limit: int, now: int, n: nat,
                                        count: int, first: int, window: int, a: int, b: int)
    requires CounterIs(After(s0, events), key, count, first, window) && now - first <= window && count + n <= limit
    ensures CountIn(s0, events + Burst(n, key, limit, now), key, a, b) ==
            CountIn(s0, events, key, a, b) + Hits(n, now, a, b)
  {
    if n == 0 {
      NoBurst(events, key, limit, now);
    } else {
      BurstAllowed(s0, events, key, limit, now, n - 1, count, first, window, a, b);
      BurstCounter(s0, events, key, limit, now, n - 1, count, first, window);
      BurstCounts(s0, events, events + Burst(n - 1, key, limit, now), key, limit, now, n, count, first, window, a, b);
    }
  }

  lemma NoBurst(events: seq<Event>, key: string, limit: int, now: int)
    ensures events + Burst(0, key, limit, now) == events
  {
  }

  lemma BurstCounts(s0: State, events: seq<Event>, before: seq<Event>, key: string, limit: int, now: int, n: nat,
                    count: int, first: int, window: int, a: int, b: int)
    requires n > 0 && before == events + Burst(n - 1, key, limit, now)
    requires CounterIs(After(s0, before), key, count + n - 1, first, window)
    requires now - first <= window && count + n <= limit
    requires CountIn(s0, before, key, a, b) == CountIn(s0, events, key, a, b) + Hits(n - 1, now, a, b)
    ensures CountIn(s0, events + Burst(n, key, limit, now), key, a, b) ==
            CountIn(s0, events, key, a, b) + Hits(n, now, a, b)
  {
    BurstSnoc(events, n, key, limit, now);
    CountsNext(s0, before, events + Burst(n, key, limit, now), key, limit, now, count + n - 1, first, window, a, b);
  }

  lemma BurstSnoc(events: seq<Event>, n: nat, key: string, limit: int, now: int)
    requires n > 0
    ensures events + Burst(n, key, limit, now) == events + Burst(n - 1, key, limit, now) + [Allow(key, limit, now)]
  {
  }

  lemma CountsNext(s0: State, before: seq<Event>, after: seq<Event>, key: string, limit: int, now: int,
                   count: int, first: int, window: int, a: int, b: int)
    requires after == before + [Allow(key, limit, now)]
    requires CounterIs(After(s0, before), key, count, first, window) && now - first <= window && count < limit
    ensures CountIn(s0, after, key, a, b) == CountIn(s0, before, key, a, b) + if a <= now <= b then 1 else 0
  {
    OneInWindow(s0, before, key, limit, now, count, first, window, a, b);
  }

  lemma OneInWindow(s0: State, events: seq<Event>, key: string, limit: int, now: int,
                    count: int, first: int, window: int, a: int, b: int)
    requires CounterIs(After(s0, events), key, count, first, window) && now - first <= window && count < limit
    ensures var events' := events + [Allow(key, limit, now)];
            && CounterIs(After(s0, events'), key, count + 1, first, window)
            && CountIn(s0, events', key, a, b) == CountIn(s0, events, key, a, b) + if a <= now <= b then 1 else 0
  {
    assert (events + [Allow(key, limit, now)])[..|events|] == events;
    CountOneMore(s0, events, Allow(key, limit, now), key, a, b);
  }

  lemma OpenOne(s0: State, events: seq<Event>, key: string, limit: int, window: int, opens: int, a: int, b: int)
    requires Opens(After(s0, events), key, opens) && Window(After(s0, events), key) == window
    ensures var events' := events + [Allow(key, limit, opens)];
            && CounterIs(After(s0, events'), key, 1, opens, window)
            && CountIn(s0, events', key, a, b) == CountIn(s0, events, key, a, b) + Hits(1, opens, a, b)
  {
    var e := Allow(key, limit, opens);
    assert (events + [e])[..|events|] == events;
    CountOneMore(s0, events, e, key, a, b);
  }

  /** A call opens a window and the rest of the limit comes at one time within it. */
  lemma OpenAndFill(s0: State, events: seq<Event>, key: string, limit: int, window: int, opens: int, now: int,
                    a: int, b: int)
    returns (events': seq<Event>)
    requires Opens(After(s0, events), key, opens) && Window(After(s0, events), key) == window && limit >= 1
    requires opens <= now <= opens + window
    ensures events' == events + [Allow(key, limit, opens)] + Burst(limit - 1, key, limit, now)
    ensures CounterIs(After(s0, events'), key, limit, opens, window)
    ensures CountIn(s0, events', key, a, b) ==
            CountIn(s0, events, key, a, b) + Hits(1, opens, a, b) + Hits(limit - 1, now, a, b)
  {
    var begun := events + [Allow(key, limit, opens)];
    OpenOne(s0, events, key, limit, window, opens, a, b);
    events' := begun + Burst(limit - 1, key, limit, now);
    Fill(s0, begun, events', key, limit, now, opens, window, a, b);
  }

  lemma Fill(s0: State, begun: seq<Event>, filled: seq<Event>, key: string, limit: int, now: int,
             first: int, window: int, a: int, b: int)
    requires CounterIs(After(s0, begun), key, 1, first, window) && now - first <= window && limit >= 1
    requires filled == begun + Burst(limit - 1, key, limit, now)
    ensures CounterIs(After(s0, filled), key, limit, first, window)
    ensures CountIn(s0, filled, key, a, b) == CountIn(s0, begun, key, a, b) + Hits(limit - 1, now, a, b)
  {
    BurstCounter(s0, begun, key, limit, now, limit - 1, 1, first, window);
    BurstAllowed(s0, begun, key, limit, now, limit - 1, 1, first, window, a, b);
  }

  /** One call opens a window; the rest of the limit comes at its very end, and a whole
      limit right after it: a regular run with nearly twice the limit in the time of one
      window. */
  lemma BoundIsReached(s0: State, key: string, limit: int, window: int) returns (events: seq<Event>)
    requires Fresh(s0, key, window) && limit >= 1 && window >= 1
    ensures Regular(events, key, limit, window + 1)
    ensures CountIn(s0, events, key, 1, window + 1) == 2 * limit - 1
  {
    events := OpenAndFill(s0, [], key, limit, window, 0, window, 1, window + 1);
    RegularFill([], key, limit, 0, 0, window);
    RegularFill(events, key, limit, window, window + 1, window + 1);
    events := OpenAndFill(s0, events, key, limit, window, window + 1, window + 1, 1, window + 1);
  }

  // ---- From a new limiter ----

  const EMPTY: State := State(map[], map[])

  /** The window of a key, in nanoseconds: the last one set, and a minute when there is none
      or it is zero. */
  function LastWindow(events: seq<Event>, key: string): int {
    if events == [] then 60_000_000_000
    else
      var e := events[|events| - 1];
      if e.SetWindow? && e.key == key then (if e.window != 0 then e.window else 60_000_000_000)
      else LastWindow(events[..|events| - 1], key)
  }

  /** No call for the key since the start or its last reset. */
  predicate Unused(events: seq<Event>, key: string) {
    events == [] ||
    var e := events[|events| - 1];
    if e.key == key && !e.SetWindow? then e.Reset? else Unused(events[..|events| - 1], key)
  }

  lemma {:induction false} LastWindowSet(events: seq<Event>, key: string)
    ensures Window(After(EMPTY, events), key) == LastWindow(events, key)
  {
    if events != [] { LastWindowSet(events[..|events| - 1], key); }
  }

  lemma {:induction false} UnusedHasNone(events: seq<Event>, key: string)
    requires Unused(events, key)
    ensures key !in After(EMPTY, events).counters
  {
    if events != [] && !(events[|events| - 1].key == key && events[|events| - 1].Reset?) {
      UnusedHasNone(events[..|events| - 1], key);
    }
  }

  /** After any events that leave the key unused, its calls keep the bound for the window that
      was set for it last, or for a minute. */
  lemma BoundSinceStart(setup: seq<Event>, events: seq<Event>, key: string, limit: int, last: int, a: int, b: int)
    requires Unused(setup, key) && Regular(events, key, limit, last) && b - a <= LastWindow(setup, key)
    ensures CountIn(After(EMPTY, setup), events, key, a, b) <= if limit < 1 then 1 else 2 * limit - 1
  {
    LastWindowSet(setup, key);
    UnusedHasNone(setup, key);
    AtMostTwiceTheLimit(After(EMPTY, setup), events, key, limit, LastWindow(setup, key), last, a, b);
  }

  /** And a call is denied exactly when the key has an open window, no older than that, with as
      many allowed calls as the limit. */
  lemma DeniedSinceStart(setup: seq<Event>, events: seq<Event>, key: string, limit: int, now: int)
    requires Unused(setup, key) && Regular(events, key, limit, now)
    ensures var s0, window := After(EMPTY, setup), LastWindow(setup, key);
            var s := After(s0, events);
            !Allowed(s, key, limit, now) <==>
              && key in s.counters && now - s.counters[key].firstCall <= window
              && CountIn(s0, events, key, s.counters[key].firstCall, now) >= limit
  {
    LastWindowSet(setup, key);
    UnusedHasNone(setup, key);
    DeniedExactly(After(EMPTY, setup), events, key, limit, LastWindow(setup, key), now);
  }
}
