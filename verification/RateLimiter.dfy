/** A fixed-window rate limiter, one window per key. Times are in nanoseconds. */
module RateLimiter {
  import opened Options

  const LIMIT := 10
  const WINDOW := 10 * 60 * 1_000_000_000

  datatype State = State(count: int, resetAt: int)

  datatype Request = Request(key: string, at: int)

  // ----- one key

  predicate Opens(s: Option<State>, now: int) {
    s.None? || now >= s.value.resetAt
  }

  predicate Grants(s: Option<State>, now: int) {
    Opens(s, now) || s.value.count < LIMIT
  }

  function Next(s: Option<State>, now: int): State {
    if Opens(s, now) then State(1, now + WINDOW)
    else if Grants(s, now) then State(s.value.count + 1, s.value.resetAt)
    else s.value
  }

  // ----- runs

  function Lookup(entries: map<string, State>, key: string): Option<State> {
    if key in entries then Some(entries[key]) else None
  }

  /** The entries after a sequence of requests. */
  function Entries(requests: seq<Request>): map<string, State> {
    if requests == [] then map[]
    else
      var before, r := Entries(requests[..|requests| - 1]), requests[|requests| - 1];
      before[r.key := Next(Lookup(before, r.key), r.at)]
  }

  /** The times at which requests for a key were let through. */
  function Granted(requests: seq<Request>, key: string): seq<int> {
    if requests == [] then []
    else
      var init, r := requests[..|requests| - 1], requests[|requests| - 1];
      Granted(init, key) + if r.key == key && Grants(Lookup(Entries(init), key), r.at) then [r.at] else []
  }

  ghost predicate ClockMovesForward(requests: seq<Request>) {
    forall i, j | 0 <= i < j < |requests| :: requests[i].at <= requests[j].at
  }

  /** How many of the times lie in from..to, both ends included. */
  function CountIn(times: seq<int>, from: int, to: int): nat {
    if times == [] then 0
    else CountIn(times[..|times| - 1], from, to) + if from <= times[|times| - 1] <= to then 1 else 0
  }

  lemma CountNext(times: seq<int>, t: int, from: int, to: int)
    ensures CountIn(times + [t], from, to) == CountIn(times, from, to) + if from <= t <= to then 1 else 0
  {
    assert (times + [t])[..|times|] == times;
  }

  lemma {:induction false} CountNone(times: seq<int>, from: int, to: int)
    requires forall i | 0 <= i < |times| :: times[i] < from
    ensures CountIn(times, from, to) == 0
  {
    if times != [] { CountNone(times[..|times| - 1], from, to); }
  }

  /** The state of a key relative to an interval that starts at `from` and is `span` long. */
  ghost predicate WithinBounds(s: Option<State>, granted: seq<int>, from: int, span: int) {
    var n := CountIn(granted, from, from + span);
    match s
    case None => granted == []
    case Some(e) =>
      var start := e.resetAt - WINDOW;
      // On an interval shorter than a window the grant that opened an earlier window lies outside.
      var slack := if span < WINDOW then 1 else 0;
      && 1 <= e.count <= LIMIT
      && (forall i | 0 <= i < |granted| :: granted[i] < e.resetAt)
      && CountIn(granted, start, e.resetAt - 1) == e.count
      && n <= 2 * LIMIT - slack
      && (start < from ==> n <= e.count - slack)
      && (start == from ==> n <= e.count)
      && (start <= from + span ==> n <= LIMIT - slack + e.count)
  }

  lemma StepWithinBounds(s: Option<State>, granted: seq<int>, now: int, from: int, span: int)
    requires WithinBounds(s, granted, from, span) && 0 <= span <= WINDOW
    requires s.Some? ==> s.value.resetAt - WINDOW <= now
    ensures Grants(s, now) ==> WithinBounds(Some(Next(s, now)), granted + [now], from, span)
    ensures !Grants(s, now) ==> Next(s, now) == s.value
  {
    if Grants(s, now) {
      var e := Next(s, now);
      CountNext(granted, now, from, from + span);
      CountNext(granted, now, e.resetAt - WINDOW, e.resetAt - 1);
      if Opens(s, now) {
        CountNone(granted, now, e.resetAt - 1);
        if now <= from {
          CountNone(granted, from, from + span);
        }
      }
    }
  }

  lemma {:induction false} RunWithinBounds(requests: seq<Request>, key: string, from: int, span: int)
    requires ClockMovesForward(requests) && 0 <= span <= WINDOW
    ensures WithinBounds(Lookup(Entries(requests), key), Granted(requests, key), from, span)
    ensures key in Entries(requests) ==> requests != [] && Entries(requests)[key].resetAt - WINDOW <= requests[|requests| - 1].at
  {
    if requests != [] {
      var init, r := requests[..|requests| - 1], requests[|requests| - 1];
      RunWithinBounds(init, key, from, span);
      assert Granted(init, key) + [] == Granted(init, key);
      if r.key == key {
        StepWithinBounds(Lookup(Entries(init), key), Granted(init, key), r.at, from, span);
      }
    }
  }

  lemma CounterIsCount(s: Option<State>, granted: seq<int>, from: int, span: int)
    requires s.Some? && WithinBounds(s, granted, from, span)
    ensures CountIn(granted, s.value.resetAt - WINDOW, s.value.resetAt - 1) == s.value.count <= LIMIT
  {
  }

  /** At most ten requests per window: the counter of a known key is the number of grants in its current window. */
  lemma WindowBound(requests: seq<Request>, key: string)
    requires ClockMovesForward(requests) && Lookup(Entries(requests), key).Some?
    ensures var e := Lookup(Entries(requests), key).value;
      CountIn(Granted(requests, key), e.resetAt - WINDOW, e.resetAt - 1) == e.count <= LIMIT
  {
    var s := Lookup(Entries(requests), key);
    RunWithinBounds(requests, key, s.value.resetAt, WINDOW);
    CounterIsCount(s, Granted(requests, key), s.value.resetAt, WINDOW);
  }

  /**
   In any ten minutes, wherever they start, at most 20 requests of a key are let through if both ends
   count, and at most 19 if the last instant does not.
   */
  lemma SlidingBound(requests: seq<Request>, key: string, from: int)
    requires ClockMovesForward(requests)
    ensures CountIn(Granted(requests, key), from, from + WINDOW) <= 20
    ensures CountIn(Granted(requests, key), from, from + WINDOW - 1) <= 19
  {
    RunWithinBounds(requests, key, from, WINDOW);
    RunWithinBounds(requests, key, from, WINDOW - 1);
  }

  lemma NextRequest(requests: seq<Request>, r: Request)
    ensures var s := Lookup(Entries(requests), r.key);
      && Lookup(Entries(requests + [r]), r.key) == Some(Next(s, r.at))
      && Granted(requests + [r], r.key) == Granted(requests, r.key) + if Grants(s, r.at) then [r.at] else []
  {
    assert (requests + [r])[..|requests|] == requests;
  }

  /** Ten requests at the start of a window and ten at its end: when the n-th of them comes. */
  function BurstTime(n: nat, start: int): int {
    if n <= LIMIT then start else start + WINDOW
  }

  function TwoBursts(n: nat, key: string, start: int): seq<Request> {
    if n == 0 then [] else TwoBursts(n - 1, key, start) + [Request(key, BurstTime(n, start))]
  }

  /** All of the first n requests got through. */
  ghost predicate AllGranted(requests: seq<Request>, n: nat, key: string, start: int) {
    && CountIn(Granted(requests, key), start, start + WINDOW) == n
    && match Lookup(Entries(requests), key) {
         case None => n == 0
         case Some(e) => e.count == (if n <= LIMIT then n else n - LIMIT) && e.resetAt == BurstTime(n, start) + WINDOW
       }
  }

  lemma NextIsGranted(requests: seq<Request>, n: nat, key: string, start: int)
    requires n < 20 && AllGranted(requests, n, key, start)
    ensures AllGranted(requests + [Request(key, BurstTime(n + 1, start))], n + 1, key, start)
  {
    var r := Request(key, BurstTime(n + 1, start));
    NextRequest(requests, r);
    CountNext(Granted(requests, key), r.at, start, start + WINDOW);
  }

  /** The bound of 20 is met: both bursts get through, and they are no more than ten minutes apart. */
  lemma {:induction false} TwoBurstsAreGranted(n: nat, key: string, start: int)
    requires n <= 20
    ensures AllGranted(TwoBursts(n, key, start), n, key, start)
  {
    if n > 0 {
      TwoBurstsAreGranted(n - 1, key, start);
      NextIsGranted(TwoBursts(n - 1, key, start), n - 1, key, start);
    }
  }

  // ----- when a request gets through

  /** When the current window opened: at the first grant, and at every grant that the window before it does not reach. */
  function Opening(granted: seq<int>): Option<int> {
    if granted == [] then None
    else
      var before, last := Opening(granted[..|granted| - 1]), granted[|granted| - 1];
      if before.None? || last >= before.value + WINDOW then Some(last) else before
  }

  lemma OpeningNext(granted: seq<int>, t: int)
    ensures var before := Opening(granted);
      Opening(granted + [t]) == if before.None? || t >= before.value + WINDOW then Some(t) else before
  {
    assert (granted + [t])[..|granted|] == granted;
  }

  /** The limiter knows when the current window of a key ends. */
  lemma {:induction false} WindowIsKnown(requests: seq<Request>, key: string)
    ensures var s, start := Lookup(Entries(requests), key), Opening(Granted(requests, key));
      (s.None? <==> start.None?) && (s.Some? ==> s.value.resetAt == start.value + WINDOW)
  {
    if requests != [] {
      var init, r := requests[..|requests| - 1], requests[|requests| - 1];
      WindowIsKnown(init, key);
      assert requests == init + [r] && Granted(init, key) + [] == Granted(init, key);
      OpeningNext(Granted(init, key), r.at);
    }
  }

  lemma ClockSoFar(requests: seq<Request>, r: Request)
    requires ClockMovesForward(requests + [r])
    ensures ClockMovesForward(requests)
  {
    forall i, j | 0 <= i < j < |requests| ensures requests[i].at <= requests[j].at {
      assert requests[i] == (requests + [r])[i] && requests[j] == (requests + [r])[j];
    }
  }

  /** There is no window, the last one is over at t, or fewer than ten got through in it. */
  predicate HasRoom(granted: seq<int>, t: int) {
    var start := Opening(granted);
    start.None? || t >= start.value + WINDOW || CountIn(granted, start.value, start.value + WINDOW - 1) < 10
  }

  lemma GrantsIfRoom(requests: seq<Request>, key: string, t: int)
    requires ClockMovesForward(requests)
    ensures Grants(Lookup(Entries(requests), key), t) <==> HasRoom(Granted(requests, key), t)
  {
    WindowIsKnown(requests, key);
    if Lookup(Entries(requests), key).Some? {
      WindowBound(requests, key);
    }
  }

  /**
   A request gets through if and only if fewer than ten got through in the window it falls into. So no request is
   refused that the limit allows, at whatever time it comes.
   */
  lemma GrantedExactly(requests: seq<Request>, r: Request)
    requires ClockMovesForward(requests + [r])
    ensures var granted := Granted(requests, r.key);
      Granted(requests + [r], r.key) == granted + if HasRoom(granted, r.at) then [r.at] else []
  {
    ClockSoFar(requests, r);
    GrantsIfRoom(requests, r.key, r.at);
    NextRequest(requests, r);
  }

  // ----- keys are independent

  function Only(requests: seq<Request>, key: string): seq<Request> {
    if requests == [] then []
    else
      var init, r := requests[..|requests| - 1], requests[|requests| - 1];
      Only(init, key) + if r.key == key then [r] else []
  }

  /** The requests of other keys have no influence on a key. */
  lemma {:induction false} KeysAreIndependent(requests: seq<Request>, key: string)
    ensures Granted(requests, key) == Granted(Only(requests, key), key)
    ensures Lookup(Entries(requests), key) == Lookup(Entries(Only(requests, key)), key)
  {
    if requests != [] {
      var init, r := requests[..|requests| - 1], requests[|requests| - 1];
      KeysAreIndependent(init, key);
      if r.key == key {
        var only := Only(requests, key);
        assert only[..|only| - 1] == Only(init, key) && only[|only| - 1] == r;
      } else {
        assert Only(requests, key) == Only(init, key);
      }
    }
  }

  // ----- the limiter

  class EndpointRateLimiter {
    var entries: map<string, State>

    constructor ()
      ensures entries == Entries([])
    {
      entries := map[];
    }

    /** Let a request through or not; `wait` is the time until the window ends, by the wall clock. */
    method Allow(key: string, now: int, wallClock: int) returns (allowed: bool, wait: int)
      modifies this
      ensures allowed == Grants(Lookup(old(entries), key), now)
      ensures allowed <==> key !in old(entries) || now >= old(entries)[key].resetAt || old(entries)[key].count < 10
      ensures entries == if allowed then old(entries)[key := Next(Lookup(old(entries), key), now)] else old(entries)
      ensures wait == if allowed then 0 else old(entries)[key].resetAt - wallClock
      ensures forall requests :: old(entries) == Entries(requests) ==> entries == Entries(requests + [Request(key, now)])
    {
      ghost var before := entries;
      if key !in entries || !(now < entries[key].resetAt) {
        entries := entries[key := State(1, now + WINDOW)];
        allowed, wait := true, 0;
      } else if entries[key].count >= LIMIT {
        allowed, wait := false, entries[key].resetAt - wallClock;
      } else {
        entries := entries[key := State(entries[key].count + 1, entries[key].resetAt)];
        allowed, wait := true, 0;
      }
      forall requests | before == Entries(requests)
        ensures entries == Entries(requests + [Request(key, now)])
      {
        var all := requests + [Request(key, now)];
        assert all[..|all| - 1] == requests;
        assert Entries(all) == before[key := Next(Lookup(before, key), now)];
      }
    }
  }
}
