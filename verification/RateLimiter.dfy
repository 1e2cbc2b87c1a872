/** The fixed-window rate limiter. Times and the window are nanoseconds; the configuration only
    admits a positive window and a positive maximum. */
module RateLimiting {
  import opened Prelude

  type Identity = string

  datatype Counter = Counter(windowStart: int, count: int)

  datatype Verdict = Verdict(allowed: bool, retryAfter: int)

  const SECOND := 1_000_000_000

  // ---------------------------------------------------------- what one call does

  /** Go's division of a duration rounds toward zero. */
  function Quotient(d: int, n: int): int
    requires n > 0
  {
    if d >= 0 then d / n else -((-d) / n)
  }

  method SecondsCeil(d: int) returns (sec: int)
    ensures sec >= 0 && (d >= 0 ==> sec * 1_000_000_000 >= d && (sec - 1) * 1_000_000_000 < d)
  {
    sec := Quotient(d, SECOND);
    if d - sec * SECOND != 0 {
      sec := sec + 1;
    }
    if sec < 0 {
      sec := 0;
    }
  }

  /** A request opens a window when the identity has none or its window is over. */
  predicate Opens(c: Option<Counter>, window: int, now: int) {
    c.None? || now - c.value.windowStart >= window
  }

  predicate Admits(c: Option<Counter>, window: int, maxRequests: int, now: int) {
    Opens(c, window, now) || c.value.count < maxRequests
  }

  function NextCounter(c: Option<Counter>, window: int, maxRequests: int, now: int): Option<Counter> {
    if Opens(c, window, now) then Some(Counter(now, 1))
    else if c.value.count < maxRequests then Some(c.value.(count := c.value.count + 1))
    else c
  }

  function Find(byIdentity: map<Identity, Counter>, identity: Identity): Option<Counter> {
    if identity in byIdentity then Some(byIdentity[identity]) else None
  }

  /** `sec` is the least whole number of seconds after which a lone retry is admitted. */
  ghost predicate LeastRetry(c: Option<Counter>, window: int, maxRequests: int, now: int, sec: int) {
    && sec >= 0 && Admits(c, window, maxRequests, now + sec * 1_000_000_000)
    && forall s: int :: 0 <= s < sec ==> !Admits(c, window, maxRequests, now + s * 1_000_000_000)
  }

  class RateLimiter {
    const window: int
    const maxRequests: int
    var byIdentity: map<Identity, Counter>

    constructor (windowSeconds: int, maxRequests: int)
      requires windowSeconds > 0 && maxRequests > 0
      ensures window == windowSeconds * 1_000_000_000 && this.maxRequests == maxRequests && byIdentity == map[]
    {
      window, this.maxRequests := windowSeconds * SECOND, maxRequests;
      byIdentity := map[];
    }

    method Allow(identity: Identity, now: int) returns (v: Verdict)
      requires window > 0 && maxRequests > 0
      modifies this
      ensures v.allowed == Admits(Find(old(byIdentity), identity), window, maxRequests, now)
      ensures v.allowed ==> v.retryAfter == 0
      ensures !v.allowed ==> LeastRetry(Find(byIdentity, identity), window, maxRequests, now, v.retryAfter)
      ensures Find(byIdentity, identity) == NextCounter(Find(old(byIdentity), identity), window, maxRequests, now)
      ensures forall i :: i != identity ==> Find(byIdentity, i) == Find(old(byIdentity), i)
    {
      if identity !in byIdentity || now - byIdentity[identity].windowStart >= window {
        byIdentity := byIdentity[identity := Counter(now, 1)];
        return Verdict(true, 0);
      }
      var current := byIdentity[identity];
      if current.count >= maxRequests {
        var retryAfter := current.windowStart + window - now;
        if retryAfter < 0 {
          retryAfter := 0;
        }
        var sec := SecondsCeil(retryAfter);
        forall s: int | 0 <= s < sec ensures s * SECOND < retryAfter {
          assert s * SECOND <= (sec - 1) * SECOND;
        }
        return Verdict(false, sec);
      }
      current := current.(count := current.count + 1);
      byIdentity := byIdentity[identity := current];
      v := Verdict(true, 0);
    }
  }

  // ------------------------------------------------------------ one identity's run

  /** The counter after requests at these times. */
  function After(window: int, maxRequests: int, times: seq<int>): Option<Counter> {
    if times == [] then None
    else NextCounter(After(window, maxRequests, times[..|times| - 1]), window, maxRequests, times[|times| - 1])
  }

  /** How many of them were admitted at a time in [from, to). */
  function Admissions(window: int, maxRequests: int, times: seq<int>, from: int, to: int): nat {
    if times == [] then 0
    else
      var before, now := times[..|times| - 1], times[|times| - 1];
      Admissions(window, maxRequests, before, from, to)
      + if Admits(After(window, maxRequests, before), window, maxRequests, now) && from <= now < to then 1 else 0
  }

  ghost predicate NonDecreasing(times: seq<int>) {
    forall i, j :: 0 <= i < j < |times| ==> times[i] <= times[j]
  }

  lemma {:induction false} AdmissionsSplit(window: int, max: int, times: seq<int>, from: int, mid: int, to: int)
    requires from <= mid <= to
    ensures Admissions(window, max, times, from, to)
            == Admissions(window, max, times, from, mid) + Admissions(window, max, times, mid, to)
  {
    if times != [] { AdmissionsSplit(window, max, times[..|times| - 1], from, mid, to); }
  }

  lemma {:induction false} NoneOutside(window: int, max: int, times: seq<int>, from: int, to: int)
    requires forall i :: 0 <= i < |times| ==> !(from <= times[i] < to)
    ensures Admissions(window, max, times, from, to) == 0
  {
    if times != [] { NoneOutside(window, max, times[..|times| - 1], from, to); }
  }

  lemma {:induction false} Fewer(window: int, max: int, times: seq<int>, from: int, to: int, from': int, to': int)
    requires from' <= from && to <= to'
    ensures Admissions(window, max, times, from, to) <= Admissions(window, max, times, from', to')
  {
    if times != [] { Fewer(window, max, times[..|times| - 1], from, to, from', to'); }
  }

  /** What holds after every request: the window's admissions are its count, the first of them
      opening it, there are none after it, and less than the maximum lie closely before it. */
  ghost predicate WindowInv(window: int, max: int, times: seq<int>)
    requires times != []
  {
    var c, last := After(window, max, times), times[|times| - 1];
    c.Some? && Windowed(window, max, times, c.value, last)
  }

  ghost predicate Windowed(window: int, max: int, times: seq<int>, c: Counter, last: int) {
    && c.windowStart <= last && 1 <= c.count <= max
    && Admissions(window, max, times, c.windowStart, c.windowStart + window) == c.count
    && Admissions(window, max, times, c.windowStart + window, last + 1) == 0
    && Admissions(window, max, times, c.windowStart, c.windowStart + 1) >= 1
    && Admissions(window, max, times, c.windowStart - window + 1, c.windowStart) < max
  }

  /** Admissions from the window's start on, however far. */
  lemma FromWindow(window: int, max: int, times: seq<int>, c: Counter, from: int, to: int)
    requires window > 0 && NonDecreasing(times) && times != []
    requires Windowed(window, max, times, c, times[|times| - 1]) && c.windowStart <= from
    ensures Admissions(window, max, times, from, to) <= c.count
    ensures c.windowStart < from ==> Admissions(window, max, times, from, to) < c.count
    ensures c.windowStart + window <= from ==> Admissions(window, max, times, from, to) == 0
  {
    var end, last := c.windowStart + window, times[|times| - 1];
    var top := Max(Max(to, last + 1), end);
    Fewer(window, max, times, from, to, c.windowStart, top);
    AdmissionsSplit(window, max, times, c.windowStart, end, top);
    if end <= last + 1 {
      AdmissionsSplit(window, max, times, end, last + 1, top);
      NoneOutside(window, max, times, last + 1, top);
    } else {
      NoneOutside(window, max, times, end, top);
    }
    if c.windowStart < from {
      AdmissionsSplit(window, max, times, c.windowStart, c.windowStart + 1, top);
      Fewer(window, max, times, from, to, c.windowStart + 1, top);
    }
    if end <= from { Fewer(window, max, times, from, to, end, top); }
  }

  function Max(a: int, b: int): int {
    if a < b then b else a
  }

  lemma {:induction false} WindowInvHolds(window: int, max: int, times: seq<int>)
    requires window > 0 && max > 0 && NonDecreasing(times) && times != []
    ensures WindowInv(window, max, times)
  {
    var before, now := times[..|times| - 1], times[|times| - 1];
    assert forall i :: 0 <= i < |before| ==> before[i] <= now;
    if before == [] {
      NoneOutside(window, max, times, now + window, now + 1);
    } else {
      WindowInvHolds(window, max, before);
      var c := After(window, max, before).value;
      if Opens(Some(c), window, now) {
        FromWindow(window, max, before, c, now, now + window);
        FromWindow(window, max, before, c, now - window + 1, now);
        NoneOutside(window, max, times, now + window, now + 1);
      } else {
        NoneOutside(window, max, times, c.windowStart + window, now + 1);
      }
    }
  }

  /** Fewer than twice the maximum in any half-open interval one window long. */
  lemma {:induction false} AtMostTwoWindows(window: int, max: int, times: seq<int>, t: int)
    requires window > 0 && max > 0 && NonDecreasing(times)
    ensures Admissions(window, max, times, t, t + window) <= 2 * max - 1
  {
    if times != [] {
      var last := times[|times| - 1];
      if t <= last < t + window {
        WindowInvHolds(window, max, times);
        var c := After(window, max, times).value;
        if c.windowStart <= t {
          FromWindow(window, max, times, c, t, t + window);
        } else {
          AdmissionsSplit(window, max, times, t, c.windowStart, t + window);
          Fewer(window, max, times, t, c.windowStart, c.windowStart - window + 1, c.windowStart);
          FromWindow(window, max, times, c, c.windowStart, t + window);
        }
      } else {
        AtMostTwoWindows(window, max, times[..|times| - 1], t);
      }
    }
  }

  lemma OneMore(window: int, max: int, times: seq<int>, now: int, from: int, to: int)
    ensures After(window, max, times + [now]) == NextCounter(After(window, max, times), window, max, now)
    ensures Admissions(window, max, times + [now], from, to)
            == Admissions(window, max, times, from, to)
               + if Admits(After(window, max, times), window, max, now) && from <= now < to then 1 else 0
  {
    assert (times + [now])[..|times|] == times;
  }

  function Times(now: int, k: nat): seq<int> {
    seq(k, i requires 0 <= i < k => now)
  }

  lemma OneMoreTime(times: seq<int>, now: int, k: nat)
    requires k > 0
    ensures times + Times(now, k) == times + Times(now, k - 1) + [now]
  {
    assert Times(now, k) == Times(now, k - 1) + [now];
  }

  lemma RoomForOne(c: Counter, window: int, max: int, now: int)
    requires now - c.windowStart < window && c.count < max
    ensures Admits(Some(c), window, max, now) && NextCounter(Some(c), window, max, now) == Some(c.(count := c.count + 1))
  {
  }

  /** Requests at one time, as many as the window still has room for, are all admitted. */
  lemma {:induction false} RoomForAll(window: int, max: int, times: seq<int>, c: Counter, now: int, k: nat, from: int, to: int)
    requires After(window, max, times) == Some(c) && now - c.windowStart < window && c.count + k <= max
    ensures After(window, max, times + Times(now, k)) == Some(c.(count := c.count + k))
    ensures Admissions(window, max, times + Times(now, k), from, to)
            == Admissions(window, max, times, from, to) + if from <= now < to then k else 0
  {
    if k == 0 {
      assert times + Times(now, 0) == times;
    } else {
      RoomForAll(window, max, times, c, now, k - 1, from, to);
      OneMoreTime(times, now, k);
      OneMore(window, max, times + Times(now, k - 1), now, from, to);
      RoomForOne(c.(count := c.count + k - 1), window, max, now);
    }
  }

  /** The opening request, the rest of its window at the window's end, and the next window's
      worth at its start. */
  function Burst(window: int, max: int): seq<int>
    requires max > 0
  {
    [0] + Times(window - 1, max - 1) + ([window] + Times(window, max - 1))
  }

  lemma BurstGrows(window: int, max: int)
    requires window > 1 && max > 0
    ensures NonDecreasing(Burst(window, max))
  {
  }

  /** The bound is reached, whatever the maximum. */
  lemma BoundIsReached(window: int, max: int)
    requires window > 1 && max > 0
    ensures NonDecreasing(Burst(window, max))
    ensures Admissions(window, max, Burst(window, max), window - 1, 2 * window - 1) == 2 * max - 1
  {
    BurstGrows(window, max);
    var from, to := window - 1, 2 * window - 1;
    OneMore(window, max, [], 0, from, to);
    assert [] + [0] == [0];
    var first := [0] + Times(window - 1, max - 1);
    RoomForAll(window, max, [0], Counter(0, 1), window - 1, max - 1, from, to);
    OneMore(window, max, first, window, from, to);
    RoomForAll(window, max, first + [window], Counter(window, 1), window, max - 1, from, to);
    assert first + [window] + Times(window, max - 1) == Burst(window, max);
  }

  /** A denial means the current window has given out exactly the maximum. */
  lemma DeniedWhenFull(window: int, max: int, times: seq<int>, now: int)
    requires window > 0 && max > 0 && NonDecreasing(times + [now])
    requires !Admits(After(window, max, times), window, max, now)
    ensures var start := After(window, max, times).value.windowStart;
            start <= now < start + window && Admissions(window, max, times, start, start + window) == max
  {
    var all := times + [now];
    assert all[|times|] == now && forall i :: 0 <= i < |times| ==> all[i] == times[i];
    WindowInvHolds(window, max, times);
  }

  /** A request is admitted exactly when it is the first, its window is over, or the window has
      given out less than the maximum. */
  lemma AdmittedIffRoom(window: int, max: int, times: seq<int>, now: int)
    requires window > 0 && max > 0 && NonDecreasing(times + [now])
    ensures var c := After(window, max, times);
            && (c.None? <==> times == [])
            && (Admits(c, window, max, now) <==>
                  || times == []
                  || now >= c.value.windowStart + window
                  || Admissions(window, max, times, c.value.windowStart, c.value.windowStart + window) < max)
  {
    if times != [] {
      var all := times + [now];
      assert all[|times|] == now && forall i :: 0 <= i < |times| ==> all[i] == times[i];
      WindowInvHolds(window, max, times);
    }
  }

  // ------------------------------------------------------------ all identities

  datatype Request = Request(identity: Identity, time: int)

  function TimesOf(rs: seq<Request>, identity: Identity): seq<int> {
    if rs == [] then []
    else
      var before, r := TimesOf(rs[..|rs| - 1], identity), rs[|rs| - 1];
      if r.identity == identity then before + [r.time] else before
  }

  lemma TimesMore(window: int, max: int, rs: seq<Request>, i: nat, id: Identity)
    requires i < |rs|
    ensures var before := After(window, max, TimesOf(rs[..i], id));
            After(window, max, TimesOf(rs[..i + 1], id))
            == if rs[i].identity == id then NextCounter(before, window, max, rs[i].time) else before
  {
    assert rs[..i + 1][..i] == rs[..i];
    var ts := TimesOf(rs[..i], id);
    assert (ts + [rs[i].time])[..|ts|] == ts;
  }

  ghost predicate Judged(window: int, max: int, rs: seq<Request>, i: nat, v: Verdict)
    requires i < |rs|
  {
    v.allowed == Admits(After(window, max, TimesOf(rs[..i], rs[i].identity)), window, max, rs[i].time)
  }

  /** Each identity is limited by its own requests alone. */
  method Serve(limiter: RateLimiter, rs: seq<Request>) returns (verdicts: seq<Verdict>)
    requires limiter.window > 0 && limiter.maxRequests > 0 && limiter.byIdentity == map[]
    modifies limiter
    ensures |verdicts| == |rs|
    ensures forall i :: 0 <= i < |rs| ==> Judged(limiter.window, limiter.maxRequests, rs, i, verdicts[i])
  {
    verdicts := [];
    for i := 0 to |rs|
      invariant |verdicts| == i
      invariant forall id :: Find(limiter.byIdentity, id) == After(limiter.window, limiter.maxRequests, TimesOf(rs[..i], id))
      invariant forall j :: 0 <= j < i ==> Judged(limiter.window, limiter.maxRequests, rs, j, verdicts[j])
    {
      var v := limiter.Allow(rs[i].identity, rs[i].time);
      verdicts := verdicts + [v];
      forall id ensures Find(limiter.byIdentity, id) == After(limiter.window, limiter.maxRequests, TimesOf(rs[..i + 1], id)) {
        TimesMore(limiter.window, limiter.maxRequests, rs, i, id);
      }
    }
  }
}
