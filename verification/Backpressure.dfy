/** The scheduler's backpressure: a hysteresis fed by pressure probes, and the choice each job
    loop makes between running and skipping a tick. */
module Backpressure {
  import opened Prelude

  datatype Level = High | Normal | Low

  /** What a probe reads: connections in use and their maximum. */
  datatype Reading = Reading(active: real, maxConn: real)

  function LevelOf(r: Reading): Level {
    var ratio := if r.maxConn <= 0.0 then r.active else r.active / r.maxConn;
    if ratio > 0.70 then High else if ratio < 0.60 then Low else Normal
  }

  // ------------------------------------------------------- history specification

  predicate EndsWith(h: seq<Level>, level: Level, n: nat) {
    n <= |h| && forall i :: |h| - n <= i < |h| ==> h[i] == level
  }

  /** The most recent three equal extreme readings in a row were high. */
  predicate UnderPressure(h: seq<Level>) {
    |h| >= 3 && (EndsWith(h, High, 3) || (!EndsWith(h, Low, 3) && UnderPressure(h[..|h| - 1])))
  }

  function Trailing(h: seq<Level>, level: Level): nat {
    if h == [] || h[|h| - 1] != level then 0 else 1 + Trailing(h[..|h| - 1], level)
  }

  lemma {:induction false} TrailingIs(h: seq<Level>, level: Level, n: nat)
    ensures EndsWith(h, level, n) <==> n <= Trailing(h, level)
  {
    if n > 0 && h != [] && h[|h| - 1] == level {
      var before := h[..|h| - 1];
      TrailingIs(before, level, n - 1);
      assert forall i :: 0 <= i < |before| ==> before[i] == h[i];
    } else if n > 0 && h != [] {
      assert h[|h| - 1] != level;
    }
  }

  /** The counters the code keeps, against the readings that got through. */
  ghost predicate Matches(h: seq<Level>, pressureCount: int, quietCount: int, inPressure: bool) {
    && inPressure == UnderPressure(h)
    && pressureCount >= 0 && quietCount >= 0
    && (!inPressure ==> pressureCount == Trailing(h, High) < 3)
    && (inPressure ==> quietCount == Trailing(h, Low) < 3)
  }

  lemma OneMoreReading(h: seq<Level>, level: Level)
    ensures Trailing(h + [level], High) == if level == High then Trailing(h, High) + 1 else 0
    ensures Trailing(h + [level], Low) == if level == Low then Trailing(h, Low) + 1 else 0
    ensures UnderPressure(h + [level]) ==
            if Trailing(h + [level], High) >= 3 then true
            else if Trailing(h + [level], Low) >= 3 then false
            else UnderPressure(h)
  {
    var g := h + [level];
    assert g[..|g| - 1] == h;
    TrailingIs(g, High, 3);
    TrailingIs(g, Low, 3);
    if |g| < 3 { assert !UnderPressure(g) && !UnderPressure(h); }
  }

  class Scheduler {
    var pressureCount: int
    var quietCount: int
    var inPressure: bool
    ghost var readings: seq<Level>

    constructor ()
      ensures readings == [] && !inPressure && Valid()
    {
      pressureCount, quietCount, inPressure, readings := 0, 0, false, [];
    }

    ghost predicate Valid()
      reads this
    {
      Matches(readings, pressureCount, quietCount, inPressure)
    }

    /** A failed probe reports the state as it is and leaves the counters alone. */
    method ProbePressure(probe: Option<Reading>) returns (pressure: bool)
      requires Valid()
      modifies this
      ensures Valid() && pressure == UnderPressure(readings)
      ensures readings == if probe.Some? then old(readings) + [LevelOf(probe.value)] else old(readings)
    {
      if probe.None? { return inPressure; }
      var maxConn := probe.value.maxConn;
      if maxConn <= 0.0 { maxConn := 1.0; }
      var ratio := probe.value.active / maxConn;
      OneMoreReading(readings, LevelOf(probe.value));
      readings := readings + [LevelOf(probe.value)];
      if ratio > 0.70 {
        pressureCount := pressureCount + 1;
        quietCount := 0;
        if !inPressure && pressureCount >= 3 {
          inPressure := true;
          pressureCount := 0;
        }
      } else if ratio < 0.60 {
        quietCount := quietCount + 1;
        pressureCount := 0;
        if inPressure && quietCount >= 3 {
          inPressure := false;
          quietCount := 0;
        }
      } else {
        pressureCount := 0;
        quietCount := 0;
      }
      pressure := inPressure;
    }
  }

  /** High above 70 percent of the connections, low below 60, a maximum of none counting as one. */
  lemma LevelIs(r: Reading)
    ensures var m := if r.maxConn > 0.0 then r.maxConn else 1.0;
            && (LevelOf(r) == High <==> 100.0 * r.active > 70.0 * m)
            && (LevelOf(r) == Low <==> 100.0 * r.active < 60.0 * m)
  {
    if r.maxConn > 0.0 { RatioIs(r.active, r.maxConn); }
  }

  lemma RatioIs(a: real, m: real)
    requires m > 0.0
    ensures a / m > 0.70 <==> 100.0 * a > 70.0 * m
    ensures a / m < 0.60 <==> 100.0 * a < 60.0 * m
  {
    var ratio := a / m;
    assert ratio * m == a;
    if ratio > 0.70 { assert ratio * m > 0.70 * m; }
    if ratio < 0.60 { assert ratio * m < 0.60 * m; }
    if ratio <= 0.70 { assert ratio * m <= 0.70 * m; }
    if ratio >= 0.60 { assert ratio * m >= 0.60 * m; }
  }

  /** Readings i, i + 1 and i + 2 are all of this level. */
  predicate ThreeFrom(h: seq<Level>, i: int, level: Level) {
    0 <= i && i + 3 <= |h| && h[i] == level && h[i + 1] == level && h[i + 2] == level
  }

  /** Under pressure exactly when three high readings came in a row and no three low ones since. */
  lemma {:induction false} UnderPressureIff(h: seq<Level>)
    ensures UnderPressure(h) <==>
      exists i :: ThreeFrom(h, i, High) && forall j :: j > i ==> !ThreeFrom(h, j, Low)
  {
    if |h| >= 3 {
      var n := |h| - 3;
      var before := h[..|h| - 1];
      UnderPressureIff(before);
      forall i, level | i < n ensures ThreeFrom(h, i, level) <==> ThreeFrom(before, i, level) {
      }
      assert ThreeFrom(h, n, High) <==> EndsWith(h, High, 3);
      assert ThreeFrom(h, n, Low) <==> EndsWith(h, Low, 3);
      if EndsWith(h, High, 3) {
        assert ThreeFrom(h, n, High) && forall j :: j > n ==> !ThreeFrom(h, j, Low);
      } else if !EndsWith(h, Low, 3) && UnderPressure(before) {
        var i :| ThreeFrom(before, i, High) && forall j :: j > i ==> !ThreeFrom(before, j, Low);
        assert ThreeFrom(h, i, High);
        forall j | j > i ensures !ThreeFrom(h, j, Low) {
          if j < n { assert !ThreeFrom(before, j, Low); }
        }
      }
      if i :| ThreeFrom(h, i, High) && forall j :: j > i ==> !ThreeFrom(h, j, Low) {
        if i < n {
          assert !ThreeFrom(h, n, Low);
          assert ThreeFrom(before, i, High);
          forall j | j > i ensures !ThreeFrom(before, j, Low) {
            if j < n { assert !ThreeFrom(h, j, Low); }
          }
        }
      }
    }
  }

  // ------------------------------------------------------------ how it changes

  ghost predicate FlipsAt(h: seq<Level>, i: nat) {
    0 < i <= |h| && UnderPressure(h[..i]) != UnderPressure(h[..i - 1])
  }

  lemma FlipNeedsThree(h: seq<Level>, i: nat)
    requires FlipsAt(h, i)
    ensures i >= 3 && EndsWith(h[..i], if UnderPressure(h[..i]) then High else Low, 3)
  {
    var g := h[..i];
    assert g[..|g| - 1] == h[..i - 1];
  }

  lemma {:induction false} NoFlipBetween(h: seq<Level>, i: nat, j: nat)
    requires i <= j <= |h| && forall k :: i < k <= j ==> !FlipsAt(h, k)
    ensures UnderPressure(h[..j]) == UnderPressure(h[..i])
  {
    if i < j {
      NoFlipBetween(h, i, j - 1);
      assert !FlipsAt(h, j);
    }
  }

  /** Between two successive flips there are at least three readings, and the first comes no
      sooner than the third reading. */
  lemma {:induction false} FlipsAreApart(h: seq<Level>, i: nat, j: nat)
    requires FlipsAt(h, i) && FlipsAt(h, j) && i < j
    ensures j - i >= 3
  {
    if n: nat :| i < n < j && FlipsAt(h, n) {
      FlipsAreApart(h, i, n);
    } else {
      NoFlipBetween(h, i, j - 1);
      FlipNeedsThree(h, i);
      FlipNeedsThree(h, j);
      var a, b := h[..i], h[..j];
      assert a[i - 1] == b[i - 1];
      assert a[i - 1] == if UnderPressure(a) then High else Low;
    }
  }

  // --------------------------------------------------------------- job loops

  datatype Policy = SkipOnPressure | DegradeOnPressure

  /** How many ticks under pressure in a row the last one ends. */
  function Streak(pressures: seq<bool>): nat {
    if pressures == [] || !pressures[|pressures| - 1] then 0 else 1 + Streak(pressures[..|pressures| - 1])
  }

  /** A skipping job sits out every tick under pressure; a degrading one every second tick of a
      stretch under pressure, never the first. */
  predicate Skips(policy: Policy, pressures: seq<bool>) {
    Streak(pressures) > 0 && (policy == SkipOnPressure || Streak(pressures) % 2 == 0)
  }

  class JobLoop {
    const policy: Policy
    var skipNext: bool
    var skipStreak: int
    ghost var pressures: seq<bool>

    constructor (policy: Policy)
      ensures this.policy == policy && pressures == [] && Valid()
    {
      this.policy := policy;
      skipNext, skipStreak, pressures := false, 0, [];
    }

    ghost predicate Valid()
      reads this
    {
      && (policy == DegradeOnPressure ==> skipNext == (Streak(pressures) % 2 == 1))
      && skipStreak == (if policy == SkipOnPressure then Streak(pressures) else Streak(pressures) / 2)
    }

    method Tick(inPressure: bool) returns (skipped: bool)
      requires Valid()
      modifies this
      ensures Valid() && pressures == old(pressures) + [inPressure]
      ensures skipped == Skips(policy, pressures)
    {
      ghost var after := pressures + [inPressure];
      assert after[..|after| - 1] == pressures;
      pressures := after;
      if !inPressure {
        skipNext := false;
        skipStreak := 0;
      }
      if inPressure {
        var shouldSkip := false;
        match policy {
          case SkipOnPressure => shouldSkip := true;
          case DegradeOnPressure =>
            if skipNext {
              shouldSkip := true;
              skipNext := false;
            } else {
              skipNext := true;
            }
        }
        if shouldSkip {
          skipStreak := skipStreak + 1;
          return true;
        }
      }
      skipped := false;
    }
  }

  /** No tick is sat out without pressure. Under it a skipping job sits out every one, a degrading
      job exactly those after a tick under pressure that it did not sit out. */
  lemma SkipsIs(policy: Policy, pressures: seq<bool>, now: bool)
    ensures Skips(policy, pressures + [now]) <==>
      now && (policy == SkipOnPressure
              || (pressures != [] && pressures[|pressures| - 1] && !Skips(DegradeOnPressure, pressures)))
  {
    var s := Streak(pressures);
    assert (pressures + [now])[..|pressures|] == pressures;
    assert Streak(pressures + [now]) == if now then s + 1 else 0;
    assert s > 0 <==> pressures != [] && pressures[|pressures| - 1];
    assert (s + 1) % 2 == 0 <==> s % 2 == 1;
  }

  /** Whatever the pressure does, a degrading job is never skipped on two ticks in a row. */
  lemma DegradeNeverSkipsTwice(pressures: seq<bool>, next: bool)
    ensures !(Skips(DegradeOnPressure, pressures) && Skips(DegradeOnPressure, pressures + [next]))
  {
    assert (pressures + [next])[..|pressures|] == pressures;
  }

  /** Under steady pressure it runs on exactly every second tick: of any two in a row, one. */
  lemma {:induction false} DegradeRunsHalf(pressures: seq<bool>)
    requires Streak(pressures) >= 1
    ensures Skips(DegradeOnPressure, pressures) != Skips(DegradeOnPressure, pressures + [true])
  {
    assert (pressures + [true])[..|pressures|] == pressures;
  }
}
