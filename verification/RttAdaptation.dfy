/** The round-trip-time smoother and the encoding targets that follow it. */
module RttAdaptation {
  import opened Basics

  /** One sample; a sample that is not positive is ignored, and the first one is taken as it is. */
  function Smooth(smoothed: int, rtt: int): int {
    if rtt <= 0 then smoothed else if smoothed <= 0 then rtt else (smoothed * 7 + rtt * 3) / 10
  }

  /** The smoothed value after a run of samples. */
  function Smoothed(samples: seq<int>): int {
    if samples == [] then 0 else Smooth(Smoothed(samples[..|samples| - 1]), samples[|samples| - 1])
  }

  datatype Target = Target(fps: nat, quality: int)

  /** Settings: `RDP_QUALITY`, where it is set and a number. */
  datatype Config = Config(maxFps: nat, envQuality: Option<int>)

  function TargetFor(smoothed: int): Target {
    if smoothed < 35 then Target(60, 95)
    else if smoothed < 75 then Target(60, 85)
    else if smoothed < 130 then Target(45, 75)
    else if smoothed < 220 then Target(30, 65)
    else Target(20, 50)
  }

  function Limited(t: Target, config: Config): Target {
    Target(Min(t.fps, config.maxFps),
           if config.envQuality.Some?
               && 10 <= config.envQuality.value <= 100 then config.envQuality.value else t.quality)
  }

  /** `emitted` counts the reconfigurations. */
  datatype State = State(smoothed: int, current: Target, emitted: nat)

  function Tick(s: State, rtt: int, config: Config): State {
    if rtt <= 0 then s
    else
      var smoothed := Smooth(s.smoothed, rtt);
      var target := Limited(TargetFor(smoothed), config);
      if target != s.current then State(smoothed, target, s.emitted + 1) else s.(smoothed := smoothed)
  }

  function Ticks(s: State, rtt: int, config: Config, n: nat): State {
    if n == 0 then s else Tick(Ticks(s, rtt, config, n - 1), rtt, config)
  }

  lemma {:induction false} SmoothedSnoc(samples: seq<int>, rtt: int)
    ensures Smoothed(samples + [rtt]) == Smooth(Smoothed(samples), rtt)
  {
    assert (samples + [rtt])[..|samples|] == samples;
  }

  lemma {:induction false} SmoothWithin(smoothed: int, rtt: int, low: int, high: int)
    requires 0 < low <= smoothed <= high && low <= rtt <= high
    ensures low <= Smooth(smoothed, rtt) <= high
  {
  }

  predicate AnyPositive(samples: seq<int>) {
    exists k :: 0 <= k < |samples| && samples[k] > 0
  }

  /** The smoothed value lies between any bounds of the positive samples, so between their least and
      their greatest; it is zero exactly as long as there was none. */
  lemma {:induction false} SmoothedWithin(samples: seq<int>, low: int, high: int)
    requires low > 0 && forall k :: 0 <= k < |samples| && samples[k] > 0 ==> low <= samples[k] <= high
    ensures if AnyPositive(samples) then low <= Smoothed(samples) <= high else Smoothed(samples) == 0
  {
    if samples != [] {
      var before, last := samples[..|samples| - 1], samples[|samples| - 1];
      SmoothedWithin(before, low, high);
      assert AnyPositive(samples) <==> AnyPositive(before) || last > 0 by {
        if AnyPositive(before) {
          var k :| 0 <= k < |before| && before[k] > 0;
          assert samples[k] > 0;
        }
        if AnyPositive(samples) && !(last > 0) {
          var k :| 0 <= k < |samples| && samples[k] > 0;
          assert before[k] > 0;
        }
      }
      if last > 0 && AnyPositive(before) { SmoothWithin(Smoothed(before), last, low, high); }
    }
  }

  /** Under a constant round trip time r the gap above r shrinks to floor(7d/10), the gap below r to
      ceil(7d/10), and the value never crosses r. */
  lemma {:induction false} GapShrinks(r: int, d: nat)
    requires r > 0
    ensures Smooth(r + d, r) == r + 7 * d / 10
    ensures d < r ==> Smooth(r - d, r) == r - (7 * d + 9) / 10
  {
  }

  /** The fixed points of a constant round trip time r are r and the three values below it. */
  lemma {:induction false} FixedIff(s: int, r: int)
    requires s > 0 && r > 0
    ensures Smooth(s, r) == s <==> r - 3 <= s <= r
  {
  }

  function Gap(s: int, r: int): nat {
    if s >= r then s - r else r - s
  }

  function Repeated(s: int, r: int, n: nat): int
    decreases n
  {
    if n == 0 then s else Repeated(Smooth(s, r), r, n - 1)
  }

  lemma {:induction false} GapFalls(s: int, r: int)
    requires s > 0 && r > 0
    ensures Smooth(s, r) > 0 && (s >= r ==> r <= Smooth(s, r) <= s) && (s <= r ==> s <= Smooth(s, r) <= r)
    ensures Smooth(s, r) != s ==> Gap(Smooth(s, r), r) < Gap(s, r)
  {
  }

  lemma {:induction false} FixedStays(s: int, r: int, n: nat)
    requires Smooth(s, r) == s
    ensures Repeated(s, r, n) == s
  {
    if n > 0 { FixedStays(s, r, n - 1); }
  }

  /** A constant round trip time r settles the value for good in [r - 3, r], after no more ticks than
      the gap it started from. */
  lemma {:induction false} Settles(s: int, r: int, n: nat)
    requires s > 0 && r > 0 && n >= Gap(s, r)
    ensures r - 3 <= Repeated(s, r, n) <= r && Smooth(Repeated(s, r, n), r) == Repeated(s, r, n)
    decreases n
  {
    FixedIff(s, r);
    if Smooth(s, r) == s {
      FixedStays(s, r, n);
    } else {
      GapFalls(s, r);
      Settles(Smooth(s, r), r, n - 1);
    }
  }

  lemma {:induction false} SmoothMonotone(s: int, t: int, a: int, b: int)
    requires 0 <= s <= t && 0 < a <= b && (s == 0 <==> t == 0)
    ensures 0 < Smooth(s, a) <= Smooth(t, b)
  {
  }

  predicate NoLower(t: Target, u: Target) {
    t.fps >= u.fps && t.quality >= u.quality
  }

  lemma {:induction false} TargetsFall(s: int, t: int, config: Config)
    requires s <= t
    ensures NoLower(Limited(TargetFor(s), config), Limited(TargetFor(t), config))
  {
  }

  /** A connection that is slower sample by sample never gets a higher frame rate or quality. */
  lemma {:induction false} SlowerNeverBetter(a: seq<int>, b: seq<int>, config: Config)
    requires |a| == |b| && forall k :: 0 <= k < |a| ==> 0 < a[k] <= b[k]
    ensures 0 <= Smoothed(a) <= Smoothed(b) && (Smoothed(a) == 0 <==> a == []) && (Smoothed(b) == 0 <==> b == [])
    ensures NoLower(Limited(TargetFor(Smoothed(a)), config), Limited(TargetFor(Smoothed(b)), config))
  {
    hide Limited, TargetFor, NoLower;
    if a != [] {
      var n := |a| - 1;
      SlowerNeverBetter(a[..n], b[..n], config);
      SmoothMonotone(Smoothed(a[..n]), Smoothed(b[..n]), a[n], b[n]);
    }
    TargetsFall(Smoothed(a), Smoothed(b), config);
  }

  // Reconfigurations.

  /** The step of the target table. */
  function Level(smoothed: int): nat {
    if smoothed < 35 then 0 else if smoothed < 75 then 1 else if smoothed < 130 then 2 else if smoothed < 220 then 3
        else 4
  }

  lemma {:induction false} LevelGivesTarget(s: int, t: int)
    requires Level(s) == Level(t)
    ensures TargetFor(s) == TargetFor(t)
  {
  }

  /** After `n + 1` ticks: the current target is the one for the smoothed value, and every emission
      after the first one has used up a step of the table. */
  lemma {:induction false} TicksInv(s: State, r: int, config: Config, n: nat)
    requires r > 0
    ensures var first, t := Tick(s, r, config), Ticks(s, r, config, n + 1);
            && t.smoothed > 0 && t.current == Limited(TargetFor(t.smoothed), config)
            && if first.smoothed >= r then
                 && r <= t.smoothed <= first.smoothed
                 && t.emitted <= s.emitted + 1 + Level(first.smoothed) - Level(t.smoothed)
               else
                 && first.smoothed <= t.smoothed <= r
                 && t.emitted <= s.emitted + 1 + Level(t.smoothed) - Level(first.smoothed)
  {
    hide Limited, TargetFor;
    var first := Tick(s, r, config);
    assert Ticks(s, r, config, 1) == Tick(Ticks(s, r, config, 0), r, config) == first;
    if n > 0 {
      TicksInv(s, r, config, n - 1);
      var before := Ticks(s, r, config, n);
      GapFalls(before.smoothed, r);
      var after := Smooth(before.smoothed, r);
      if Level(after) == Level(before.smoothed) { LevelGivesTarget(after, before.smoothed); }
    }
  }

  /** With a constant positive round trip time and constant settings at most five reconfigurations are
      emitted, however long it goes on; and from the first tick on the current target is always the
      one for the smoothed value. */
  lemma {:induction false} AtMostFiveReconfigurations(s: State, r: int, config: Config, n: nat)
    requires r > 0
    ensures Ticks(s, r, config, n).emitted <= s.emitted + 5
    ensures n > 0 ==> Ticks(s, r, config, n).current == Limited(TargetFor(Ticks(s, r, config, n).smoothed), config)
  {
    if n > 0 { TicksInv(s, r, config, n - 1); }
  }

  // What is emitted.

  /** Whatever is emitted respects the configured frame rate and, where it is between 10 and 100, the
      configured quality; and it lies between 20 and 60 frames, and 50 and 95 percent, otherwise. */
  lemma {:induction false} EmittedWithin(s: State, rtt: int, config: Config)
    requires Tick(s, rtt, config).emitted != s.emitted
    ensures var t := Tick(s, rtt, config).current;
            && t != s.current && t.fps <= config.maxFps && t.fps <= 60
            && (t.fps >= 20 || t.fps == config.maxFps)
            && if config.envQuality.Some? && 10 <= config.envQuality.value <= 100
               then t.quality == config.envQuality.value else 50 <= t.quality <= 95
  {
  }

  /** These values, as far as the settings allow. */
  predicate Meets(t: Target, fps: nat, quality: int, config: Config) {
    && t.fps <= config.maxFps && t.fps <= fps && (t.fps == fps || t.fps == config.maxFps)
    && (config.envQuality.None? ==> t.quality == quality)
    && (config.envQuality.Some? && 10 <= config.envQuality.value <= 100 ==> t.quality == config.envQuality.value)
    && (config.envQuality.Some? && !(10 <= config.envQuality.value <= 100) ==> t.quality == quality)
  }

  lemma {:induction false} RepeatedSnoc(s: int, r: int, n: nat)
    ensures Repeated(s, r, n + 1) == Smooth(Repeated(s, r, n), r)
    decreases n
  {
    if n > 0 { RepeatedSnoc(Smooth(s, r), r, n - 1); }
  }

  lemma {:induction false} TicksSmoothed(s: State, r: int, config: Config, n: nat)
    requires r > 0
    ensures Ticks(s, r, config, n).smoothed == Repeated(s.smoothed, r, n)
  {
    hide Limited, TargetFor, Smooth, Repeated;
    if n > 0 {
      TicksSmoothed(s, r, config, n - 1);
      RepeatedSnoc(s.smoothed, r, n - 1);
    } else {
      NotRepeated(s.smoothed, r);
    }
  }

  lemma {:induction false} NotRepeated(s: int, r: int)
    ensures Repeated(s, r, 0) == s
  {
  }

  /** A constant round trip time r, met long enough, fixes the target: 60 frames at 95 percent below 35 ms,
      60 at 85 from there to 75, 45 at 75 to 130, 30 at 65 to 220, 20 at 50 beyond, but for the three
      milliseconds above each step, where the smoothed value may stay below; the configured frame rate
      is never exceeded, and a configured quality stands. */
  lemma {:induction false} SteadyTarget(s: State, r: int, config: Config, n: nat)
    requires r > 0 && n > 0 && (s.smoothed > 0 ==> n >= Gap(s.smoothed, r))
    ensures var t := Ticks(s, r, config, n).current;
            && (r < 35 ==> Meets(t, 60, 95, config))
            && (38 <= r < 75 ==> Meets(t, 60, 85, config))
            && (78 <= r < 130 ==> Meets(t, 45, 75, config))
            && (133 <= r < 220 ==> Meets(t, 30, 65, config))
            && (223 <= r ==> Meets(t, 20, 50, config))
  {
    TicksSmoothed(s, r, config, n);
    AtMostFiveReconfigurations(s, r, config, n);
    if s.smoothed > 0 {
      Settles(s.smoothed, r, n);
    } else {
      assert Smooth(s.smoothed, r) == r && Smooth(r, r) == r;
      FixedStays(r, r, n - 1);
    }
  }

  class Adapter {
    var lastRttMs: int
    var smoothedRttMs: int
    var current: Target
    var maxTargetFps: nat
    ghost var samples: seq<int>      // history: the samples since the reset
    ghost var emitted: nat

    ghost function Model(): State
      reads this
    {
      State(smoothedRttMs, current, emitted)
    }

    ghost predicate Valid()
      reads this
    {
      smoothedRttMs == Smoothed(samples)
    }

    constructor (maxFps: nat)
      ensures Valid() && Model() == State(0, Target(60, 95), 0) && samples == [] && maxTargetFps == maxFps
          && lastRttMs == 0
    {
      lastRttMs, smoothedRttMs, current, maxTargetFps := 0, 0, Target(60, 95), maxFps;
      samples, emitted := [], 0;
    }

    /** The reset that goes with a disconnected peer. */
    method Reset()
      modifies this
      ensures Valid() && Model() == State(0, Target(60, 95), old(emitted)) && samples == [] && lastRttMs == 0
          && maxTargetFps == old(maxTargetFps)
    {
      lastRttMs, smoothedRttMs, current := 0, 0, Target(60, 95);
      samples := [];
    }

    /** The new target, if one is emitted. */
    method CheckNetworkAdaptation(envQuality: Option<int>) returns (configured: Option<Target>)
      requires Valid()
      modifies `smoothedRttMs, `current, `samples, `emitted
      ensures Valid() && samples == old(samples) + [lastRttMs]
      ensures Model() == Tick(old(Model()), lastRttMs, Config(maxTargetFps, envQuality))
      ensures configured.Some? <==> emitted != old(emitted)
      ensures configured == if current != old(current) then Some(current) else None
    {
      hide Smoothed;
      samples := samples + [lastRttMs];
      SmoothedSnoc(old(samples), lastRttMs);
      var rtt := lastRttMs;
      if rtt <= 0 { return None; }
      var smoothed := smoothedRttMs;
      if smoothed <= 0 { smoothed := rtt; } else { smoothed := (smoothed * 7 + rtt * 3) / 10; }
      smoothedRttMs := smoothed;
      var targetFps, targetQuality := 60, 90;
      if smoothed < 35 {
        targetFps, targetQuality := 60, 95;
      } else if smoothed < 75 {
        targetFps, targetQuality := 60, 85;
      } else if smoothed < 130 {
        targetFps, targetQuality := 45, 75;
      } else if smoothed < 220 {
        targetFps, targetQuality := 30, 65;
      } else {
        targetFps, targetQuality := 20, 50;
      }
      targetFps := Min(targetFps, maxTargetFps);
      if envQuality.Some? && 10 <= envQuality.value <= 100 { targetQuality := envQuality.value; }
      if targetFps != current.fps || targetQuality != current.quality {
        current := Target(targetFps, targetQuality);
        emitted := emitted + 1;
        return Some(current);
      }
      return None;
    }
  }
}
