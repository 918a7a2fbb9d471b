/** The gain-curve mapper (`calculateVolumeMultiplier`, identical in the web
    and the native service) and the logarithmic curve it shares with the
    Android adapter. `Math.log` is kept abstract: every function here takes
    the logarithm as a parameter `ln`, of which only `ln(100) > 0` is used. */
module Gain {

  const MaxVolume: int := 100

  /** A logarithm the curve can divide by. */
  predicate UsableLog(ln: real -> real) {
    ln(MaxVolume as real) > 0.0
  }

  /** `1 - log(100 - level) / log(100)`, unclamped, as the Android adapter
      applies it. */
  function LogCurve(ln: real -> real, level: int): real
    requires UsableLog(ln)
  {
    1.0 - ln((MaxVolume - level) as real) / ln(MaxVolume as real)
  }

  /** `Math.max(0, Math.min(1, x))`. */
  function Clamp01(x: real): (r: real)
    ensures 0.0 <= r <= 1.0
    ensures 0.0 <= x <= 1.0 ==> r == x
    ensures x < 0.0 ==> r == 0.0
    ensures x > 1.0 ==> r == 1.0
  {
    if x < 0.0 then 0.0 else if x > 1.0 then 1.0 else x
  }

  /** `calculateVolumeMultiplier(volume)` for a slider level 0..100. */
  function VolumeMultiplier(ln: real -> real, volume: int): (g: real)
    requires UsableLog(ln)
    requires 0 <= volume <= MaxVolume
    ensures 0.0 <= g <= 1.0
    ensures volume == 0 ==> g == 0.0
    ensures volume == MaxVolume ==> g == 1.0
  {
    if volume == 0 then 0.0
    else if volume == MaxVolume then 1.0
    else Clamp01(LogCurve(ln, volume))
  }

  /** Between the extremes the web gain is the Android curve, clamped; where the
      curve already lies in [0, 1] the two agree exactly. */
  lemma GainClampsAdapterCurve(ln: real -> real, volume: int)
    requires UsableLog(ln)
    requires 0 < volume < MaxVolume
    ensures VolumeMultiplier(ln, volume) == Clamp01(LogCurve(ln, volume))
    ensures 0.0 <= LogCurve(ln, volume) <= 1.0 ==> VolumeMultiplier(ln, volume) == LogCurve(ln, volume)
  {
  }

  /** The curve stays in [0, 1] exactly when log(100 - level) lies between 0
      and log(100); the clamp only acts outside that. */
  lemma CurveInRange(ln: real -> real, level: int)
    requires UsableLog(ln)
    ensures 0.0 <= LogCurve(ln, level) <= 1.0
            <==> 0.0 <= ln((MaxVolume - level) as real) <= ln(MaxVolume as real)
  {
    var a, b := ln((MaxVolume - level) as real), ln(MaxVolume as real);
    var q := a / b;
    assert q * b == a;
    if 0.0 <= q <= 1.0 {
      assert 0.0 <= q * b <= b;
    }
    if 0.0 <= a <= b {
      assert 0.0 <= q && q <= 1.0;
    }
  }
}
