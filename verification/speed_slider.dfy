/** The speed slider: an integer slider position from 3 to 102 stands for the
    speed position / 41, and a speed is shown on the slider at the nearest
    position. */
module SpeedSlider {
  import opened Text
  import opened Numbers

  const SpeedMin: int := 3
  const SpeedMax: int := 102
  const SpeedDivisor: int := 41

  /** `sliderValueToSpeed(value)`. */
  function SliderValueToSpeed(value: int): (speed: real)
    ensures speed * SpeedDivisor as real == value as real
  {
    value as real / SpeedDivisor as real
  }

  /** `speedToSliderValue(speed)`: the slider position nearest to the speed,
      the upper one on a tie. */
  function SpeedToSliderValue(speed: real): (value: int)
    ensures value as real - 0.5 <= speed * SpeedDivisor as real < value as real + 0.5
  {
    JsRound(speed * SpeedDivisor as real)
  }

  /** `handleSliderChange(sliderValue)`: what it forwards to `onValueChange`. */
  function HandleSliderChange(sliderValue: int): (forwarded: real)
    ensures forwarded * 41.0 == sliderValue as real
    ensures SpeedToSliderValue(forwarded) == sliderValue
  {
    SliderValueToSpeed(sliderValue)
  }

  /** `Speed: ${value.toFixed(2)}x` for a non-negative speed. */
  function SpeedLabel(speed: real): (text: string)
    requires speed >= 0.0
    ensures |text| >= 12 && text[..7] == "Speed: " && text[|text| - 1] == 'x'
    ensures ParseFixed2(text[7..|text| - 1]) == Round2(speed)
  {
    var digits := ToFixed2(Round2(speed));
    ParseFixed2ToFixed2(Round2(speed));
    assert ("Speed: " + digits + "x")[7..|"Speed: " + digits + "x"| - 1] == digits;
    "Speed: " + digits + "x"
  }

  /** Every integer position survives the trip to a speed and back. */
  lemma SliderRoundTrip(value: int)
    ensures SpeedToSliderValue(SliderValueToSpeed(value)) == value
  {
  }

  /** A speed comes back from its slider position at most half a step, 1/82,
      away. */
  lemma SpeedRoundTrip(speed: real)
    ensures Abs(SliderValueToSpeed(SpeedToSliderValue(speed)) - speed) <= 1.0 / 82.0
  {
    var v := SpeedToSliderValue(speed);
    var back := SliderValueToSpeed(v);
    assert back * 41.0 == v as real;
    assert (back - speed) * 41.0 == v as real - speed * 41.0;
  }

  /** Higher positions are strictly faster, so distinct positions are
      distinct speeds. */
  lemma SliderStrictlyIncreasing(a: int, b: int)
    ensures a < b <==> SliderValueToSpeed(a) < SliderValueToSpeed(b)
  {
  }

  /** Faster speeds never sit at lower positions. */
  lemma SpeedToSliderMonotone(x: real, y: real)
    requires x <= y
    ensures SpeedToSliderValue(x) <= SpeedToSliderValue(y)
  {
    assert x * 41.0 <= y * 41.0;
  }

  /** Normal speed sits at position 41. */
  lemma NormalSpeedAtFortyOne()
    ensures SpeedToSliderValue(1.0) == SpeedDivisor
    ensures SliderValueToSpeed(SpeedDivisor) == 1.0
  {
  }

  /** Every position of the slider is a speed inside [0.05, 2.5]; the ends
      are 3/41 and 102/41, which the label shows as 0.07 and 2.49. */
  lemma SliderRange(value: int)
    requires SpeedMin <= value <= SpeedMax
    ensures 0.05 < SliderValueToSpeed(value) < 2.5
    ensures SpeedLabel(SliderValueToSpeed(SpeedMin)) == "Speed: 0.07x"
    ensures SpeedLabel(SliderValueToSpeed(SpeedMax)) == "Speed: 2.49x"
  {
    assert Round2(3.0 / 41.0) == 7;
    assert Round2(102.0 / 41.0) == 249;
    assert ToFixed2(7) == "0.07" by {
      assert NatToString(0) == "0";
    }
    assert ToFixed2(249) == "2.49" by {
      assert NatToString(2) == "2";
    }
  }
}
