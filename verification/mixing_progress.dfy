/** The texts of the mixing-progress modal: the elapsed and remaining time as
    `m:ss`, the remaining-time estimate, the percent label, and when the time
    row appears. Times are milliseconds. */
module MixingProgress {
  import opened Text
  import opened Numbers
  import opened Outcomes

  /** The whole seconds of a time: `Math.floor(ms / 1000)`. */
  function WholeSeconds(ms: real): int {
    (ms / 1000.0).Floor
  }

  /** `formatTime(ms)`: the whole seconds of the time as `m:ss`. */
  function FormatTime(ms: real): string {
    FormatSeconds(WholeSeconds(ms))
  }

  /** Floored minutes, a colon, and the remaining seconds padded to two
      characters with zeros. Negative counts keep JavaScript's signed
      remainder. */
  function FormatSeconds(seconds: int): string {
    Clock(seconds / 60, JsRem(seconds, 60))
  }

  /** Minutes, a colon, and seconds padded to two characters with zeros. */
  function Clock(minutes: int, seconds: int): (text: string)
    ensures 0 <= seconds < 60 ==> |text| >= 4 && text[|text| - 3] == ':'
    ensures 0 <= seconds < 60 ==> IsDigit(text[|text| - 2]) && IsDigit(text[|text| - 1])
  {
    ColonJoin(IntToString(minutes), TwoDigits(seconds))
  }

  /** `String(seconds).padStart(2, '0')`. */
  function TwoDigits(seconds: int): (padded: string)
    ensures 0 <= seconds < 60 ==> |padded| == 2 && IsDigit(padded[0]) && IsDigit(padded[1])
  {
    var padded := PadStart(IntToString(seconds), 2, '0');
    if 0 <= seconds < 10 then
      assert padded == ['0'] + NatToString(seconds);
      padded
    else if 10 <= seconds < 60 then
      assert padded == NatToString(seconds);
      padded
    else padded
  }

  /** `a:b`; with a non-empty `a` and a two-character `b` it reads `m:ss`
      from the right. */
  function ColonJoin(a: string, b: string): (text: string)
    ensures |text| == |a| + 1 + |b|
    ensures |a| >= 1 ==> text[0] == a[0]
    ensures |a| >= 1 && |b| == 2 ==> text[|text| - 3] == ':' && text[|text| - 2] == b[0] && text[|text| - 1] == b[1]
  {
    a + ":" + b
  }

  /** Reading `m:ss` back gives minutes * 60 + seconds = the whole seconds,
      with seconds below 60: the text loses nothing. */
  lemma FormatSecondsReadsBack(seconds: nat)
    ensures var text := FormatSeconds(seconds);
      && ParseNat(text[..|text| - 3]) == seconds / 60
      && 0 <= ParseNat(text[|text| - 2..]) < 60
      && ParseNat(text[..|text| - 3]) * 60 + ParseNat(text[|text| - 2..]) == seconds
  {
    JsRemOfNatural(seconds, 60);
    ClockReadsBack(seconds / 60, seconds % 60);
    MinutesAndSeconds(seconds);
  }

  lemma MinutesAndSeconds(seconds: nat)
    ensures seconds / 60 * 60 + seconds % 60 == seconds
  {
  }

  /** A clock text with seconds below 60 reads back as its two numbers. */
  lemma ClockReadsBack(minutes: nat, r: int)
    requires 0 <= r < 60
    ensures var text := Clock(minutes, r);
      ParseNat(text[..|text| - 3]) == minutes && ParseNat(text[|text| - 2..]) == r
  {
    ClockParts(minutes, r);
    SplitReadsBack(Clock(minutes, r), NatToString(minutes), TwoDigits(r), minutes, r);
  }

  /** A clock text is the minutes' digits joined to the padded seconds, and
      each part reads back as its number. */
  lemma ClockParts(minutes: nat, r: int)
    requires 0 <= r < 60
    ensures Clock(minutes, r) == ColonJoin(NatToString(minutes), TwoDigits(r))
    ensures ParseNat(NatToString(minutes)) == minutes && ParseNat(TwoDigits(r)) == r
  {
    ParseNatToString(minutes);
    TwoDigitsReadBack(r);
  }

  /** Splitting `a:bb` at the colon reads back whatever `a` and `bb` read. */
  lemma SplitReadsBack(text: string, a: string, b: string, m: int, r: int)
    requires text == ColonJoin(a, b)
    requires |a| >= 1 && |b| == 2 && ParseNat(a) == m && ParseNat(b) == r
    ensures ParseNat(text[..|text| - 3]) == m && ParseNat(text[|text| - 2..]) == r
  {
    assert text == a + ":" + b;
    assert text[..|text| - 3] == a;
    assert text[|text| - 2..] == b;
  }

  /** Two padded digits read back as the seconds they show. */
  lemma TwoDigitsReadBack(r: int)
    requires 0 <= r < 60
    ensures ParseNat(TwoDigits(r)) == r
  {
    var padded := TwoDigits(r);
    if r < 10 {
      assert padded == ['0'] + NatToString(r);
      assert padded[..1] == ['0'];
      DigitValueOfDigit(r);
      assert ParseNat(padded[..1]) == 0 by {
        assert padded[..1][..0] == [];
      }
    } else {
      assert padded == NatToString(r);
      ParseNatToString(r);
    }
  }

  /** Two-minute-five-and-a-bit reads `2:05`; under a second reads `0:00`. */
  lemma FormatTimeExamples()
    ensures FormatTime(125400.0) == "2:05"
    ensures FormatTime(999.0) == "0:00"
  {
    assert WholeSeconds(125400.0) == 125 && WholeSeconds(999.0) == 0;
    ClockExample(2, 5, '2', '5');
    ClockExample(0, 0, '0', '0');
  }

  /** A one-digit minute count and a one-digit seconds count read `m:0s`. */
  lemma ClockExample(m: nat, r: nat, mc: char, rc: char)
    requires m < 10 && r < 10 && mc == Digit(m) && rc == Digit(r)
    ensures Clock(m, r) == [mc, ':', '0', rc]
  {
    var padded := TwoDigits(r);
    assert padded == ['0'] + NatToString(r);
    assert padded[0] == '0' && padded[1] == rc;
    var text := Clock(m, r);
    assert text == ColonJoin(NatToString(m), padded);
    assert |text| == 4 && text[0] == mc && text[1] == ':' && text[2] == '0' && text[3] == rc;
  }

  /** `!x` of an optional number: undefined or zero. */
  predicate Falsy(x: Option<real>) {
    x.None? || x.value == 0.0
  }

  /** The remaining-time estimate: still calculating, or a time left. */
  datatype Estimate = Calculating | Left(ms: real)

  /** `getEstimatedTimeRemaining()` before formatting: with elapsed time
      `currentTime` at fraction `progress`, the whole mix takes
      `currentTime / progress`; what is left of it, floored at 0. */
  function EstimateRemaining(progress: real, currentTime: Option<real>, totalDuration: Option<real>): (e: Estimate)
    ensures e.Calculating? <==> Falsy(totalDuration) || Falsy(currentTime) || progress == 0.0
    ensures e.Left? ==> e.ms >= 0.0
  {
    if Falsy(totalDuration) || Falsy(currentTime) || progress == 0.0 then Calculating
    else
      var elapsed := currentTime.value;
      var total := elapsed / progress;
      Left(if total - elapsed > 0.0 then total - elapsed else 0.0)
  }

  /** The estimate's text. */
  function RemainingText(progress: real, currentTime: Option<real>, totalDuration: Option<real>): string {
    match EstimateRemaining(progress, currentTime, totalDuration)
    case Calculating => "Calculating..."
    case Left(ms) => FormatTime(ms)
  }

  /** For a forward-moving mix the estimate completes the elapsed time to the
      projected total: elapsed + remaining = elapsed / progress. Past the end
      nothing is left. */
  lemma EstimateCompletesTotal(progress: real, currentTime: real, totalDuration: real)
    requires currentTime > 0.0 && totalDuration != 0.0
    requires 0.0 < progress
    ensures var e := EstimateRemaining(progress, Some(currentTime), Some(totalDuration));
      && e.Left?
      && (progress <= 1.0 ==> (currentTime + e.ms) * progress == currentTime)
      && (progress >= 1.0 ==> e.ms == 0.0)
  {
    var total := currentTime / progress;
    assert total * progress == currentTime;
    if progress <= 1.0 {
      assert total >= currentTime by {
        assert total * progress <= total;
      }
    } else {
      assert total <= currentTime by {
        assert total * progress >= total;
      }
    }
  }

  /** The estimate never depends on the total's value, only on whether it is
      known and non-zero. */
  lemma EstimateIgnoresTotalValue(progress: real, currentTime: Option<real>, a: real, b: real)
    requires a != 0.0 && b != 0.0
    ensures EstimateRemaining(progress, currentTime, Some(a)) == EstimateRemaining(progress, currentTime, Some(b))
  {
  }

  /** `Math.round(progress * 100)`, the number in the percent label. */
  function PercentLabel(progress: real): (percent: int)
    ensures 0.0 <= progress <= 1.0 ==> 0 <= percent <= 100
    ensures percent as real - 0.5 <= progress * 100.0 < percent as real + 0.5
  {
    JsRound(progress * 100.0)
  }

  /** The label never goes down while progress goes up. */
  lemma PercentLabelMonotone(p: real, q: real)
    requires p <= q
    ensures PercentLabel(p) <= PercentLabel(q)
  {
  }

  /** The time row, `Time: …` and `Remaining: …`, if it is shown. */
  function TimeRow(progress: real, currentTime: Option<real>, totalDuration: Option<real>): (row: Option<(string, string)>)
    ensures row.Some? <==> currentTime.Some? && totalDuration.Some?
    ensures row.Some? ==> row.value.0 == "Time: " + FormatTime(currentTime.value)
  {
    if currentTime.Some? && totalDuration.Some? then
      Some(("Time: " + FormatTime(currentTime.value),
            "Remaining: " + RemainingText(progress, currentTime, totalDuration)))
    else None
  }

  /** At the very start, when both times are known but zero, the row is shown
      and the estimate reads "Calculating...". */
  lemma TimeRowAtStart(progress: real)
    ensures TimeRow(progress, Some(0.0), Some(0.0)) == Some(("Time: " + FormatTime(0.0), "Remaining: Calculating..."))
  {
    assert RemainingText(progress, Some(0.0), Some(0.0)) == "Calculating...";
    assert "Remaining: " + "Calculating..." == "Remaining: Calculating...";
  }
}
