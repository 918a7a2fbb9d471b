/** The tempo-chain resolver (`buildAtempoFilter`, identical in the web and
    the native service): it breaks a playback speed into a chain of FFmpeg
    `atempo` stages, each inside the filter's domain [0.5, 2.0]. */
module Tempo {
  import opened Text
  import opened Numbers

  const MinFactor: real := 0.5
  const MaxFactor: real := 2.0
  /** The loop stops once the remaining speed is within this of 1.0. */
  const Tolerance: real := 0.01

  /** One `atempo` stage: a doubling, a halving, or the final remainder
      rounded to hundredths. */
  datatype TempoStep = Double | Half | Fixed(hundredths: nat)

  function Factor(t: TempoStep): real {
    match t
    case Double => 2.0
    case Half => 0.5
    case Fixed(h) => h as real / 100.0
  }

  predicate InDomain(t: TempoStep) {
    MinFactor <= Factor(t) <= MaxFactor
  }

  /** The filter text the source pushes for a stage. */
  function StepText(t: TempoStep): string {
    match t
    case Double => "atempo=2.0"
    case Half => "atempo=0.5"
    case Fixed(h) => "atempo=" + ToFixed2(h)
  }

  /** One pass of the source's `while` loop on the remaining speed. */
  datatype LoopStep = Exit | Continue(step: TempoStep, next: real) | Last(step: TempoStep)

  function Step(remaining: real): LoopStep {
    if Abs(remaining - 1.0) <= Tolerance then Exit
    else if remaining > MaxFactor then Continue(Double, remaining / 2.0)
    else if remaining < MinFactor then Continue(Half, remaining / 0.5)
    else Last(Fixed(Round2(remaining)))
  }

  /** How far a positive remaining speed is from the filter's domain. */
  function Distance(remaining: real): nat
    requires remaining > 0.0
  {
    if remaining > MaxFactor then remaining.Floor
    else if remaining < MinFactor then (1.0 / remaining).Floor
    else 0
  }

  lemma HalvingLowersFloor(x: real)
    requires x > 2.0
    ensures (x / 2.0).Floor < x.Floor
  {
    assert (x / 2.0).Floor as real <= x / 2.0 <= x - 1.0;
  }

  lemma StepNearsDomain(remaining: real)
    requires remaining > 0.0
    ensures Step(remaining).Continue? ==>
      Step(remaining).next > 0.0 && Distance(Step(remaining).next) < Distance(remaining)
  {
    if remaining > MaxFactor && Abs(remaining - 1.0) > Tolerance {
      HalvingLowersFloor(remaining);
    } else if remaining < MinFactor && Abs(remaining - 1.0) > Tolerance {
      var y := 1.0 / remaining;
      assert 1.0 / (remaining / 0.5) == y / 2.0;
      HalvingLowersFloor(y);
    }
  }

  /** The stages the loop emits from a positive remaining speed on. A remaining
      speed above 1.0 never yields a halving and one below 1.0 never a doubling,
      so a chain never mixes the two. */
  function Resolve(remaining: real): (chain: seq<TempoStep>)
    requires remaining > 0.0
    ensures forall i :: 0 <= i < |chain| ==> InDomain(chain[i])
    ensures remaining >= 1.0 ==> forall i :: 0 <= i < |chain| ==> chain[i] != Half
    ensures remaining <= 1.0 ==> forall i :: 0 <= i < |chain| ==> chain[i] != Double
    ensures forall i :: 0 <= i < |chain| - 1 ==> !chain[i].Fixed?
    decreases Distance(remaining)
  {
    match Step(remaining)
    case Exit => []
    case Last(t) => [t]
    case Continue(t, next) =>
      StepNearsDomain(remaining);
      [t] + Resolve(next)
  }

  /** A chain is k copies of one boundary stage followed by at most one
      rounded remainder. */
  predicate WellShaped(chain: seq<TempoStep>) {
    && (forall i :: 0 <= i < |chain| - 1 ==> !chain[i].Fixed?)
    && (forall i :: 0 <= i < |chain| ==> chain[i].Fixed? || chain[i] == chain[0])
  }

  /** `buildAtempoFilter(speed)`. */
  function BuildAtempoFilter(speed: real): (chain: seq<TempoStep>)
    requires speed > 0.0
    ensures speed == 1.0 ==> chain == []
    ensures chain == [] <==> Abs(speed - 1.0) <= Tolerance
    ensures forall i :: 0 <= i < |chain| ==> InDomain(chain[i])
    ensures WellShaped(chain)
  {
    if speed == 1.0 then [] else Resolve(speed)
  }

  /** The same resolver written as the source's loop; it computes exactly the
      chain of `BuildAtempoFilter`. */
  method BuildAtempoFilterLoop(speed: real) returns (filters: seq<TempoStep>)
    requires speed > 0.0
    ensures filters == BuildAtempoFilter(speed)
  {
    filters := [];
    if speed == 1.0 {
      return;
    }
    var remaining := speed;
    while Abs(remaining - 1.0) > Tolerance
      invariant remaining > 0.0
      invariant filters + Resolve(remaining) == Resolve(speed)
      decreases Distance(remaining)
    {
      StepNearsDomain(remaining);
      ResolveOnePass(remaining);
      if remaining > MaxFactor {
        Regroup(filters, Double, Resolve(remaining / 2.0), Resolve(speed));
        filters := filters + [Double];
        remaining := remaining / 2.0;
      } else if remaining < MinFactor {
        Regroup(filters, Half, Resolve(remaining / 0.5), Resolve(speed));
        filters := filters + [Half];
        remaining := remaining / 0.5;
      } else {
        Regroup(filters, Fixed(Round2(remaining)), [], Resolve(speed));
        filters := filters + [Fixed(Round2(remaining))];
        return;
      }
    }
    assert Resolve(remaining) == [];
    assert filters + [] == filters;
  }

  /** One pass of the loop on a remaining speed outside the tolerance. */
  lemma ResolveOnePass(remaining: real)
    requires remaining > 0.0 && Abs(remaining - 1.0) > Tolerance
    ensures remaining > MaxFactor ==> Resolve(remaining) == [Double] + Resolve(remaining / 2.0)
    ensures remaining < MinFactor ==> Resolve(remaining) == [Half] + Resolve(remaining / 0.5)
    ensures MinFactor <= remaining <= MaxFactor ==> Resolve(remaining) == [Fixed(Round2(remaining))] + []
  {
    StepNearsDomain(remaining);
    if MinFactor <= remaining <= MaxFactor {
      assert [Fixed(Round2(remaining))] + [] == [Fixed(Round2(remaining))];
    }
  }

  lemma Regroup<T>(done: seq<T>, t: T, rest: seq<T>, whole: seq<T>)
    requires done + ([t] + rest) == whole
    ensures (done + [t]) + rest == whole
  {
    assert (done + [t]) + rest == done + ([t] + rest);
  }

  /** Product of all stage factors: the speed the chain applies. */
  function Product(chain: seq<TempoStep>): real
    decreases |chain|
  {
    if |chain| == 0 then 1.0 else Factor(chain[0]) * Product(chain[1..])
  }

  /** The factor of a doubling or halving stage; 1.0 for the remainder. */
  function BoundaryFactor(t: TempoStep): real {
    if t.Fixed? then 1.0 else Factor(t)
  }

  /** Product of the doubling and halving stages only. */
  function BoundaryProduct(chain: seq<TempoStep>): real
    decreases |chain|
  {
    if |chain| == 0 then 1.0 else BoundaryFactor(chain[0]) * BoundaryProduct(chain[1..])
  }

  /** The remaining speed when the loop stops: at the exit test or at the
      final rounded stage. */
  function FinalRemaining(remaining: real): (r: real)
    requires remaining > 0.0
    ensures r > 0.0
    decreases Distance(remaining)
  {
    StepNearsDomain(remaining);
    match Step(remaining)
    case Continue(_, next) => FinalRemaining(next)
    case _ => remaining
  }

  /** The speed left after dividing `speed` by every doubling and halving of
      a chain, front to back; a rounded remainder divides by nothing. */
  function Unscale(chain: seq<TempoStep>, speed: real): real
    decreases |chain|
  {
    if |chain| == 0 then speed
    else if chain[0] == Double then Unscale(chain[1..], speed / 2.0)
    else if chain[0] == Half then Unscale(chain[1..], speed / 0.5)
    else Unscale(chain[1..], speed)
  }

  /** The loop's remaining speed is the requested speed divided by the
      stages it has emitted so far: when it stops, by the whole chain. */
  lemma {:induction false} ResolveUnscales(remaining: real)
    requires remaining > 0.0
    ensures Unscale(Resolve(remaining), remaining) == FinalRemaining(remaining)
    decreases Distance(remaining)
  {
    match Step(remaining)
    case Exit =>
    case Last(t) =>
      assert Resolve(remaining) == [t];
      assert Unscale([t], remaining) == Unscale([], remaining);
    case Continue(t, next) =>
      StepNearsDomain(remaining);
      ResolveUnscales(next);
      var chain := Resolve(remaining);
      assert chain == [t] + Resolve(next);
      assert chain[1..] == Resolve(next);
  }

  /** Undoing the divisions: the boundary stages times what is left of the
      speed give the speed back. */
  lemma {:induction false} BoundaryTimesUnscaled(chain: seq<TempoStep>, speed: real)
    ensures BoundaryProduct(chain) * Unscale(chain, speed) == speed
    decreases |chain|
  {
    if |chain| > 0 {
      var t := chain[0];
      var k := BoundaryFactor(t);
      var inner := if t == Double then speed / 2.0 else if t == Half then speed / 0.5 else speed;
      BoundaryTimesUnscaled(chain[1..], inner);
      assert k * inner == speed;
      assert BoundaryProduct(chain) * Unscale(chain, speed)
          == k * (BoundaryProduct(chain[1..]) * Unscale(chain[1..], inner));
    }
  }

  /** Scaling both the chain and the target by k scales the error by k. */
  lemma ScaledError(k: real, p: real, target: real, b: real, scaledP: real, scaledTarget: real, scaledB: real)
    requires k > 0.0 && b > 0.0
    requires Abs(p - target) <= b / 100.0
    requires scaledP == k * p && scaledTarget == k * target && scaledB == k * b
    ensures scaledB > 0.0
    ensures Abs(scaledP - scaledTarget) <= scaledB / 100.0
  {
    assert scaledP - scaledTarget == k * (p - target);
    assert Abs(k * (p - target)) == k * Abs(p - target);
  }

  /** A chain whose first stage is t: its products are t's factor times the rest's. */
  lemma ConsProducts(t: TempoStep, rest: seq<TempoStep>)
    ensures Product([t] + rest) == Factor(t) * Product(rest)
    ensures BoundaryProduct([t] + rest) == BoundaryFactor(t) * BoundaryProduct(rest)
  {
    assert ([t] + rest)[1..] == rest;
  }

  lemma LastApproximates(remaining: real)
    requires remaining > 0.0 && Step(remaining).Last?
    ensures BoundaryProduct(Resolve(remaining)) == 1.0
    ensures Abs(Product(Resolve(remaining)) - remaining) <= Tolerance
  {
    var t := Step(remaining).step;
    assert Resolve(remaining) == [t] + [];
    ConsProducts(t, []);
    assert t == Fixed(Round2(remaining));
  }

  /** The chain's speed misses the requested one by at most the loop's
      tolerance, scaled by the doublings/halvings in front of it. */
  lemma {:induction false} ResolveApproximates(remaining: real)
    requires remaining > 0.0
    ensures BoundaryProduct(Resolve(remaining)) > 0.0
    ensures Abs(Product(Resolve(remaining)) - remaining)
            <= BoundaryProduct(Resolve(remaining)) / 100.0
    decreases Distance(remaining)
  {
    var step := Step(remaining);
    if step.Exit? {
      ExitApproximates(remaining);
    } else if step.Last? {
      LastApproximates(remaining);
    } else {
      StepNearsDomain(remaining);
      ResolveApproximates(step.next);
      ContinueApproximates(remaining);
    }
  }

  lemma ExitApproximates(remaining: real)
    requires remaining > 0.0 && Step(remaining).Exit?
    ensures BoundaryProduct(Resolve(remaining)) == 1.0
    ensures Abs(Product(Resolve(remaining)) - remaining) <= Tolerance
  {
    assert Resolve(remaining) == [];
  }

  /** Putting a doubling or halving in front of a chain scales both its speed
      and its error bound by that stage's factor. */
  lemma ConsBoundaryError(t: TempoStep, rest: seq<TempoStep>, target: real, scaled: real)
    requires t == Double || t == Half
    requires scaled == Factor(t) * target
    requires BoundaryProduct(rest) > 0.0
    requires Abs(Product(rest) - target) <= BoundaryProduct(rest) / 100.0
    ensures BoundaryProduct([t] + rest) > 0.0
    ensures Abs(Product([t] + rest) - scaled) <= BoundaryProduct([t] + rest) / 100.0
  {
    ConsProducts(t, rest);
    var k := Factor(t);
    assert BoundaryFactor(t) == k;
    ScaledError(k, Product(rest), target, BoundaryProduct(rest),
                Product([t] + rest), scaled, BoundaryProduct([t] + rest));
  }

  lemma ContinueApproximates(remaining: real)
    requires remaining > 0.0 && Step(remaining).Continue?
    requires Step(remaining).next > 0.0
    requires BoundaryProduct(Resolve(Step(remaining).next)) > 0.0
    requires Abs(Product(Resolve(Step(remaining).next)) - Step(remaining).next)
             <= BoundaryProduct(Resolve(Step(remaining).next)) / 100.0
    ensures BoundaryProduct(Resolve(remaining)) > 0.0
    ensures Abs(Product(Resolve(remaining)) - remaining)
            <= BoundaryProduct(Resolve(remaining)) / 100.0
  {
    var t, next := Step(remaining).step, Step(remaining).next;
    var rest := Resolve(next);
    assert Resolve(remaining) == [t] + rest;
    assert Factor(t) * next == remaining;
    ConsBoundaryError(t, rest, next, remaining);
  }

  /** At most one doubling happens for speeds up to 4.0, and halvings only make
      the scale smaller. */
  lemma {:induction false} BoundaryProductBound(remaining: real)
    requires 0.0 < remaining <= 4.0
    ensures BoundaryProduct(Resolve(remaining)) <= 2.0
    ensures remaining <= MaxFactor ==> BoundaryProduct(Resolve(remaining)) <= 1.0
    decreases Distance(remaining)
  {
    var chain := Resolve(remaining);
    match Step(remaining)
    case Exit =>
    case Last(t) =>
      assert chain == [t];
      assert BoundaryProduct(chain) == 1.0 * BoundaryProduct([]);
    case Continue(t, next) =>
      StepNearsDomain(remaining);
      BoundaryProductBound(next);
      var rest := Resolve(next);
      assert chain == [t] + rest;
      assert chain[1..] == rest;
      assert BoundaryProduct(chain) == Factor(t) * BoundaryProduct(rest);
  }

  /** For the tracks' speed range the applied speed is within 0.02 of the
      requested one, and within 0.01 up to 2.0. */
  lemma TrackSpeedAccuracy(speed: real)
    requires 0.05 <= speed <= 2.5
    ensures Abs(Product(BuildAtempoFilter(speed)) - speed) <= 2.0 * Tolerance
    ensures speed <= MaxFactor ==> Abs(Product(BuildAtempoFilter(speed)) - speed) <= Tolerance
  {
    if speed != 1.0 {
      ResolveApproximates(speed);
      BoundaryProductBound(speed);
    }
  }

  /** For zero or a negative speed the loop guard stays true and every pass
      takes the halving branch and keeps the remainder non-positive: the
      source's loop never ends there. */
  lemma NonPositiveSpeedNeverExits(remaining: real)
    requires remaining <= 0.0
    ensures Step(remaining) == Continue(Half, remaining / 0.5)
    ensures remaining / 0.5 <= 0.0
  {
  }

  /** Boundary values resolve to a single stage. */
  lemma BoundarySpeeds()
    ensures BuildAtempoFilter(2.0) == [Fixed(200)]
    ensures BuildAtempoFilter(0.5) == [Fixed(50)]
    ensures StepText(Fixed(200)) == "atempo=2.00"
  {
    assert Round2(2.0) == 200;
    assert Round2(0.5) == 50;
  }

  /** Speed 2.48: one doubling, then the remainder 1.24. */
  lemma Speed248()
    ensures BuildAtempoFilter(2.48) == [Double, Fixed(124)]
  {
    assert Step(2.48) == Continue(Double, 1.24);
    assert Round2(1.24) == 124;
    assert Step(1.24) == Last(Fixed(124));
    assert Resolve(1.24) == [Fixed(124)];
  }

  /** The 0.01 tolerance is exceeded above 2.0: 2.015 halves once to 1.0075,
      which the loop accepts, so the chain plays at 2.0, 0.015 off. */
  lemma Example2015()
    ensures BuildAtempoFilter(2.015) == [Double]
    ensures Abs(Product(BuildAtempoFilter(2.015)) - 2.015) > Tolerance
  {
    assert Step(2.015) == Continue(Double, 1.0075);
    assert Step(1.0075).Exit?;
    assert Product([Double]) == 2.0 by {
      assert [Double][1..] == [];
    }
  }
}
