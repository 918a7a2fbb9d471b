/** The rounding operations of JavaScript and Java that the mixing engine and
    its controls rely on, over exact reals (binary floating point is not
    modelled). */
module Numbers {

  function Abs(x: real): real {
    if x < 0.0 then -x else x
  }

  /** `Math.round(x)`: the nearest integer, the larger one on a tie. */
  function JsRound(x: real): (n: int)
    ensures n as real - 0.5 <= x < n as real + 0.5
  {
    (x + 0.5).Floor
  }

  /** `x.toFixed(2)` (and Java's `"%.2f"`, which also rounds half up) of a
      non-negative number, as its count of hundredths. */
  function Round2(x: real): (h: nat)
    requires x >= 0.0
    ensures -0.005 < h as real / 100.0 - x <= 0.005
  {
    JsRound(x * 100.0)
  }

  /** JavaScript's `%` on integers: the remainder takes the dividend's sign. */
  function JsRem(a: int, b: int): (r: int)
    requires b > 0
    ensures a >= 0 ==> 0 <= r < b
    ensures a < 0 ==> -b < r <= 0
  {
    if a >= 0 then a % b else -((-a) % b)
  }

  /** Integer division truncated toward zero, the quotient that goes with
      `JsRem`. */
  function TruncDiv(a: int, b: int): int
    requires b > 0
  {
    if a >= 0 then a / b else -((-a) / b)
  }

  /** `JsRem` is the remainder of truncated division: the two put the
      dividend back together. */
  lemma JsRemIsTruncatedRemainder(a: int, b: int)
    requires b > 0
    ensures a == TruncDiv(a, b) * b + JsRem(a, b)
  {
    if a < 0 {
      var q, m := (-a) / b, (-a) % b;
      assert -a == q * b + m;
      assert TruncDiv(a, b) * b == -(q * b);
    }
  }

  /** On non-negative dividends JavaScript's `%` and floored division agree
      with Dafny's. */
  lemma JsRemOfNatural(a: int, b: int)
    requires a >= 0 && b > 0
    ensures JsRem(a, b) == a % b && TruncDiv(a, b) == a / b
  {
  }
}
