/** The decimal arithmetic of the indexer, on exact reals.

    `with_scale` drops digits (truncation toward zero), `round(0)` is the library's
    default rounding (half to even), and `to_i32().unwrap_or(0)` gives 0 for every value
    outside the 32-bit range. */
module Numbers {
  const MIN_I32: int := -0x8000_0000
  const MAX_I32: int := 0x7fff_ffff

  function Min(a: nat, b: nat): nat {
    if a <= b then a else b
  }

  /** Integer division that truncates toward zero, as Rust's `/` and `num_seconds` do. */
  function TruncDiv(a: int, b: int): (q: int)
    requires b > 0
    ensures a >= 0 ==> q * b <= a < q * b + b
    ensures a <= 0 ==> q * b - b < a <= q * b
  {
    if a >= 0 then a / b else -((-a) / b)
  }

  /** The integer part of x, toward zero (`with_scale(0)`). */
  function Trunc(x: real): (t: int)
    ensures x >= 0.0 ==> t as real <= x < t as real + 1.0
    ensures x <= 0.0 ==> t as real - 1.0 < x <= t as real
  {
    if x >= 0.0 then x.Floor else -((-x).Floor)
  }

  function Pow10(k: nat): (p: real)
    ensures p > 0.0
  {
    if k == 0 then 1.0 else 10.0 * Pow10(k - 1)
  }

  /** Ten to the sum of the exponents; so Pow10 is determined by its value at 1. */
  lemma {:induction false} Pow10Adds(j: nat, k: nat)
    ensures Pow10(j + k) == Pow10(j) * Pow10(k)
    ensures Pow10(0) == 1.0 && Pow10(1) == 10.0
  {
    if j > 0 {
      Pow10Adds(j - 1, k);
      assert 10.0 * (Pow10(j - 1) * Pow10(k)) == Pow10(j) * Pow10(k);
    }
  }

  function Shifted(x: real, k: nat): real {
    x * Pow10(k)
  }

  function Unshifted(t: int, k: nat): real {
    t as real / Pow10(k)
  }

  /** `with_scale(k)`: keep k digits after the point. */
  function WithScale(x: real, k: nat): real {
    Unshifted(Trunc(Shifted(x, k)), k)
  }

  /** Dropping digits takes less than one unit of the last digit kept. */
  lemma WithScaleWithin(x: real, k: nat)
    requires x >= 0.0
    ensures x - 1.0 / Pow10(k) < WithScale(x, k) <= x
  {
    hide *;
    WithScaleIs(x, k);
    ShiftedNonNegative(x, k);
    UnshiftedWithin(Trunc(Shifted(x, k)), x, k);
  }

  lemma WithScaleIs(x: real, k: nat)
    ensures WithScale(x, k) == Unshifted(Trunc(Shifted(x, k)), k)
  {
  }

  /** The digits kept are a whole number of units, the largest one that is not beyond x. */
  predicate Shown(shown: real, x: real, unitsPerOne: real) {
    var units := shown * unitsPerOne;
    && units.Floor as real == units
    && (x >= 0.0 ==> units <= x * unitsPerOne < units + 1.0)
    && (x <= 0.0 ==> units - 1.0 < x * unitsPerOne <= units)
  }

  lemma WithScaleShows(x: real, k: nat)
    ensures Shown(WithScale(x, k), x, Pow10(k))
  {
    hide Pow10, Trunc;
    var p, y := Pow10(k), Shifted(x, k);
    SignOfProduct(x, p);
    UnitsShown(WithScale(x, k), x, p, Trunc(y), y);
  }

  lemma UnitsShown(shown: real, x: real, p: real, t: int, y: real)
    requires p > 0.0 && shown == t as real / p && y == x * p
    requires x >= 0.0 ==> t as real <= y < t as real + 1.0
    requires x <= 0.0 ==> t as real - 1.0 < y <= t as real
    ensures Shown(shown, x, p)
  {
    var units := shown * p;
    assert units == t as real;
    assert units.Floor == t;
  }

  lemma SignOfProduct(x: real, p: real)
    requires p > 0.0
    ensures (x >= 0.0 ==> x * p >= 0.0) && (x <= 0.0 ==> x * p <= 0.0)
  {
  }

  lemma ShiftedNonNegative(x: real, k: nat)
    requires x >= 0.0
    ensures Shifted(x, k) >= 0.0
  {
    MulMono(0.0, x, Pow10(k));
  }

  lemma UnshiftedWithin(t: int, x: real, k: nat)
    requires t as real <= Shifted(x, k) < t as real + 1.0
    ensures x - 1.0 / Pow10(k) < Unshifted(t, k) <= x
  {
    hide Pow10;
    Between(t as real, x, Pow10(k));
  }

  lemma Between(t: real, x: real, p: real)
    requires p > 0.0 && t <= x * p < t + 1.0
    ensures x - 1.0 / p < t / p <= x
  {
    var q, u := t / p, 1.0 / p;
    assert q * p == t && u * p == 1.0;
    Factor(q, x, p);
    assert (q + u) * p == q * p + u * p;
    FactorStrict(x, q + u, p);
  }

  lemma Factor(a: real, b: real, p: real)
    requires p > 0.0 && a * p <= b * p
    ensures a <= b
  {
    assert a > b ==> (a - b) * p > 0.0;
  }

  lemma FactorStrict(a: real, b: real, p: real)
    requires p > 0.0 && a * p < b * p
    ensures a < b
  {
    assert a >= b ==> (a - b) * p >= 0.0;
  }

  /** The smallest integer that is at least x. */
  function Ceiling(x: real): (c: int)
    ensures x <= c as real < x + 1.0
  {
    -((-x).Floor)
  }

  /** `round(0)`: the nearest integer, ties to the even one. */
  function Round(x: real): (r: int)
    ensures -0.5 <= r as real - x <= 0.5
    ensures r as real - x == 0.5 || r as real - x == -0.5 ==> r % 2 == 0
  {
    var f := x.Floor;
    var d := x - f as real;
    if d < 0.5 || (d == 0.5 && f % 2 == 0) then f else f + 1
  }

  /** `to_i32().unwrap_or(0)` of a decimal with no fractional part. */
  function ToI32OrZero(x: int): (r: int)
    ensures MIN_I32 <= r <= MAX_I32
    ensures r == x || (r == 0 && !(MIN_I32 <= x <= MAX_I32))
  {
    if MIN_I32 <= x <= MAX_I32 then x else 0
  }

  /** A rounded number that goes into 32 bits is within one half; one that does not is lost. */
  lemma RoundedInto32Bits(x: real)
    ensures -2_147_483_648.0 <= x <= 2_147_483_647.0 ==> x - 0.5 <= ToI32OrZero(Round(x)) as real <= x + 0.5
    ensures x >= 2_147_483_648.0 || x <= -2_147_483_649.0 ==> ToI32OrZero(Round(x)) == 0
  {
  }

  /** A number rounded up that goes into 32 bits is the least integer that is not below. */
  lemma CeilingInto32Bits(x: real)
    ensures -2_147_483_649.0 < x <= 2_147_483_647.0 ==>
              x <= ToI32OrZero(Ceiling(x)) as real < x + 1.0
    ensures x > 2_147_483_647.0 || x <= -2_147_483_649.0 ==> ToI32OrZero(Ceiling(x)) == 0
  {
  }

  lemma Distribute(a: real, b: real, c: real)
    ensures (a + b) * c == a * c + b * c
  {
  }

  lemma DistributeNat(a: nat, b: nat, c: nat)
    ensures (a + b) * c == a * c + b * c
  {
  }

  lemma MulMono(a: real, b: real, c: real)
    requires a <= b && 0.0 <= c
    ensures a * c <= b * c
  {
  }

  lemma MulStrict(a: real, b: real, c: real)
    requires a < b && 0.0 < c
    ensures a * c < b * c
  {
    Distribute(a, b - a, c);
  }
}
