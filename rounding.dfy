/** Rounding of exact reals to integers in the java.math.RoundingMode modes that
    the arrival-time generator asks of Guava's DoubleMath: FLOOR, CEILING,
    HALF_UP and HALF_DOWN, and DoubleMath.isMathematicalInteger. */
module Rounding {

  /** True when x has no fractional part, that is when its floor and its
      ceiling coincide. */
  predicate IsMathematicalInteger(x: real): (b: bool)
    ensures b <==> Floor(x) == Ceiling(x)
  {
    x.Floor as real == x
  }

  /** RoundingMode.FLOOR: the greatest integer not above x. */
  function Floor(x: real): (r: int)
    ensures r as real <= x < r as real + 1.0
  {
    x.Floor
  }

  /** RoundingMode.CEILING: the least integer not below x. */
  function Ceiling(x: real): (r: int)
    ensures x <= r as real < x + 1.0
  {
    -((-x).Floor)
  }

  /** RoundingMode.HALF_UP: the nearest integer; a tie goes away from zero. */
  function RoundHalfUp(x: real): (r: int)
    ensures -0.5 <= r as real - x <= 0.5
    ensures r as real - x == 0.5 ==> x > 0.0
    ensures x - r as real == 0.5 ==> x < 0.0
    ensures x >= 0.0 ==> r >= 0
  {
    if x >= 0.0 then (x + 0.5).Floor else -((0.5 - x).Floor)
  }

  /** RoundingMode.HALF_DOWN: the nearest integer; a tie goes toward zero. */
  function RoundHalfDown(x: real): (r: int)
    ensures -0.5 <= r as real - x <= 0.5
    ensures r as real - x == 0.5 ==> x < 0.0
    ensures x - r as real == 0.5 ==> x > 0.0
    ensures x >= 0.0 ==> r >= 0
  {
    if x >= 0.0 then -((0.5 - x).Floor) else (x + 0.5).Floor
  }

  /** The two tie-breaking rules are complementary: for 0 <= x <= n, rounding
      n - x half-down and x half-up splits n exactly, ties included. */
  lemma ComplementaryRounding(n: int, x: real)
    requires 0.0 <= x <= n as real
    ensures RoundHalfDown(n as real - x) + RoundHalfUp(x) == n
  {
  }

  /** r * n for a natural n, written as the sum of n copies of r so that
      reasoning about it stays linear; ScaledIsProduct ties it to the product. */
  function Scaled(r: real, n: nat): (s: real)
    ensures 0.0 <= r <= 1.0 ==> 0.0 <= s <= n as real
  {
    if n == 0 then 0.0 else Scaled(r, n - 1) + r
  }

  lemma {:induction false} ScaledIsProduct(r: real, n: nat)
    ensures Scaled(r, n) == r * n as real
  {
    if n > 0 {
      ScaledIsProduct(r, n - 1);
      assert r * (n - 1) as real + r == r * n as real;
    }
  }

  /** (1 - r) * n == n - r * n */
  lemma {:induction false} ScaledComplement(r: real, n: nat)
    ensures Scaled(1.0 - r, n) == n as real - Scaled(r, n)
  {
    if n > 0 {
      ScaledComplement(r, n - 1);
    }
  }
}
