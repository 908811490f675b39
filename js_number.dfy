/** The few JavaScript number primitives the colour code relies on, over exact
    reals: `Math.round`, `Math.max`/`Math.min` and the remainder operator `%`,
    which truncates toward zero (so its result keeps the sign of the dividend). */
module JsNumber {

  function Max(a: real, b: real): (m: real)
    ensures m >= a && m >= b && (m == a || m == b)
  {
    if a >= b then a else b
  }

  function Min(a: real, b: real): (m: real)
    ensures m <= a && m <= b && (m == a || m == b)
  {
    if a <= b then a else b
  }

  /** `Math.round`: the nearest integer, halves rounded up (toward +infinity). */
  function Round(x: real): (n: int)
    ensures x - 0.5 < n as real <= x + 0.5
  {
    (x + 0.5).Floor
  }

  /** Truncation toward zero, as `%` uses for its quotient. */
  function Trunc(x: real): (n: int)
    ensures 0.0 <= x ==> n as real <= x < n as real + 1.0
    ensures x < 0.0 ==> n as real - 1.0 < x <= n as real
  {
    if x >= 0.0 then x.Floor else -((-x).Floor)
  }

  /** The JavaScript remainder `x % 6` (the only modulus the colour code uses). */
  function Rem6(x: real): (r: real)
    ensures 0.0 <= x ==> 0.0 <= r < 6.0
    ensures x < 0.0 ==> -6.0 < r <= 0.0
  {
    x - 6.0 * Trunc(x / 6.0) as real
  }

  /** `x % 6` differs from `x` by a whole multiple of 6; with the range and sign
      of `Rem6` this pins the truncating remainder for every dividend. */
  lemma RemMultiple(x: real)
    ensures ((x - Rem6(x)) / 6.0).Floor as real == (x - Rem6(x)) / 6.0
  {
    assert x - Rem6(x) == 6.0 * Trunc(x / 6.0) as real;
  }

  /** On a non-negative dividend below 12, `% 6` subtracts 6 at most once. */
  lemma RemOfSmall(x: real)
    requires 0.0 <= x < 12.0
    ensures Rem6(x) == if x < 6.0 then x else x - 6.0
  {
    if x < 6.0 {
      assert Trunc(x / 6.0) == 0;
    } else {
      assert Trunc(x / 6.0) == 1;
    }
  }

  /** Adding 6 to a non-negative dividend does not change `x % 6`. */
  lemma RemShift(x: real)
    requires 0.0 <= x
    ensures Rem6(x + 6.0) == Rem6(x)
  {
    assert (x + 6.0) / 6.0 == x / 6.0 + 1.0;
    assert Trunc((x + 6.0) / 6.0) == Trunc(x / 6.0) + 1;
  }
}
