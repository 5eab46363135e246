/**
  Swift's numeric helpers used by the carousel, over Dafny's exact `real`
  in place of IEEE-754 `Double`: `abs`, `min`, `max`, `round` (to nearest,
  ties away from zero) and the truncating conversion `Int(_:)`.
 */
module Numerics {

  function Abs(x: real): (r: real) {
    if x < 0.0 then -x else x
  }

  function Min(a: real, b: real): (r: real)
    ensures r <= a && r <= b
    ensures r == a || r == b
  {
    if a <= b then a else b
  }

  function Max(a: real, b: real): (r: real)
    ensures r >= a && r >= b
    ensures r == a || r == b
  {
    if a >= b then a else b
  }

  /** A real with no fractional part. */
  predicate IsIntegral(x: real) {
    x == x.Floor as real
  }

  /** The rounding rule of Swift's `round`: nearest integer, halfway cases away from zero. */
  ghost predicate RoundsTo(x: real, k: int) {
    if x >= 0.0 then k as real - 0.5 <= x < k as real + 0.5
    else k as real - 0.5 < x <= k as real + 0.5
  }

  /** Swift's `round(_:)` on a non-exceptional value. */
  function Round(x: real): (r: int)
    ensures RoundsTo(x, r)
    ensures Abs(r as real - x) <= 0.5
  {
    if x >= 0.0 then (x + 0.5).Floor else -((-x + 0.5).Floor)
  }

  /** `RoundsTo` pins down one integer, so `Round` is the only rounding with that rule. */
  lemma RoundUnique(x: real, k: int)
    ensures RoundsTo(x, k) <==> k == Round(x)
  {
    var r := Round(x);
    if RoundsTo(x, k) {
      assert k < r + 1 && r < k + 1;
    }
  }

  /** Ties go away from zero, so rounding commutes with negation. */
  lemma RoundOdd(x: real)
    ensures Round(-x) == -Round(x)
  {
    var r := Round(x);
    if x == 0.0 {
    } else {
      assert RoundsTo(-x, -r);
      RoundUnique(-x, -r);
    }
  }

  lemma RoundOfIntegral(k: int)
    ensures Round(k as real) == k
  {
    RoundUnique(k as real, k);
  }

  lemma RoundMonotone(x: real, y: real)
    requires x <= y
    ensures Round(x) <= Round(y)
  {
    var a, b := Round(x), Round(y);
    assert a < b + 1;
  }

  /** Swift's `Int(_:)` on a `Double`: drops the fractional part, toward zero. */
  function Trunc(x: real): (r: int)
    ensures x >= 0.0 ==> r >= 0 && r as real <= x < r as real + 1.0
    ensures x < 0.0 ==> r <= 0 && r as real - 1.0 < x <= r as real
    ensures IsIntegral(x) ==> r as real == x
  {
    if x >= 0.0 || IsIntegral(x) then x.Floor else x.Floor + 1
  }

  /** Truncation goes toward zero, so it commutes with negation (unlike `Floor`). */
  lemma TruncOdd(x: real)
    ensures Trunc(-x) == -Trunc(x)
  {
    var t := Trunc(x);
    if IsIntegral(x) {
      assert (-x).Floor == -t;
    } else if x > 0.0 {
      assert -(t as real) - 1.0 < -x < -(t as real);
    } else {
      assert -(t as real) < -x < -(t as real) + 1.0;
    }
  }
}
