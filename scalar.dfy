/** Scalars of math_types.rs: one f64, modelled as a real number. */
module Scalars {
  import opened Wrappers

  datatype Scalar = Scalar(val: real)

  function Add(a: Scalar, b: Scalar): Scalar {
    Scalar(a.val + b.val)
  }

  function Sub(a: Scalar, b: Scalar): Scalar {
    Scalar(a.val - b.val)
  }

  function Mul(a: Scalar, b: Scalar): Scalar {
    Scalar(a.val * b.val)
  }

  /** f64 division; a zero divisor gives inf or NaN in IEEE 754, which has no real
      counterpart, so the model reports it. */
  function Div(a: Scalar, b: Scalar): (r: Result<Scalar>)
    ensures r.Ok? <==> b.val != 0.0
    ensures r.Ok? ==> r.value.val * b.val == a.val
  {
    if b.val == 0.0 then Err(NonFinite) else Ok(Scalar(a.val / b.val))
  }

  /** `f64::powf`, a library call the model takes as a parameter. */
  function Pow(a: Scalar, b: Scalar, pow: (real, real) -> real): Scalar {
    Scalar(pow(a.val, b.val))
  }

  /** Truncation toward zero, as Rust's float-to-integer conversion and `%` use it. */
  function Trunc(x: real): int {
    if x >= 0.0 then x.Floor else -((-x).Floor)
  }

  /** f64's `%`: the remainder of truncating division, carrying the sign of the dividend.
      A zero divisor gives NaN in IEEE 754, reported as in Div. */
  function Rem(a: real, b: real): (r: Result<real>)
    ensures r.Ok? <==> b != 0.0
  {
    if b == 0.0 then Err(NonFinite) else Ok(a - b * Trunc(a / b) as real)
  }

  /** The remainder takes the dividend's sign (unlike Dafny's Euclidean `%`). */
  lemma RemExamples()
    ensures Rem(7.0, 3.0) == Ok(1.0)
    ensures Rem(-7.0, 3.0) == Ok(-1.0)
    ensures Rem(7.5, -2.0) == Ok(1.5)
  {
    assert Trunc(7.0 / 3.0) == 2;
    assert Trunc(-7.0 / 3.0) == -2;
    assert Trunc(7.5 / -2.0) == -3;
  }

  /** The remainder is smaller than the divisor in magnitude, has the dividend's sign,
      and differs from the dividend by a whole multiple of the divisor. */
  lemma RemBounds(a: real, b: real)
    requires b != 0.0
    ensures Rem(a, b).Ok?
    ensures a - Rem(a, b).value == b * Trunc(a / b) as real
    ensures var r, m := Rem(a, b).value, if b < 0.0 then -b else b; -m < r < m
    ensures a >= 0.0 ==> Rem(a, b).value >= 0.0
    ensures a <= 0.0 ==> Rem(a, b).value <= 0.0
  {
    var x := a / b;
    var d := x - Trunc(x) as real;
    assert Rem(a, b).value == b * d by { assert a == b * x; }
    QuotientSign(a, b);
    assert x >= 0.0 ==> 0.0 <= d < 1.0;
    assert x < 0.0 ==> -1.0 < d <= 0.0;
    ProductBound(b, d);
  }

  /** The quotient is positive when the operands have the same sign, zero only for a
      zero dividend. */
  lemma QuotientSign(a: real, b: real)
    requires b != 0.0
    ensures b > 0.0 ==> (a > 0.0 <==> a / b > 0.0) && (a < 0.0 <==> a / b < 0.0)
    ensures b < 0.0 ==> (a > 0.0 <==> a / b < 0.0) && (a < 0.0 <==> a / b > 0.0)
    ensures a == 0.0 <==> a / b == 0.0
  {
    assert a == b * (a / b);
  }

  /** For -1 < d < 1, b * d is smaller than b in magnitude, and its sign is the product
      of the signs. */
  lemma ProductBound(b: real, d: real)
    requires b != 0.0 && -1.0 < d < 1.0
    ensures var p, m := b * d, if b < 0.0 then -b else b; -m < p < m
    ensures (b > 0.0) == (d > 0.0) ==> b * d >= 0.0
    ensures (b > 0.0) != (d > 0.0) ==> b * d <= 0.0
  {
    var p := b * d;
    if b > 0.0 {
      assert p - b == b * (d - 1.0) && p + b == b * (d + 1.0);
    } else {
      assert p + b == b * (d + 1.0) && p - b == b * (d - 1.0);
    }
  }
}
