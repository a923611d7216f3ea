/** Real arithmetic behind durations: a float is modelled by the real it stands for, and a
    conversion to an integer duration discards the fraction. */
module Rounding {

  /** The conversion `time.Duration(x)` of a float: the fraction is dropped, towards zero. */
  function Truncate(x: real): (n: int)
    ensures 0.0 <= x ==> n as real <= x < n as real + 1.0
    ensures x < 0.0 ==> n as real - 1.0 < x <= n as real
  {
    if 0.0 <= x then x.Floor else -((-x).Floor)
  }

  function Ceiling(x: real): (n: int)
    ensures n as real - 1.0 < x <= n as real
  {
    -((-x).Floor)
  }

  predicate IsInteger(x: real) {
    x.Floor as real == x
  }

  /** A multiplication by a non-negative factor keeps the order. */
  lemma MulKeepsOrder(a: real, b: real, q: real)
    requires a <= b && 0.0 <= q
    ensures a * q <= b * q
  {
    assert 0.0 <= (b - a) * q;
  }

  lemma FactorGrows(x: real, q: real)
    requires 0.0 <= x && 1.0 <= q
    ensures x <= x * q
  {
    var extra := q - 1.0;
    assert 0.0 <= x * extra;
    assert x * q == x * extra + x;
  }

  /** A strictly positive factor can be cancelled. */
  lemma CancelFactor(a: real, b: real, q: real)
    requires 0.0 < q
    ensures a * q <= b * q <==> a <= b
    ensures a * q < b * q <==> a < b
  {
    var d := b - a;
    assert d < 0.0 ==> d * q < 0.0;
    assert d > 0.0 ==> d * q > 0.0;
    assert d * q == b * q - a * q;
  }

  /** Dividing a bound by a positive factor is the same as multiplying the other side. */
  lemma DivBound(x: real, y: real, q: real)
    requires 0.0 < q
    ensures x >= y / q <==> x * q >= y
    ensures x > y / q <==> x * q > y
  {
    CancelFactor(y / q, x, q);
  }

  lemma QuotientOfProduct(x: real, q: real)
    requires q != 0.0
    ensures x * q / q == x
  {
    var t := x * q / q;
    assert t * q == x * q;
    assert (t - x) * q == 0.0;
  }

  /** Powers of the multiplier. */
  function Pow(q: real, n: nat): real {
    if n == 0 then 1.0 else Pow(q, n - 1) * q
  }

  /** 1 + q + ... + q^(n-1): the most that n roundings can lose, carried through the multiplications. */
  function PowSum(q: real, n: nat): real {
    if n == 0 then 0.0 else PowSum(q, n - 1) * q + 1.0
  }

  lemma {:induction false} PowSumTelescopes(q: real, n: nat)
    ensures PowSum(q, n) * (q - 1.0) == Pow(q, n) - 1.0
  {
    if n > 0 {
      PowSumTelescopes(q, n - 1);
      var s := PowSum(q, n - 1);
      assert (s * q + 1.0) * (q - 1.0) == (s * (q - 1.0)) * q + (q - 1.0);
    }
  }

  lemma {:induction false} PowSumClosedForm(q: real, n: nat)
    requires q != 1.0
    ensures PowSum(q, n) == (Pow(q, n) - 1.0) / (q - 1.0)
  {
    PowSumTelescopes(q, n);
    QuotientOfProduct(PowSum(q, n), q - 1.0);
  }
}
