/** Division with a variable divisor, one fact at a time. */
module Remainders {

  lemma {:induction false} Product(k: int, step: int)
    requires step > 0
    ensures k >= 1 ==> k * step >= step
    ensures k <= -1 ==> k * step <= -step
  {
  }

  /** Quotient and remainder are the only numbers that fit. */
  lemma {:induction false} RemainderUnique(x: int, step: int, q: int, r: int)
    requires step > 0 && x == q * step + r && 0 <= r < step
    ensures x % step == r && x / step == q
  {
    var q', r' := x / step, x % step;
    assert x == step * q' + r';
    assert (q - q') * step == r' - r by {
      assert (q - q') * step == q * step - q' * step;
      assert q' * step == step * q';
    }
    Product(q - q', step);
  }

  /** Adding a multiple of the divisor keeps the remainder. */
  lemma {:induction false} ShiftedRemainder(x: int, d: int, step: int)
    requires step > 0 && d % step == 0
    ensures (x + d) % step == x % step
  {
    var q, k := x / step, d / step;
    assert x == q * step + x % step by { assert x == step * q + x % step; }
    assert d == k * step by { assert d == step * k; }
    assert (q + k) * step == q * step + k * step;
    RemainderUnique(x + d, step, q + k, x % step);
  }

  lemma {:induction false} RemainderOfSum(x: int, d: int, step: int)
    requires step > 0
    ensures (x % step + d) % step == (x + d) % step
  {
    var q := x / step;
    assert x == step * q + x % step && step * q == q * step;
    RemainderUnique(q * step, step, q, 0);
    ShiftedRemainder(x % step + d, q * step, step);
  }

  lemma {:induction false} SameRemainder(x: int, y: int, step: int)
    requires step > 0
    ensures (x - y) % step == 0 <==> x % step == y % step
  {
    if (x - y) % step == 0 {
      ShiftedRemainder(y, x - y, step);
    }
    if x % step == y % step {
      var p, q := x / step, y / step;
      assert x == step * p + x % step && y == step * q + y % step;
      assert (p - q) * step == step * p - step * q;
      RemainderUnique(x - y, step, p - q, 0);
    }
  }
}
