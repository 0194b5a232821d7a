/** Integer facts used by the decimal and digit models. */
module Arith {

  function Abs(x: int): nat
  {
    if x < 0 then -x else x
  }

  /** 10 raised to the power k. */
  function Pow10(k: nat): (p: nat)
    ensures p >= 1
  {
    if k == 0 then 1 else 10 * Pow10(k - 1)
  }

  lemma {:induction false} Pow10Add(a: nat, b: nat)
    ensures Pow10(a + b) == Pow10(a) * Pow10(b)
  {
    if a > 0 {
      Pow10Add(a - 1, b);
      assert Pow10(a + b) == 10 * Pow10(a - 1 + b);
      assert 10 * (Pow10(a - 1) * Pow10(b)) == (10 * Pow10(a - 1)) * Pow10(b);
    }
  }

  lemma {:induction false} Pow10Monotonic(a: nat, b: nat)
    requires a <= b
    ensures Pow10(a) <= Pow10(b)
  {
    if a < b {
      Pow10Monotonic(a, b - 1);
    }
  }

  lemma MulAtLeast(t: int, y: int)
    requires t >= 1 && y > 0
    ensures t * y >= y
  {
    assert t * y == (t - 1) * y + y;
    assert (t - 1) * y >= 0;
  }

  /** Euclidean division by a positive divisor is determined by the quotient and remainder it produces. */
  lemma DivModUnique(x: int, y: int, q: int, r: int)
    requires y > 0 && 0 <= r < y && x == q * y + r
    ensures x / y == q && x % y == r
  {
    var q', r' := x / y, x % y;
    assert x == q' * y + r';
    if q' > q {
      MulAtLeast(q' - q, y);
      assert false;
    } else if q' < q {
      MulAtLeast(q - q', y);
      assert false;
    }
  }

  /** A non-zero factor can be cancelled from both sides of an equation. */
  lemma MulCancel(x: int, y: int, c: int)
    requires c > 0 && x * c == y * c
    ensures x == y
  {
    if x > y {
      MulAtLeast(x - y, c);
      assert false;
    } else if x < y {
      MulAtLeast(y - x, c);
      assert false;
    }
  }

  lemma MulNonZero(x: int, c: int)
    requires x != 0 && c > 0
    ensures x * c != 0
  {
    if x > 0 {
      MulAtLeast(x, c);
    } else {
      MulAtLeast(-x, c);
      assert x * c == -((-x) * c);
    }
  }
}
