/** 16-bit machine arithmetic: two's-complement wrap-around and division that truncates toward zero. */
module Int16 {
  const MIN: int := -0x8000
  const MAX: int := 0x7fff

  predicate Fits(x: int) {
    MIN <= x <= MAX
  }

  /** Conversion to int16_t. */
  function Wrap(x: int): (r: int)
    ensures Fits(r) && (Fits(x) ==> r == x)
    ensures (x - r) % 0x1_0000 == 0
  {
    (x + 0x8000) % 0x1_0000 - 0x8000
  }

  /** Conversion to uint16_t. */
  function Unsigned(x: int): (r: int)
    ensures 0 <= r < 0x1_0000
  {
    x % 0x1_0000
  }

  /** Wrap sees its argument only modulo 2^16. */
  lemma WrapModulo(x: int, y: int)
    requires (x - y) % 0x1_0000 == 0
    ensures Wrap(x) == Wrap(y)
  {
    var k := (x - y) / 0x1_0000;
    assert x - y == 0x1_0000 * k;
    assert x + 0x8000 == (y + 0x8000) + 0x1_0000 * k;
  }

  function Abs(x: int): (r: nat)
    ensures r == x || r == -x
  {
    if x < 0 then -x else x
  }

  /** The `/` of C. */
  function TruncDiv(x: int, d: int): (q: int)
    requires d > 0
  {
    if x >= 0 then x / d else -(-x / d)
  }

  /** The quotient is the one whose remainder has the sign of `x` and is smaller than `d`. */
  lemma TruncDivMeaning(x: int, d: int)
    requires d > 0
    ensures Abs(TruncDiv(x, d)) == Abs(x) / d
    ensures Abs(x - d * TruncDiv(x, d)) < d
    ensures x >= 0 ==> 0 <= TruncDiv(x, d) && d * TruncDiv(x, d) <= x
    ensures x <= 0 ==> TruncDiv(x, d) <= 0 && x <= d * TruncDiv(x, d)
  {
    var n := Abs(x);
    assert n == d * (n / d) + n % d;
    if x < 0 {
      assert d * -(n / d) == -(d * (n / d));
    }
  }

  lemma ProductBound(a: int, x: int, bound: nat)
    requires Abs(x) <= bound
    ensures Abs(a * x) <= Abs(a) * bound
  {
    assert Abs(a * x) == Abs(a) * Abs(x) by {
      if a < 0 {
        assert a * x == -((-a) * x);
        if x < 0 {
          assert (-a) * x == -((-a) * (-x));
        }
      } else if x < 0 {
        assert a * x == -(a * (-x));
      }
    }
    assert Abs(a) * bound == Abs(a) * Abs(x) + Abs(a) * (bound - Abs(x));
  }
}
