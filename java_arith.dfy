/** Java's fixed-width integer arithmetic, stated over Dafny's unbounded `int`.
    A Java `long` is an integer in [LONG_MIN, LONG_MAX]; an arithmetic result that
    leaves that range wraps around modulo 2^64.  `(int)` narrows modulo 2^32.
    Java's `/` and `%` truncate toward zero, unlike Dafny's Euclidean operators. */
module JavaArith {

  const TWO_64: int := 0x1_0000_0000_0000_0000
  const LONG_MIN: int := -0x8000_0000_0000_0000
  const LONG_MAX: int := 0x7fff_ffff_ffff_ffff

  const TWO_32: int := 0x1_0000_0000
  const INT_MIN: int := -0x8000_0000
  const INT_MAX: int := 0x7fff_ffff

  predicate IsLong(x: int) { LONG_MIN <= x <= LONG_MAX }

  predicate IsInt(x: int) { INT_MIN <= x <= INT_MAX }

  /** The `long` that Java stores for the exact result `x`: two's complement wrap-around. */
  function Long(x: int): (r: int)
    ensures IsLong(r)
    ensures IsLong(x) ==> r == x
    ensures x == r + LongWraps(x) * TWO_64
  {
    (x - LONG_MIN) % TWO_64 + LONG_MIN
  }

  /** How many times `x` wraps around the `long` range. */
  function LongWraps(x: int): int
  {
    (x - LONG_MIN) / TWO_64
  }

  /** The `int` that Java's `(int)` cast makes of the `long` value `x`. */
  function Int(x: int): (r: int)
    ensures IsInt(r)
    ensures IsInt(x) ==> r == x
    ensures x == r + ((x - INT_MIN) / TWO_32) * TWO_32
  {
    (x - INT_MIN) % TWO_32 + INT_MIN
  }

  /** Java's `a / b` for a positive divisor: the quotient truncated toward zero. */
  function Quot(a: int, b: int): (q: int)
    requires b > 0
    ensures 0 <= a ==> 0 <= q * b <= a < q * b + b
    ensures a <= 0 ==> q * b - b < a <= q * b <= 0
  {
    if a >= 0 then
      DivNatural(a, b);
      a / b
    else
      DivNatural(-a, b);
      assert -((-a) / b) * b == -((-a) / b * b);
      -((-a) / b)
  }

  /** Java's `a % b` for a positive divisor: the remainder takes the sign of `a`. */
  function Rem(a: int, b: int): (r: int)
    requires b > 0
    ensures 0 <= a ==> 0 <= r < b && r <= a
    ensures a <= 0 ==> -b < r <= 0 && a <= r
  {
    if a >= 0 then
      DivNatural(a, b);
      a % b
    else
      DivNatural(-a, b);
      -((-a) % b)
  }

  /** Java's division law `(a / b) * b + a % b == a`, with the remainder smaller
      than the divisor and of the dividend's sign. */
  lemma QuotRem(a: int, b: int)
    requires b > 0
    ensures Quot(a, b) * b + Rem(a, b) == a
    ensures 0 <= a ==> 0 <= Quot(a, b) && 0 <= Rem(a, b) < b
    ensures a <= 0 ==> Quot(a, b) <= 0 && -b < Rem(a, b) <= 0
    ensures Quot(a, b) == 0 <==> -b < a < b
  {
    if a >= 0 {
      DivNatural(a, b);
    } else {
      DivNatural(-a, b);
      var q := (-a) / b;
      assert -q * b == -(q * b);
    }
  }

  /** Dafny's `/` and `%` on a natural dividend, which Java's agree with. */
  lemma DivNatural(n: int, b: int)
    requires n >= 0 && b > 0
    ensures n / b * b + n % b == n && 0 <= n % b < b
    ensures n / b >= 0
    ensures n / b == 0 <==> n < b
  {
    var q := n / b;
    if q > 0 {
      MulAtLeast(q, b);
    }
  }

  lemma MulAtLeast(d: int, b: int)
    requires d >= 1 && b > 0
    ensures d * b >= b
  {
    assert d * b == (d - 1) * b + b;
  }

  /** Adding a whole number of turns of 2^64 does not change the stored `long`. */
  lemma {:induction false} LongPeriodic(x: int, k: int)
    ensures Long(x + k * TWO_64) == Long(x)
  {
    var y := x - LONG_MIN;
    var q, r := y / TWO_64, y % TWO_64;
    assert y == q * TWO_64 + r && 0 <= r < TWO_64;
    var y' := y + k * TWO_64;
    assert y' == (q + k) * TWO_64 + r;
    assert y' / TWO_64 == q + k && y' % TWO_64 == r by {
      var q', r' := y' / TWO_64, y' % TWO_64;
      assert y' == q' * TWO_64 + r' && 0 <= r' < TWO_64;
      assert (q' - (q + k)) * TWO_64 == r - r';
    }
  }

  /** Wrapping an intermediate result does not change the final `long`: adding
      `a` to the stored value of `x` stores what adding it to `x` itself would. */
  lemma LongAddWrapped(a: int, x: int)
    ensures Long(a + Long(x)) == Long(a + x)
  {
    var k := LongWraps(x);
    assert a + Long(x) == (a + x) + (-k) * TWO_64;
    LongPeriodic(a + x, -k);
  }
}
