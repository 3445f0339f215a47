/**
 * Kotlin `Int` arithmetic: 32-bit two's complement with silent wrap-around,
 * division and remainder truncating toward zero.
 */
module Int32s {

  const MIN_VALUE: int := -0x8000_0000
  const MAX_VALUE: int := 0x7FFF_FFFF
  const MODULUS: int := 0x1_0000_0000

  type Int32 = x: int | MIN_VALUE <= x <= MAX_VALUE

  /** The 32-bit value congruent to `x` modulo 2^32. */
  function Wrap(x: int): (r: Int32)
    ensures MIN_VALUE <= x <= MAX_VALUE ==> r == x
  {
    (x - MIN_VALUE) % MODULUS + MIN_VALUE
  }

  /** Wrapping only depends on the value modulo 2^32. */
  lemma WrapShift(x: int, k: int)
    ensures Wrap(x + k * MODULUS) == Wrap(x)
  {
    var a := x - MIN_VALUE;
    var q1, r1 := (a + k * MODULUS) / MODULUS, (a + k * MODULUS) % MODULUS;
    var q2, r2 := a / MODULUS, a % MODULUS;
    assert a + k * MODULUS == q1 * MODULUS + r1;
    assert a == q2 * MODULUS + r2;
    assert r1 - r2 == (q2 + k - q1) * MODULUS;
  }

  /** The difference between a number and its wrapped value is a multiple of 2^32. */
  lemma WrapDifference(x: int) returns (k: int)
    ensures Wrap(x) == x + k * MODULUS
  {
    k := -((x - MIN_VALUE) / MODULUS);
  }

  /**
   * Accumulating a decimal digit run in wrapping arithmetic, as `num * 10 + d`,
   * gives the same result as accumulating in unbounded arithmetic and wrapping once.
   */
  lemma WrapTimesTenPlus(x: int, d: int)
    ensures Wrap(Wrap(Wrap(x) * 10) + d) == Wrap(x * 10 + d)
  {
    var w: int := Wrap(x);
    var k := WrapDifference(x);
    var u := Wrap(w * 10);
    var j := WrapDifference(w * 10);
    assert u + d == x * 10 + d + (10 * k + j) * MODULUS;
    WrapShift(x * 10 + d, 10 * k + j);
  }

  function Abs(x: int): nat {
    if x < 0 then -x else x
  }

  function Add(a: Int32, b: Int32): Int32 { Wrap(a + b) }

  function Sub(a: Int32, b: Int32): Int32 { Wrap(a - b) }

  function Mul(a: Int32, b: Int32): Int32 { Wrap(a * b) }

  /**
   * The quotient rounded toward zero (JVM `idiv` before wrapping): the
   * remainder it leaves is smaller than the divisor in magnitude and is zero
   * or has the sign of the dividend.
   */
  function TruncDiv(a: int, b: int): (q: int)
    requires b != 0
    ensures Abs(a - q * b) < Abs(b)
    ensures a - q * b == 0 || (a - q * b < 0 <==> a < 0)
    ensures Abs(q) <= Abs(a)
  {
    var n, d := Abs(a), Abs(b);
    var m := n / d;
    DivisionFacts(n, d);
    if (a < 0) == (b < 0) then
      assert m * b == if b < 0 then -(m * d) else m * d;
      m
    else
      assert -m * b == if b < 0 then m * d else -(m * d);
      -m
  }

  /** Kotlin `a / b` on `Int` (b != 0): truncating; only MIN_VALUE / -1 wraps. */
  function Div(a: Int32, b: Int32): Int32
    requires b != 0
  {
    Wrap(TruncDiv(a, b))
  }

  /** Kotlin `a % b` on `Int` (b != 0). */
  function Rem(a: Int32, b: Int32): Int32
    requires b != 0
  {
    Wrap(a - TruncDiv(a, b) * b)
  }

  /** Division truncates toward zero; the one quotient out of range, MIN_VALUE / -1, wraps to MIN_VALUE. */
  lemma DivTruncates(a: Int32, b: Int32)
    requires b != 0
    ensures !(a == MIN_VALUE && b == -1) ==> Div(a, b) == TruncDiv(a, b)
    ensures a == MIN_VALUE && b == -1 ==> Div(a, b) == MIN_VALUE
  {
  }

  /** The remainder is smaller than the divisor in magnitude, and zero or of the dividend's sign. */
  lemma RemBounds(a: Int32, b: Int32)
    requires b != 0
    ensures Abs(Rem(a, b)) < Abs(b)
    ensures Rem(a, b) == 0 || (Rem(a, b) < 0 <==> a < 0)
  {
  }

  /** Quotient and remainder recombine to the dividend: `(a / b) * b + a % b == a`, wrapping. */
  lemma DivRemIdentity(a: Int32, b: Int32)
    requires b != 0
    ensures Add(Mul(Div(a, b), b), Rem(a, b)) == a
  {
    RemBounds(a, b);
    if a == MIN_VALUE && b == -1 {
      assert Rem(a, b) == 0;
      assert Mul(Div(a, b), b) == Wrap(0x8000_0000) == MIN_VALUE;
    }
  }

  lemma DivisionFacts(n: nat, d: nat)
    requires d > 0
    ensures n == (n / d) * d + n % d && 0 <= n % d < d
    ensures 0 <= n / d <= n
  {
    MulAtLeast(n / d, d);
  }

  lemma MulAtLeast(m: nat, d: nat)
    requires d > 0
    ensures m * d >= m
  {
    assert m * (d - 1) >= 0;
  }
}
