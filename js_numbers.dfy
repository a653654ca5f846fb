/** The parts of JavaScript's Number semantics that the noise function relies
    on, restricted to integer-valued Numbers: the ToInt32 / ToUint32
    conversions of the bitwise operators, the operators `^`, `<<` and `>>>`
    themselves, and the rounding of `*` and `+` to the nearest double. */
module JsNumbers {

  const TwoPow31: int := 0x8000_0000
  const TwoPow32: int := 0x1_0000_0000
  const TwoPow53: int := 0x20_0000_0000_0000
  /** `Number.MAX_SAFE_INTEGER`: every integer up to it in magnitude is a double. */
  const MaxSafeInteger: int := TwoPow53 - 1

  predicate IsInt32(x: int) { -TwoPow31 <= x < TwoPow31 }

  predicate IsUint32(x: int) { 0 <= x < TwoPow32 }

  function Abs(x: int): (r: nat)
    ensures r == x || r == -x
  {
    if x < 0 then -x else x
  }

  // ---------------------------------------------------------------------------
  // 32-bit conversions and bitwise operators

  /** ToUint32: the unique value in [0, 2^32) congruent to `x` modulo 2^32. */
  function ToUint32(x: int): (r: int)
    ensures IsUint32(r) && (x - r) % TwoPow32 == 0
    ensures IsUint32(x) ==> r == x
  {
    x % TwoPow32
  }

  /** ToInt32: the unique value in [-2^31, 2^31) congruent to `x` modulo 2^32. */
  function ToInt32(x: int): (r: int)
    ensures IsInt32(r) && (x - r) % TwoPow32 == 0
    ensures IsInt32(x) ==> r == x
  {
    var u := ToUint32(x);
    if u >= TwoPow31 then u - TwoPow32 else u
  }

  /** A signed 32-bit integer is determined by its 32-bit pattern. */
  lemma Int32Pattern(a: int, b: int)
    requires IsInt32(a) && IsInt32(b) && ToUint32(a) == ToUint32(b)
    ensures a == b
  {
    assert a == ToInt32(a) && b == ToInt32(b);
  }

  /** Bitwise exclusive or of two naturals, one binary digit at a time: an
      addition without carries, so it has the parity of the sum and never
      exceeds it. */
  function Xor(a: nat, b: nat): (r: nat)
    ensures r % 2 == (a + b) % 2
    ensures r <= a + b
    decreases a + b
  {
    if a == 0 then b
    else if b == 0 then a
    else
      var x := Xor(a / 2, b / 2);
      XorStep(a, b, x);
      2 * x + (if a % 2 == b % 2 then 0 else 1)
  }

  /** One digit of `Xor`: if the rest of the digits combine to at most the sum
      of the rest, the whole keeps the parity of the sum and stays below it. */
  lemma XorStep(a: nat, b: nat, x: nat)
    requires x <= a / 2 + b / 2
    ensures var r := 2 * x + (if a % 2 == b % 2 then 0 else 1);
      r % 2 == (a + b) % 2 && r <= a + b
  {
    assert a == 2 * (a / 2) + a % 2 && b == 2 * (b / 2) + b % 2;
  }

  /** Xor of two `n`-bit values is an `n`-bit value. */
  lemma {:induction false} XorBound(a: nat, b: nat, n: nat)
    requires a < Pow2(n) && b < Pow2(n)
    ensures Xor(a, b) < Pow2(n)
    decreases n
  {
    if a != 0 && b != 0 {
      assert n > 0;
      XorBound(a / 2, b / 2, n - 1);
    }
  }

  /** The digit-by-digit reading of `Xor`, also when an operand is 0. */
  lemma XorDigits(a: nat, b: nat)
    ensures Xor(a, b) == 2 * Xor(a / 2, b / 2) + (if a % 2 == b % 2 then 0 else 1)
    ensures Xor(a, b) / 2 == Xor(a / 2, b / 2)
  {
    if a == 0 {
      assert Xor(a / 2, b / 2) == b / 2;
    } else if b == 0 {
      assert Xor(a / 2, b / 2) == a / 2;
    }
  }

  /** Xor is associative. */
  lemma {:induction false} XorAssociates(a: nat, b: nat, c: nat)
    ensures Xor(Xor(a, b), c) == Xor(a, Xor(b, c))
    decreases a + b + c
  {
    if a + b + c != 0 {
      XorAssociates(a / 2, b / 2, c / 2);
      XorDigits(a, b);
      XorDigits(b, c);
      XorDigits(Xor(a, b), c);
      XorDigits(a, Xor(b, c));
    }
  }

  /** Xoring with the same value twice gives the original value back. */
  lemma {:induction false} XorSelfInverse(a: nat, b: nat)
    ensures Xor(Xor(a, b), b) == a
    decreases a + b
  {
    if a == 0 {
      XorSame(b);
    } else if b != 0 {
      var c := Xor(a, b);
      XorSelfInverse(a / 2, b / 2);
      assert c / 2 == Xor(a / 2, b / 2) && c % 2 == (if a % 2 == b % 2 then 0 else 1);
      if c == 0 {
        assert a / 2 == b / 2 && a % 2 == b % 2;
      } else {
        assert Xor(c, b) == 2 * Xor(c / 2, b / 2) + (if c % 2 == b % 2 then 0 else 1);
      }
    }
  }

  lemma {:induction false} XorSame(a: nat)
    ensures Xor(a, a) == 0
    decreases a
  {
    if a != 0 {
      XorSame(a / 2);
    }
  }

  /** Shifting down by 2 places commutes with xor. */
  lemma XorShiftsDown2(a: nat, b: nat)
    ensures Xor(a, b) / 4 == Xor(a / 4, b / 4)
  {
    XorDigits(a, b);
    XorDigits(a / 2, b / 2);
    assert Xor(a, b) / 4 == (Xor(a, b) / 2) / 2;
    assert a / 4 == (a / 2) / 2 && b / 4 == (b / 2) / 2;
  }

  /** Shifting down by 8 places commutes with xor. */
  lemma XorShiftsDown8(a: nat, b: nat)
    ensures Xor(a, b) / 0x100 == Xor(a / 0x100, b / 0x100)
  {
    var a1, b1 := a / 4, b / 4;
    var a2, b2 := a1 / 4, b1 / 4;
    var a3, b3 := a2 / 4, b2 / 4;
    XorShiftsDown2(a, b);
    XorShiftsDown2(a1, b1);
    XorShiftsDown2(a2, b2);
    XorShiftsDown2(a3, b3);
    var x := Xor(a, b);
    FourQuarters(x);
    FourQuarters(a);
    FourQuarters(b);
  }

  lemma FourQuarters(x: nat)
    ensures x / 0x100 == (((x / 4) / 4) / 4) / 4
  {
  }

  /** `w ^ (w >>> 8) ^ (w >>> 16) ^ (w >>> 24)` on a 32-bit pattern `w`. */
  function UnxorShiftRight8(w: nat): nat
  {
    Xor(Xor(Xor(w, w / 0x100), w / 0x1_0000), w / 0x100_0000)
  }

  /** `UnxorShiftRight8` undoes `w ^= w >>> 8` on every 32-bit pattern. */
  lemma XorShiftRight8Inverse(u: nat)
    requires u < TwoPow32
    ensures UnxorShiftRight8(Xor(u, u / 0x100)) == u
  {
    var s, t, z := u / 0x100, u / 0x1_0000, u / 0x100_0000;
    ShiftsDown8(u);
    var w := Xor(u, s);
    ShiftsDown8(w);
    XorShiftsDown8(u, s);
    XorShiftsDown8(s, t);
    XorShiftsDown8(t, z);
    assert w / 0x100 == Xor(s, t);
    assert w / 0x1_0000 == Xor(t, z);
    assert w / 0x100_0000 == z;
    XorCancels(u, s, t);
    XorCancels(u, t, z);
    XorSelfInverse(u, z);
  }

  /** `(u ^ s) ^ (s ^ t)` is `u ^ t`. */
  lemma XorCancels(u: nat, s: nat, t: nat)
    ensures Xor(Xor(u, s), Xor(s, t)) == Xor(u, t)
  {
    XorAssociates(Xor(u, s), s, t);
    XorSelfInverse(u, s);
  }

  /** Shifts by 16 and 24 places are repeated shifts by 8. */
  lemma ShiftsDown8(x: nat)
    ensures x / 0x1_0000 == (x / 0x100) / 0x100
    ensures x / 0x100_0000 == (x / 0x1_0000) / 0x100
    ensures x < TwoPow32 ==> x / 0x100_0000 < 0x100
  {
  }

  /** JavaScript `a ^ b`: the xor of the two 32-bit patterns, read as a
      signed 32-bit integer. */
  function BitXor(a: int, b: int): (r: int)
    ensures IsInt32(r)
    ensures ToUint32(r) == Xor(ToUint32(a), ToUint32(b))
  {
    Pow2Values();
    XorBound(ToUint32(a), ToUint32(b), 32);
    ToInt32(Xor(ToUint32(a), ToUint32(b)))
  }

  /** JavaScript `x << n` for a shift count below 32: the pattern moved up by
      `n` places, bits past the 32nd dropped, read as a signed integer. */
  function ShiftLeft(x: int, n: nat): (r: int)
    requires n < 32
    ensures IsInt32(r)
    ensures ToUint32(r) == (ToUint32(x) * Pow2(n)) % TwoPow32
  {
    var y := ToUint32(x) * Pow2(n);
    var r := ToInt32(y);
    var q := (y - r) / TwoPow32;
    assert y - r == q * TwoPow32;
    r
  }

  /** JavaScript `x >>> n` for a shift count below 32: the pattern moved down
      by `n` places, read as an unsigned integer. */
  function UnsignedShiftRight(x: int, n: nat): (r: int)
    requires n < 32
    ensures 0 <= r && r * Pow2(n) <= ToUint32(x) < (r + 1) * Pow2(n)
  {
    FloorDiv(ToUint32(x), Pow2(n));
    ToUint32(x) / Pow2(n)
  }

  /** Integer division rounds down: `u / p` times `p` brackets `u`. */
  lemma FloorDiv(u: nat, p: nat)
    requires p >= 1
    ensures 0 <= u / p && (u / p) * p <= u < (u / p + 1) * p
  {
    DivMod(u, p);
    assert (u / p + 1) * p == (u / p) * p + p;
  }

  // ---------------------------------------------------------------------------
  // Rounding of integer-valued double arithmetic

  function Pow2(n: nat): (r: nat)
    ensures r >= 1
  {
    if n == 0 then 1 else 2 * Pow2(n - 1)
  }

  lemma Pow2Values()
    ensures Pow2(8) == 0x100 && Pow2(31) == TwoPow31 && Pow2(32) == TwoPow32
  {
    assert Pow2(8) == 0x100;
    assert Pow2(16) == 0x1_0000;
    assert Pow2(24) == 0x100_0000;
    assert Pow2(31) == TwoPow31;
  }

  /** The exponent `e` of the spacing 2^e between neighbouring doubles in the
      binade of the magnitude `m`: 0 below 2^53, and otherwise the `e` with
      2^(52+e) <= m < 2^(53+e). */
  function UlpExponent(m: nat): (e: nat)
    ensures m < TwoPow53 * Pow2(e)
    ensures e > 0 ==> TwoPow53 * Pow2(e) <= 2 * m
    decreases m
  {
    if m < TwoPow53 then 0 else 1 + UlpExponent(m / 2)
  }

  /** The quotient `m / u` rounded to the nearest integer, ties to even. */
  function RoundedQuotient(m: nat, u: nat): (k: nat)
    requires u >= 1
  {
    var q, rem := m / u, m % u;
    if 2 * rem > u || (2 * rem == u && q % 2 == 1) then q + 1 else q
  }

  /** The multiple of `u` nearest to `m`, ties going to the even multiple. */
  function RoundToMultiple(m: nat, u: nat): nat
    requires u >= 1
  {
    RoundedQuotient(m, u) * u
  }

  /** The double nearest to the integer `x`, ties to even: the value of a
      double `*` or `+` whose exact result is `x`. The result is a double of
      `x`'s binade (a multiple of the spacing 2^e there), it is within half a
      spacing of `x`, and on a tie it is the neighbour with an even
      significand. */
  function RoundToDouble(x: int): (r: int)
    ensures var u := Pow2(UlpExponent(Abs(x)));
      && r % u == 0
      && 2 * Abs(r - x) <= u
      && (2 * Abs(r - x) == u ==> (r / u) % 2 == 0)
  {
    var u := Pow2(UlpExponent(Abs(x)));
    RoundToMultipleNearest(Abs(x), u);
    var m: int := RoundToMultiple(Abs(x), u);
    if x < 0 then -m else m
  }

  lemma DivMod(m: int, u: int)
    requires u >= 1
    ensures m == (m / u) * u + m % u && 0 <= m % u < u
  {
  }

  /** `k * u` is a multiple of `u`, with quotient `k`. */
  lemma MultipleOf(k: int, u: int)
    requires u >= 1
    ensures (k * u) % u == 0 && (k * u) / u == k
  {
    var q, rem := (k * u) / u, (k * u) % u;
    DivMod(k * u, u);
    assert (k - q) * u == rem;
    if k - q >= 1 {
      assert false;
    } else if k - q <= -1 {
      assert false;
    }
  }

  /** Rounding to a multiple of `u` moves by at most `u / 2`, and a tie
      goes to an even multiple. */
  lemma RoundToMultipleNearest(m: nat, u: nat)
    requires u >= 1
    ensures var r: int := RoundToMultiple(m, u);
      && r % u == 0 && (-r) % u == 0
      && 2 * Abs(r - m) <= u
      && (2 * Abs(r - m) == u ==> (r / u) % 2 == 0 && ((-r) / u) % 2 == 0)
  {
    var k := RoundedQuotient(m, u);
    MultipleOf(k, u);
    MultipleOf(-k, u);
    assert -(k * u) == (-k) * u;
    RoundedQuotientDistance(m, u);
  }

  /** The distance from `m` to `RoundedQuotient(m, u) * u`. */
  lemma RoundedQuotientDistance(m: nat, u: nat)
    requires u >= 1
    ensures var k := RoundedQuotient(m, u);
      && 2 * Abs(k * u - m) <= u
      && (2 * Abs(k * u - m) == u ==> k % 2 == 0)
  {
    var q, rem := m / u, m % u;
    DivMod(m, u);
    var k := RoundedQuotient(m, u);
    if k == q {
      assert k * u - m == -rem;
    } else {
      assert k * u == q * u + u;
      assert k * u - m == u - rem;
    }
  }

  /** Every safe integer is a double, so rounding leaves it alone. */
  lemma RoundToDoubleExact(x: int)
    ensures Abs(x) <= MaxSafeInteger ==> RoundToDouble(x) == x
  {
    if Abs(x) <= MaxSafeInteger {
      assert Pow2(UlpExponent(Abs(x))) == 1;
    }
  }

  /** Rounding an integer to a double changes it by at most 2^-53 of its
      magnitude (half a unit in the last place). */
  lemma RoundToDoubleRelativeError(x: int)
    ensures Abs(RoundToDouble(x) - x) * TwoPow53 <= Abs(x)
  {
    var e := UlpExponent(Abs(x));
    if e > 0 {
      var u := Pow2(e);
      assert u == 2 * Pow2(e - 1);
      assert TwoPow53 * u <= 2 * Abs(x);
      assert 2 * Abs(RoundToDouble(x) - x) <= u;
    }
  }

  /** JavaScript `a * b` on integer-valued Numbers. */
  function DoubleMul(a: int, b: int): (r: int)
    ensures Abs(a * b) <= MaxSafeInteger ==> r == a * b
  {
    RoundToDoubleExact(a * b);
    RoundToDouble(a * b)
  }

  /** JavaScript `a + b` on integer-valued Numbers. */
  function DoubleAdd(a: int, b: int): (r: int)
    ensures Abs(a + b) <= MaxSafeInteger ==> r == a + b
  {
    RoundToDoubleExact(a + b);
    RoundToDouble(a + b)
  }
}
