/** C's fixed-width integer arithmetic on top of Dafny's unbounded integers.

    The driver computes in `int32_t`, `int64_t`, `uint8_t` and `uint32_t`.
    Dafny's `int` is unbounded, so every place where C narrows a value is
    written out here.  Signed overflow is undefined behaviour in C; the model
    gives each signed operation its two's-complement result, which is what
    the 32-bit ARM code generated for the Raspberry Pi computes. */
module FixedWidth {

  const TWO_8: int := 0x100
  const TWO_16: int := 0x1_0000
  const TWO_31: int := 0x8000_0000
  const TWO_32: int := 0x1_0000_0000
  const TWO_63: int := 0x8000_0000_0000_0000
  const TWO_64: int := 0x1_0000_0000_0000_0000

  /** An unsigned 8-bit value, as the bus carries it. */
  type Byte = b: int | 0 <= b < 256

  predicate IsI32(x: int) { -TWO_31 <= x < TWO_31 }
  predicate IsI64(x: int) { -TWO_63 <= x < TWO_63 }

  /** 2^k, unfolded eight bits at a time so that constant shifts evaluate quickly. */
  function Pow2(k: nat): (r: nat)
    ensures r >= 1
  {
    if k == 0 then 1 else if k >= 8 then 256 * Pow2(k - 8) else 2 * Pow2(k - 1)
  }

  /** The eight-bit unfolding of `Pow2` is still doubling, one bit at a time. */
  lemma {:induction false} Pow2Double(k: nat)
    ensures Pow2(k + 1) == 2 * Pow2(k)
  {
    if k + 1 >= 8 && k >= 8 {
      Pow2Double(k - 8);
    } else if k + 1 == 8 {
      assert Pow2(8) == 256 * Pow2(0);
      assert Pow2(7) == 128;
    }
  }

  /** Two's-complement reduction to `int32_t`. */
  function I32(x: int): (r: int)
    ensures IsI32(r)
    ensures (x - r) % TWO_32 == 0
    ensures IsI32(x) ==> r == x
  {
    (x + TWO_31) % TWO_32 - TWO_31
  }

  /** Two's-complement reduction to `int64_t`. */
  function I64(x: int): (r: int)
    ensures IsI64(r)
    ensures (x - r) % TWO_64 == 0
    ensures IsI64(x) ==> r == x
  {
    (x + TWO_63) % TWO_64 - TWO_63
  }

  /** Conversion to `uint32_t`: reduction modulo 2^32. */
  function U32(x: int): (r: int)
    ensures 0 <= r < TWO_32
    ensures (x - r) % TWO_32 == 0
    ensures 0 <= x < TWO_32 ==> r == x
  {
    x % TWO_32
  }

  /** Conversion of an `int` to `uint8_t`: reduction modulo 2^8. */
  function U8(x: int): (r: int)
    ensures 0 <= r < TWO_8
    ensures (x - r) % TWO_8 == 0
    ensures 0 <= x < TWO_8 ==> r == x
  {
    x % TWO_8
  }

  /** Conversion of a `uint16_t` to `int16_t`. */
  function I16OfU16(x: int): (r: int)
    requires 0 <= x < TWO_16
    ensures -0x8000 <= r < 0x8000
    ensures (x - r) % TWO_16 == 0
  {
    if x < 0x8000 then x else x - TWO_16
  }

  /** Conversion of a `uint8_t` to `int8_t`. */
  function I8OfU8(x: int): (r: int)
    requires 0 <= x < TWO_8
    ensures -0x80 <= r < 0x80
    ensures (x - r) % TWO_8 == 0
  {
    if x < 0x80 then x else x - TWO_8
  }

  /** Arithmetic right shift `x >> k` of a signed value: C on this target
      shifts in copies of the sign bit, which is floor division by 2^k
      (Dafny's `/` with a positive divisor rounds toward negative infinity). */
  function Asr(x: int, k: nat): (r: int)
    ensures r * Pow2(k) <= x < r * Pow2(k) + Pow2(k)
    ensures 0 <= x ==> 0 <= r <= x
    ensures x < 0 ==> x <= r < 0
  {
    var d := Pow2(k);
    FloorDivRange(x, d);
    x / d
  }

  /** Floor division by a positive divisor moves a value toward zero
      without crossing it. */
  lemma FloorDivRange(x: int, d: int)
    requires d >= 1
    ensures 0 <= x ==> 0 <= x / d <= x
    ensures x < 0 ==> x <= x / d < 0
  {
    var q := x / d;
    assert q * d <= x < q * d + d;
    if q >= 0 {
      MulGrows(q, d);
    } else {
      MulGrows(-q, d);
      assert (-q) * d == -(q * d);
      assert q * d + d == (q + 1) * d;
      if q + 1 < 0 {
        MulGrows(-(q + 1), d);
        assert (-(q + 1)) * d == -((q + 1) * d);
      }
    }
  }

  /** Multiplying a natural by a positive factor does not make it smaller. */
  lemma MulGrows(a: int, d: int)
    requires a >= 0 && d >= 1
    ensures a <= a * d
  {
    assert a * d == a + a * (d - 1);
  }

  function Abs(x: int): nat { if x < 0 then -x else x }

  /** C's `/` on signed integers: the quotient is truncated toward zero, so
      the remainder `a - q*b` is smaller than `b` in magnitude and never has
      the opposite sign of `a` (section 6.5.5 of the C standard). */
  function CDiv(a: int, b: int): (q: int)
    requires b != 0
    ensures a >= 0 && b > 0 ==> q == a / b
    ensures Abs(q) == Abs(a) / Abs(b)
    ensures q == 0 || ((q < 0) <==> ((a < 0) != (b < 0)))
  {
    var n, d := Abs(a), Abs(b);
    var qa := NatDiv(n, d);
    if (a < 0) == (b < 0) then qa as int else -(qa as int)
  }

  /** Division of naturals stays natural. */
  function NatDiv(n: nat, d: nat): (r: nat)
    requires d > 0
    ensures r * d <= n < r * d + d
  {
    n / d
  }

  /** The remainder left by `CDiv` has the sign of the dividend and is smaller
      than the divisor in magnitude. */
  lemma CDivRemainder(a: int, b: int)
    requires b != 0
    ensures Abs(a - CDiv(a, b) * b) < Abs(b)
    ensures a - CDiv(a, b) * b == 0 || ((a - CDiv(a, b) * b < 0) <==> (a < 0))
  {
    var q, m := CDiv(a, b), Abs(a) / Abs(b);
    assert Abs(a) - m * Abs(b) < Abs(b);
    assert 0 <= Abs(a) - m * Abs(b);
    if (a < 0) == (b < 0) {
      assert q * b == (if a < 0 then -(m * Abs(b)) else m * Abs(b));
    } else {
      assert q * b == (if a < 0 then -(m * Abs(b)) else m * Abs(b));
    }
  }

  /** Signed 32-bit operations, each narrowed to `int32_t`. */
  function Add32(a: int, b: int): int { I32(a + b) }
  function Sub32(a: int, b: int): int { I32(a - b) }
  function Mul32(a: int, b: int): int { I32(a * b) }
  function Shl32(a: int, k: nat): int { I32(a * Pow2(k)) }

  /** Signed 64-bit operations, each narrowed to `int64_t`. */
  function Add64(a: int, b: int): int { I64(a + b) }
  function Sub64(a: int, b: int): int { I64(a - b) }
  function Mul64(a: int, b: int): int { I64(a * b) }
  function Shl64(a: int, k: nat): int { I64(a * Pow2(k)) }

  // ---------------------------------------------------------------------------
  // The bit operations the driver applies to bytes, written arithmetically.

  /** `0x80 | b`: bit 7 set, bits 6..0 kept. */
  function SetBit7(b: Byte): (r: Byte)
    ensures r >= 0x80 && r % 0x80 == b % 0x80
  {
    0x80 + b % 0x80
  }

  /** `0x7F & x`: bit 7 cleared (for any non-negative `x`, only bits 6..0 survive). */
  function Low7(x: nat): (r: Byte)
    ensures r < 0x80 && (x - r) % 0x80 == 0
  {
    x % 0x80
  }

  /** `b & 0x0F` */
  function LowNibble(b: Byte): (r: Byte)
    ensures r < 16
  {
    b % 16
  }

  /** `b >> 4` */
  function HighNibble(b: Byte): (r: Byte)
    ensures r < 16
  {
    b / 16
  }

  /** `b & 0x04` */
  function Bit2(b: Byte): (r: Byte)
    ensures r == 0 || r == 4
  {
    if b % 8 >= 4 then 4 else 0
  }

  /** `b & 0x01` */
  function Bit0(b: Byte): (r: Byte)
    ensures r == 0 || r == 1
  {
    b % 2
  }

  /** The arithmetic forms above are the C bit operations. */
  lemma SetBit7IsOr(b: bv8)
    ensures SetBit7(b as int) == (0x80 | b) as int
  {
  }

  lemma Low7IsAnd(x: bv8)
    ensures Low7(x as int) == (0x7F & x) as int
  {
  }

  lemma NibblesAreBitOps(b: bv8)
    ensures LowNibble(b as int) == (b & 0x0F) as int
    ensures HighNibble(b as int) == (b >> 4) as int
  {
  }

  lemma Bit2IsAnd(b: bv8)
    ensures Bit2(b as int) == (b & 0x04) as int
  {
  }

  lemma Bit0IsAnd(b: bv8)
    ensures Bit0(b as int) == (b & 0x01) as int
  {
  }
}
