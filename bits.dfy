/** Powers of two and the leading-zero count of a 16-bit unsigned integer. */
module Bits {

  /** 2 to the power n. */
  function Pow2(n: nat): (r: nat)
    ensures r >= 1
  {
    if n == 0 then 1 else 2 * Pow2(n - 1)
  }

  /** The number of distinct 8- and 16-bit values. */
  lemma Pow2Widths()
    ensures Pow2(8) == 0x100
    ensures Pow2(16) == 0x1_0000
  {
    assert Pow2(4) == 16;
    assert Pow2(8) == 0x100;
    assert Pow2(12) == 0x1000;
  }

  /** The powers of two up to 2^8. */
  lemma Pow2UpTo8()
    ensures Pow2(1) == 2 && Pow2(2) == 4 && Pow2(3) == 8 && Pow2(4) == 16
    ensures Pow2(5) == 32 && Pow2(6) == 64 && Pow2(7) == 128 && Pow2(8) == 256
  {
    assert Pow2(1) == 2;
    assert Pow2(2) == 4;
    assert Pow2(3) == 8;
    assert Pow2(4) == 16;
    assert Pow2(5) == 32;
    assert Pow2(6) == 64;
    assert Pow2(7) == 128;
  }

  /** Powers of two grow with the exponent. */
  lemma {:induction false} Pow2Monotonic(a: nat, b: nat)
    requires a <= b
    ensures Pow2(a) <= Pow2(b)
  {
    if a < b {
      Pow2Monotonic(a, b - 1);
    }
  }

  /** Number of leading zero bits of m viewed as an unsigned integer of `width` bits. */
  function LeadingZerosIn(m: nat, width: nat): (r: nat)
    requires m < Pow2(width)
    ensures r <= width
    decreases width
  {
    if width == 0 then 0
    else if m >= Pow2(width - 1) then 0
    else 1 + LeadingZerosIn(m, width - 1)
  }

  /**
   * For a non-zero m below 2^width, the highest set bit is at position
   * width - LeadingZerosIn(m, width) - 1.
   */
  lemma {:induction false} LeadingZerosInBounds(m: nat, width: nat)
    requires 0 < m < Pow2(width)
    ensures LeadingZerosIn(m, width) < width
    ensures Pow2(width - LeadingZerosIn(m, width) - 1) <= m < Pow2(width - LeadingZerosIn(m, width))
    decreases width
  {
    if m < Pow2(width - 1) {
      LeadingZerosInBounds(m, width - 1);
    }
  }

  /** A zero has every bit clear. */
  lemma {:induction false} LeadingZerosInZero(width: nat)
    ensures LeadingZerosIn(0, width) == width
    decreases width
  {
    if width > 0 {
      LeadingZerosInZero(width - 1);
    }
  }
}
