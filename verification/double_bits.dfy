/** `(double)value` for a 32-bit int (FastAmf3/Amf3Writer.cs:216): every
    int32 is exactly representable as a double, so its IEEE-754 bit pattern
    is computed exactly here from sign, exponent and mantissa. */
module DoubleBits {
  import opened Amf3Type

  type Int32 = x: int | -0x8000_0000 <= x < 0x8000_0000

  function Pow2(k: nat): (p: nat)
    ensures p >= 1
  {
    if k == 0 then 1 else 2 * Pow2(k - 1)
  }

  lemma {:induction false} Pow2Add(a: nat, b: nat)
    ensures Pow2(a + b) == Pow2(a) * Pow2(b)
  {
    if a > 0 {
      Pow2Add(a - 1, b);
      assert Pow2(a + b) == 2 * Pow2(a - 1 + b);
    }
  }

  lemma {:induction false} Pow2Monotone(a: nat, b: nat)
    requires a <= b
    ensures Pow2(a) <= Pow2(b)
  {
    if a < b {
      Pow2Monotone(a, b - 1);
    }
  }

  /** The position of the highest set bit of a positive number. */
  function Log2(m: nat): (e: nat)
    requires m >= 1
    ensures Pow2(e) <= m < Pow2(e + 1)
  {
    if m == 1 then 0 else 1 + Log2(m / 2)
  }

  lemma MulBound(x: nat, y: nat, z: nat, p: nat)
    requires x < y && z > 0 && y * z == p
    ensures 0 <= x * z < p
  {
    MulLess(x, y, z);
  }

  lemma FractionBound(m: nat, e: nat)
    requires e <= 52 && Pow2(e) <= m < Pow2(e + 1)
    ensures 0 <= (m - Pow2(e)) * Pow2(52 - e) < Pow2(52)
  {
    var x, y, z := m - Pow2(e), Pow2(e), Pow2(52 - e);
    assert x < y by {
      assert Pow2(e + 1) == 2 * Pow2(e);
    }
    Pow2Add(e, 52 - e);
    MulBound(x, y, z, Pow2(52));
  }

  /** The bits of `m` below its leading one, left-aligned in a 52-bit fraction. */
  function Fraction(m: nat, e: nat): (f: nat)
    requires e <= 52 && Pow2(e) <= m < Pow2(e + 1)
    ensures f < Pow2(52)
  {
    FractionBound(m, e);
    (m - Pow2(e)) * Pow2(52 - e)
  }

  /** The exponent of a nonzero int32's magnitude is at most 31. */
  lemma Log2Int32(m: nat)
    requires 1 <= m <= 0x8000_0000
    ensures Log2(m) <= 31
  {
    var e := Log2(m);
    if e > 31 {
      Pow2Monotone(32, e);
      Pow2Values();
    }
  }

  /** The bit pattern of the double equal to `v`: sign bit, biased exponent
      `1023 + e` where 2^e <= |v| < 2^(e+1), and the bits of |v| below its
      leading one, left-aligned in the 52-bit fraction. */
  function OfInt32(v: Int32): (w: Word64)
  {
    if v == 0 then 0
    else
      var m: nat := if v < 0 then -(v as int) else v;
      Log2Int32(m);
      var e := Log2(m);
      Pow2Values();
      (if v < 0 then 0x8000_0000_0000_0000 else 0) + (1023 + e) * 0x10_0000_0000_0000 + Fraction(m, e)
  }

  lemma Pow2Values()
    ensures Pow2(32) == 0x1_0000_0000 && Pow2(52) == 0x10_0000_0000_0000
  {
    assert Pow2(4) == 16;
    Pow2Add(4, 4);
    Pow2Add(8, 8);
    Pow2Add(16, 16);
    Pow2Add(16, 4);
    Pow2Add(32, 20);
  }

  lemma MulLess(x: nat, y: nat, z: nat)
    requires x < y && z > 0
    ensures 0 <= x * z < y * z
  {
  }
}
