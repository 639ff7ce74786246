/** The 8-byte (and 4-byte) big-endian layout of an IEEE-754 bit pattern:
    the writer emits the pattern's bytes most significant first
    (FastAmf3/Amf3Writer.cs:557-581) and the reader puts them back together
    (FastAmf3/Amf3Reader.cs:185-194: the `#else` branch, since the reader's
    file does not define `unsafe`). No float arithmetic is involved. */
module BigEndian {
  import opened Wrappers
  import opened Amf3Type

  /** `1 << (i << 3)` for a byte position below 8. */
  function Shift(i: nat): (p: nat)
    requires i < 8
    ensures p >= 1
  {
    [1, 0x100, 0x1_0000, 0x100_0000, 0x1_0000_0000, 0x100_0000_0000,
     0x1_0000_0000_0000, 0x100_0000_0000_0000][i]
  }

  /** `(byte)(v >> (i << 3))`: byte `i` of a pattern, counting from the least significant. */
  function ByteOf(w: nat, i: nat): byte
    requires i < 8
  {
    w / Shift(i) % 0x100
  }

  /** The eight bytes `WriteBigEndian(double)` emits, for i = 7 down to 0. */
  function Bytes8(w: Word64): (r: seq<byte>)
    ensures |r| == 8
    ensures forall k :: 0 <= k < 8 ==> r[k] == ByteOf(w, 7 - k)
  {
    seq(8, k requires 0 <= k < 8 => ByteOf(w, 7 - k))
  }

  /** The four bytes `WriteBigEndian(float)` emits, for i = 3 down to 0. */
  function Bytes4(w: Word32): (r: seq<byte>)
    ensures |r| == 4
    ensures forall k :: 0 <= k < 4 ==> r[k] == ByteOf(w, 3 - k)
  {
    seq(4, k requires 0 <= k < 4 => ByteOf(w, 3 - k))
  }

  /** The 32-bit value of four big-endian bytes. */
  function Be32(b0: byte, b1: byte, b2: byte, b3: byte): (r: nat)
    ensures r < 0x1_0000_0000
  {
    ((b0 * 0x100 + b1) * 0x100 + b2) * 0x100 + b3
  }

  /** `ReadAmf3Double`: the pattern held by the 8 bytes at `i` and the cursor
      after them. The source bounds-checks only against the array, not the
      logical end of the input. */
  function Read8(bin: seq<byte>, i: int): (r: Result<(Word64, int)>)
    ensures r.Ok? <==> 0 <= i && i + 8 <= |bin|
    ensures r.Ok? ==> r.value.1 == i + 8
    ensures r.Fail? ==> r.error == OutOfBounds
  {
    if 0 <= i && i + 8 <= |bin| then
      var hi := Be32(bin[i], bin[i + 1], bin[i + 2], bin[i + 3]);
      var lo := Be32(bin[i + 4], bin[i + 5], bin[i + 6], bin[i + 7]);
      Ok((hi * 0x1_0000_0000 + lo, i + 8))
    else
      Fail(OutOfBounds)
  }

  /** `BitConverter.ToDouble(buffer, 0)` on a little-endian machine: the
      pattern whose least significant byte is `b[0]`. */
  function LittleEndian(b: seq<byte>): nat
    requires |b| == 8
  {
    var b0: int, b1: int, b2: int, b3: int := b[0], b[1], b[2], b[3];
    var b4: int, b5: int, b6: int, b7: int := b[4], b[5], b[6], b[7];
    b0 + 0x100 * b1 + 0x1_0000 * b2 + 0x100_0000 * b3 + 0x1_0000_0000 * b4
    + 0x100_0000_0000 * b5 + 0x1_0000_0000_0000 * b6 + 0x100_0000_0000_0000 * b7
  }

  /** Reversing the eight bytes at `i` into a buffer and reinterpreting it
      little-endian gives the big-endian pattern `Read8` reads. */
  lemma LittleEndianOfReversed(bin: seq<byte>, i: int, b: seq<byte>)
    requires 0 <= i && i + 8 <= |bin| && |b| == 8
    requires forall k :: 0 <= k < 8 ==> b[k] == bin[i + 7 - k]
    ensures Read8(bin, i).Ok? && LittleEndian(b) == Read8(bin, i).value.0
  {
    assert b[0] == bin[i + 7] && b[1] == bin[i + 6] && b[2] == bin[i + 5] && b[3] == bin[i + 4];
    assert b[4] == bin[i + 3] && b[5] == bin[i + 2] && b[6] == bin[i + 1] && b[7] == bin[i];
  }

  /** A 32-bit value is the big-endian value of its own four bytes. */
  lemma Digits32(x: nat)
    requires x < 0x1_0000_0000
    ensures Be32(x / 0x100_0000, x / 0x1_0000 % 0x100, x / 0x100 % 0x100, x % 0x100) == x
  {
    var q1 := x / 0x100;
    assert x == q1 * 0x100 + x % 0x100;
    var q2 := q1 / 0x100;
    assert q1 == q2 * 0x100 + q1 % 0x100;
    var q3 := q2 / 0x100;
    assert q2 == q3 * 0x100 + q2 % 0x100;
    assert x / 0x1_0000 == q2;
    assert x / 0x100_0000 == q3;
  }

  /** Division by a power of 256 determined by a quotient and a small remainder. */
  lemma DivExact(x: nat, q: nat, r: nat, c: nat)
    requires c in {0x100, 0x1_0000, 0x100_0000, 0x1_0000_0000, 0x100_0000_0000, 0x1_0000_0000_0000, 0x100_0000_0000_0000}
    requires r < c && x == q * c + r
    ensures x / c == q && x % c == r
  {
  }

  /** The bytes of a 64-bit pattern split into its high and low 32-bit halves. */
  lemma Halves(w: nat, hi: nat, lo: nat)
    requires lo < 0x1_0000_0000 && w == hi * 0x1_0000_0000 + lo
    ensures w / 0x100_0000_0000_0000 == hi / 0x100_0000
    ensures w / 0x1_0000_0000_0000 == hi / 0x1_0000
    ensures w / 0x100_0000_0000 == hi / 0x100
    ensures w / 0x1_0000_0000 == hi
    ensures w / 0x100_0000 % 0x100 == lo / 0x100_0000
    ensures w / 0x1_0000 % 0x100 == lo / 0x1_0000 % 0x100
    ensures w / 0x100 % 0x100 == lo / 0x100 % 0x100
    ensures w % 0x100 == lo % 0x100
  {
    DivExact(w, hi, lo, 0x1_0000_0000);
    DivExact(w, hi / 0x100_0000, hi % 0x100_0000 * 0x1_0000_0000 + lo, 0x100_0000_0000_0000);
    DivExact(w, hi / 0x1_0000, hi % 0x1_0000 * 0x1_0000_0000 + lo, 0x1_0000_0000_0000);
    DivExact(w, hi / 0x100, hi % 0x100 * 0x1_0000_0000 + lo, 0x100_0000_0000);
    DivExact(w, hi * 0x100 + lo / 0x100_0000, lo % 0x100_0000, 0x100_0000);
    DivExact(hi * 0x100 + lo / 0x100_0000, hi, lo / 0x100_0000, 0x100);
    DivExact(w, hi * 0x1_0000 + lo / 0x1_0000, lo % 0x1_0000, 0x1_0000);
    DivExact(hi * 0x1_0000 + lo / 0x1_0000, hi * 0x100 + lo / 0x1_0000 / 0x100, lo / 0x1_0000 % 0x100, 0x100);
    DivExact(w, hi * 0x100_0000 + lo / 0x100, lo % 0x100, 0x100);
    DivExact(hi * 0x100_0000 + lo / 0x100, hi * 0x1_0000 + lo / 0x100 / 0x100, lo / 0x100 % 0x100, 0x100);
  }

  /** The eight bytes of a pattern, as the bytes of its two 32-bit halves. */
  lemma Bytes8Halves(w: Word64)
    ensures var hi, lo := w / 0x1_0000_0000, w % 0x1_0000_0000;
      Bytes8(w) == [hi / 0x100_0000, hi / 0x1_0000 % 0x100, hi / 0x100 % 0x100, hi % 0x100,
                    lo / 0x100_0000, lo / 0x1_0000 % 0x100, lo / 0x100 % 0x100, lo % 0x100]
  {
    var hi, lo := w / 0x1_0000_0000, w % 0x1_0000_0000;
    Halves(w, hi, lo);
    assert hi < 0x1_0000_0000;
    assert Shift(7) == 0x100_0000_0000_0000 && Shift(6) == 0x1_0000_0000_0000;
    assert Shift(5) == 0x100_0000_0000 && Shift(4) == 0x1_0000_0000;
    assert Shift(3) == 0x100_0000 && Shift(2) == 0x1_0000 && Shift(1) == 0x100 && Shift(0) == 1;
    var e := Bytes8(w);
    assert e[0] == hi / 0x100_0000 && e[1] == hi / 0x1_0000 % 0x100;
    assert e[2] == hi / 0x100 % 0x100 && e[3] == hi % 0x100;
    assert e[4] == lo / 0x100_0000 && e[5] == lo / 0x1_0000 % 0x100;
    assert e[6] == lo / 0x100 % 0x100 && e[7] == lo % 0x100;
  }

  /** Four bytes at `j` holding the big-endian digits of `x` read back as `x`. */
  lemma Be32At(bin: seq<byte>, j: int, x: nat)
    requires x < 0x1_0000_0000 && 0 <= j && j + 4 <= |bin|
    requires bin[j] == x / 0x100_0000 && bin[j + 1] == x / 0x1_0000 % 0x100
    requires bin[j + 2] == x / 0x100 % 0x100 && bin[j + 3] == x % 0x100
    ensures Be32(bin[j], bin[j + 1], bin[j + 2], bin[j + 3]) == x
  {
    Digits32(x);
  }

  /** Eight bytes holding the big-endian digits of `hi` and then of `lo`
      read back as the pattern `hi * 2^32 + lo`. */
  lemma Read8Digits(bin: seq<byte>, i: int, hi: nat, lo: nat)
    requires hi < 0x1_0000_0000 && lo < 0x1_0000_0000 && 0 <= i && i + 8 <= |bin|
    requires bin[i] == hi / 0x100_0000 && bin[i + 1] == hi / 0x1_0000 % 0x100
    requires bin[i + 2] == hi / 0x100 % 0x100 && bin[i + 3] == hi % 0x100
    requires bin[i + 4] == lo / 0x100_0000 && bin[i + 5] == lo / 0x1_0000 % 0x100
    requires bin[i + 6] == lo / 0x100 % 0x100 && bin[i + 7] == lo % 0x100
    ensures Read8(bin, i) == Ok((hi * 0x1_0000_0000 + lo, i + 8))
  {
    Be32At(bin, i, hi);
    Be32At(bin, i + 4, lo);
  }

  /** The round trip of the double payload: the reader reassembles exactly the
      pattern the writer emitted, and consumes exactly its 8 bytes. */
  lemma Read8OfBytes8(bin: seq<byte>, i: int, w: Word64)
    requires 0 <= i && i + 8 <= |bin| && bin[i..i + 8] == Bytes8(w)
    ensures Read8(bin, i) == Ok((w, i + 8))
  {
    var hi, lo := w / 0x1_0000_0000, w % 0x1_0000_0000;
    Bytes8Halves(w);
    var e := bin[i..i + 8];
    assert bin[i] == e[0] && bin[i + 1] == e[1] && bin[i + 2] == e[2] && bin[i + 3] == e[3];
    assert bin[i + 4] == e[4] && bin[i + 5] == e[5] && bin[i + 6] == e[6] && bin[i + 7] == e[7];
    Read8Digits(bin, i, hi, lo);
  }

}
