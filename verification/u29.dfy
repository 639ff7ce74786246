/** The AMF3 variable-length 29-bit integer ("U29"): the byte layout the
    writer emits (FastAmf3/Amf3Writer.cs:300-342) and the value the reader
    reassembles (FastAmf3/Amf3Reader.cs:148-174). Bit operations are written
    with `/` and `%` on non-negative operands; where the source ORs a value
    into an accumulator whose low bits are zero, the model adds. */
module U29 {
  import opened Wrappers
  import opened Amf3Type

  const Range29: int := 0x2000_0000   // 2^29
  const SignBit: int := 0x1000_0000   // bit 28

  /** `value & 0x1fffffff`: the low 29 bits of a two's-complement int
      (Dafny's `%` is Euclidean, so this is the mask for negative values too). */
  function Masked(value: int): (v: nat)
    ensures v < Range29
    ensures 0 <= value < Range29 ==> v == value
    ensures -SignBit <= value < 0 ==> v == value + Range29
  {
    value % Range29
  }

  /** How many bytes the writer uses for a masked value. */
  function Size(v: nat): (n: nat)
    ensures 1 <= n <= 4
  {
    if v < 0x80 then 1 else if v < 0x4000 then 2 else if v < 0x20_0000 then 3 else 4
  }

  /** The bytes `WriteU29(value)` emits, most significant group first. */
  function Encode(value: int): (r: seq<byte>)
    ensures |r| == Size(Masked(value))
    ensures forall k :: 0 <= k < |r| - 1 ==> r[k] >= 0x80
    ensures |r| < 4 ==> r[|r| - 1] < 0x80
  {
    var v := Masked(value);
    if v < 0x80 then
      [v]
    else if v < 0x4000 then
      [0x80 + v / 0x80 % 0x80, v % 0x80]
    else if v < 0x20_0000 then
      [0x80 + v / 0x4000 % 0x80, 0x80 + v / 0x80 % 0x80, v % 0x80]
    else
      [0x80 + v / 0x40_0000 % 0x80, 0x80 + v / 0x8000 % 0x80, 0x80 + v / 0x100 % 0x80, v % 0x100]
  }

  /** The unsigned accumulator `ReadAmf3Int` builds from the bytes at `i`,
      with the index just past the last byte it read. Every byte read is an
      array access, which fails outside the array. */
  function ReadAcc(bin: seq<byte>, i: int): (r: Result<(nat, int)>)
    ensures r.Ok? ==> 0 <= i && i < r.value.1 <= i + 4 && r.value.1 <= |bin|
    ensures r.Ok? ==> r.value.0 < Range29
    ensures r.Fail? ==> r.error == OutOfBounds
  {
    if !(0 <= i < |bin|) then Fail(OutOfBounds)
    else
      var b0: int := bin[i];
      if b0 < 0x80 then Ok((b0, i + 1))
      else
        var acc: int := b0 % 0x80 * 0x80;
        if i + 1 >= |bin| then Fail(OutOfBounds)
        else
          var b1: int := bin[i + 1];
          if b1 < 0x80 then Ok((acc + b1, i + 2))
          else
            var acc: int := (acc + b1 % 0x80) * 0x80;
            if i + 2 >= |bin| then Fail(OutOfBounds)
            else
              var b2: int := bin[i + 2];
              if b2 < 0x80 then Ok((acc + b2, i + 3))
              else
                var acc: int := (acc + b2 % 0x80) * 0x100;
                if i + 3 >= |bin| then Fail(OutOfBounds)
                else Ok((acc + bin[i + 3], i + 4))
  }

  /** `-(acc & 0x10000000) | acc`: sign-extend bit 28 of a 29-bit accumulator. */
  function SignExtend(acc: nat): (r: int)
    requires acc < Range29
    ensures -SignBit <= r < SignBit
    ensures Masked(r) == acc
  {
    if acc >= SignBit then acc - Range29 else acc
  }

  /** `ReadAmf3Int` as a function of the byte array and the cursor: the signed
      29-bit value and the new cursor. */
  function Read(bin: seq<byte>, i: int): (r: Result<(int, int)>)
    ensures r.Ok? ==> -SignBit <= r.value.0 < SignBit
    ensures r.Ok? ==> 0 <= i < r.value.1 <= |bin| && r.value.1 <= i + 4
    ensures r.Fail? ==> r.error == OutOfBounds
  {
    var (acc, j) :- ReadAcc(bin, i);
    Ok((SignExtend(acc), j))
  }
}

module U29Properties {
  import opened Wrappers
  import opened Amf3Type
  import opened U29

  /** The groups `Encode` takes from a two-byte value put back together. */
  lemma Groups2(v: nat)
    requires v < 0x4000
    ensures v / 0x80 < 0x80
    ensures v / 0x80 * 0x80 + v % 0x80 == v
  {
  }

  /** The groups `Encode` takes from a three-byte value put back together. */
  lemma Groups3(v: nat)
    requires v < 0x20_0000
    ensures v / 0x4000 < 0x80
    ensures (v / 0x4000 * 0x80 + v / 0x80 % 0x80) * 0x80 + v % 0x80 == v
  {
    var q := v / 0x80;
    assert v == q * 0x80 + v % 0x80;
    assert q == q / 0x80 * 0x80 + q % 0x80;
    assert v / 0x4000 == q / 0x80;
  }

  /** The groups `Encode` takes from a four-byte value put back together: three
      7-bit groups and a final 8-bit group. */
  lemma Groups4(v: nat)
    requires v < Range29
    ensures v / 0x40_0000 < 0x80
    ensures ((v / 0x40_0000 * 0x80 + v / 0x8000 % 0x80) * 0x80 + v / 0x100 % 0x80) * 0x100 + v % 0x100 == v
  {
    var q1 := v / 0x100;
    assert v == q1 * 0x100 + v % 0x100;
    var q2 := q1 / 0x80;
    assert q1 == q2 * 0x80 + q1 % 0x80;
    var q3 := q2 / 0x80;
    assert q2 == q3 * 0x80 + q2 % 0x80;
    assert v / 0x8000 == q2;
    assert v / 0x40_0000 == q3;
  }

  /** Byte `k` of an encoding, read from the array holding it at `i`. */
  lemma ByteAt(bin: seq<byte>, i: int, e: seq<byte>, k: int)
    requires 0 <= i && i + |e| <= |bin| && bin[i..i + |e|] == e
    requires 0 <= k < |e|
    ensures bin[i + k] == e[k]
  {
    assert bin[i..i + |e|][k] == bin[i + k];
  }

  /** `ReadAcc` on the two bytes of a value below 2^14. */
  lemma ReadAcc2(bin: seq<byte>, i: int, v: nat)
    requires 0x80 <= v < 0x4000
    requires 0 <= i && i + 2 <= |bin| && bin[i..i + 2] == [0x80 + v / 0x80 % 0x80, v % 0x80]
    ensures ReadAcc(bin, i) == Ok((v, i + 2))
  {
    Groups2(v);
    ByteAt(bin, i, bin[i..i + 2], 0);
    ByteAt(bin, i, bin[i..i + 2], 1);
  }

  /** `ReadAcc` on the three bytes of a value below 2^21. */
  lemma ReadAcc3(bin: seq<byte>, i: int, v: nat)
    requires 0x4000 <= v < 0x20_0000
    requires 0 <= i && i + 3 <= |bin|
    requires bin[i..i + 3] == [0x80 + v / 0x4000 % 0x80, 0x80 + v / 0x80 % 0x80, v % 0x80]
    ensures ReadAcc(bin, i) == Ok((v, i + 3))
  {
    Groups3(v);
    ByteAt(bin, i, bin[i..i + 3], 0);
    ByteAt(bin, i, bin[i..i + 3], 1);
    ByteAt(bin, i, bin[i..i + 3], 2);
  }

  /** `ReadAcc` on the four bytes of a value of 2^21 or more, whose last byte
      carries 8 bits. */
  lemma ReadAcc4(bin: seq<byte>, i: int, v: nat)
    requires 0x20_0000 <= v < Range29
    requires 0 <= i && i + 4 <= |bin|
    requires bin[i..i + 4] == [0x80 + v / 0x40_0000 % 0x80, 0x80 + v / 0x8000 % 0x80, 0x80 + v / 0x100 % 0x80, v % 0x100]
    ensures ReadAcc(bin, i) == Ok((v, i + 4))
  {
    Groups4(v);
    var a, b, c, d := v / 0x40_0000, v / 0x8000 % 0x80, v / 0x100 % 0x80, v % 0x100;
    ByteAt(bin, i, bin[i..i + 4], 0);
    ByteAt(bin, i, bin[i..i + 4], 1);
    ByteAt(bin, i, bin[i..i + 4], 2);
    ByteAt(bin, i, bin[i..i + 4], 3);
    assert bin[i] == 0x80 + a && bin[i + 1] == 0x80 + b && bin[i + 2] == 0x80 + c && bin[i + 3] == d;
    Groups4Read(bin[i], bin[i + 1], bin[i + 2], bin[i + 3], a, b, c, d);
  }

  /** The accumulator steps of `ReadAmf3Int` over four bytes with their
      continuation bits set on the first three. */
  lemma Groups4Read(b0: int, b1: int, b2: int, b3: int, a: int, b: int, c: int, d: int)
    requires 0 <= a < 0x80 && 0 <= b < 0x80 && 0 <= c < 0x80
    requires b0 == 0x80 + a && b1 == 0x80 + b && b2 == 0x80 + c && b3 == d
    ensures ((b0 % 0x80 * 0x80 + b1 % 0x80) * 0x80 + b2 % 0x80) * 0x100 + b3
         == ((a * 0x80 + b) * 0x80 + c) * 0x100 + d
  {
  }

  /** Reading back the bytes of `Encode(value)` reassembles exactly the masked
      value and stops right after them, whatever surrounds them. */
  lemma ReadAccOfEncode(bin: seq<byte>, i: int, value: int)
    requires 0 <= i && i + |Encode(value)| <= |bin|
    requires bin[i..i + |Encode(value)|] == Encode(value)
    ensures ReadAcc(bin, i) == Ok((Masked(value), i + |Encode(value)|))
  {
    var v := Masked(value);
    if v < 0x80 {
      ByteAt(bin, i, Encode(value), 0);
    } else if v < 0x4000 {
      ReadAcc2(bin, i, v);
    } else if v < 0x20_0000 {
      ReadAcc3(bin, i, v);
    } else {
      ReadAcc4(bin, i, v);
    }
  }

  /** The round trip of section 1.3.1 of the AMF 3 specification: every
      value of the signed 29-bit range written by `WriteU29` is read back by
      `ReadAmf3Int` unchanged, and the cursor ends just past the bytes
      written. */
  lemma RoundTrip(bin: seq<byte>, i: int, value: int)
    requires -SignBit <= value < SignBit
    requires 0 <= i && i + |Encode(value)| <= |bin|
    requires bin[i..i + |Encode(value)|] == Encode(value)
    ensures Read(bin, i) == Ok((value, i + |Encode(value)|))
  {
    ReadAccOfEncode(bin, i, value);
  }

  /** Only the low 29 bits of the argument affect what `WriteU29` emits: two
      arguments give the same bytes exactly when they agree modulo 2^29. */
  lemma EncodeDependsOnLow29Bits(a: int, b: int)
    ensures Encode(a) == Encode(b) <==> Masked(a) == Masked(b)
  {
    if Encode(a) == Encode(b) {
      var e := Encode(a);
      ReadAccOfEncode(e, 0, a);
      ReadAccOfEncode(e, 0, b);
    }
  }

  /** The encoded size is chosen by the masked value's range: 1 byte below
      0x80, 2 below 0x4000, 3 below 0x200000, otherwise 4. */
  lemma EncodeSize(value: int)
    ensures Masked(value) < 0x80 ==> |Encode(value)| == 1
    ensures 0x80 <= Masked(value) < 0x4000 ==> |Encode(value)| == 2
    ensures 0x4000 <= Masked(value) < 0x20_0000 ==> |Encode(value)| == 3
    ensures 0x20_0000 <= Masked(value) ==> |Encode(value)| == 4
  {
  }
}
