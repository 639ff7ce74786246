/** UTF-8 as the codec uses it. The writer encodes each UTF-16 code unit on
    its own in 1, 2 or 3 bytes (FastAmf3/Amf3Writer.cs:739-791), surrogate
    units included. The reader hands the bytes to the runtime's strict UTF-8
    decoder (FastAmf3/Amf3Reader.cs:15, 126), modelled here as a decoder to
    UTF-16 that rejects every ill-formed sequence: overlong forms, encoded
    surrogates, code points above U+10FFFF, stray or missing continuation
    bytes. */
module Utf8 {
  import opened Wrappers
  import opened Amf3Type

  /** Bytes used for one code unit: split at 0x80 and 0x800. */
  function UnitSize(c: CodeUnit): (n: nat)
    ensures 1 <= n <= 3
  {
    if c < 0x80 then 1 else if c < 0x800 then 2 else 3
  }

  /** The bytes `GetBytes` writes for one code unit. */
  function UnitBytes(c: CodeUnit): (r: seq<byte>)
    ensures |r| == UnitSize(c)
    ensures r[0] < 0x80 <==> c < 0x80
    ensures forall k :: 1 <= k < |r| ==> 0x80 <= r[k] < 0xC0
  {
    if c < 0x80 then [c]
    else if c < 0x800 then [0xC0 + c / 0x40, 0x80 + c % 0x40]
    else [0xE0 + c / 0x1000, 0x80 + c / 0x40 % 0x40, 0x80 + c % 0x40]
  }

  /** The bytes `GetBytes` writes for a string: its units' bytes in order. */
  function Encode(s: Str): (r: seq<byte>)
  {
    if s == [] then [] else UnitBytes(s[0]) + Encode(s[1..])
  }

  /** The count `GetByteCount` computes: 1, 2 or 3 per code unit. */
  function ByteCount(s: Str): nat
  {
    if s == [] then 0 else ByteCount(s[..|s| - 1]) + UnitSize(s[|s| - 1])
  }

  predicate IsSurrogate(c: CodeUnit) {
    0xD800 <= c <= 0xDFFF
  }

  predicate IsContinuation(b: byte) {
    0x80 <= b <= 0xBF
  }

  /** The first well-formed UTF-8 sequence of `b` as UTF-16 code units (one,
      or a surrogate pair for a supplementary code point) and its length in
      bytes; `None` for an ill-formed or truncated sequence. */
  function DecodeFirst(b: seq<byte>): (r: Option<(Str, nat)>)
    requires |b| > 0
    ensures r.Some? ==> 1 <= r.value.1 <= |b| && 1 <= |r.value.0| <= 2
  {
    var b0: int := b[0];
    var b1: int := if |b| >= 2 then b[1] else 0;
    var b2: int := if |b| >= 3 then b[2] else 0;
    var b3: int := if |b| >= 4 then b[3] else 0;
    if b0 < 0x80 then
      Some(([b0], 1))
    else if 0xC2 <= b0 <= 0xDF then
      if |b| >= 2 && IsContinuation(b[1]) then
        Some(([(b0 - 0xC0) * 0x40 + (b1 - 0x80)], 2))
      else None
    else if 0xE0 <= b0 <= 0xEF then
      var lo := if b0 == 0xE0 then 0xA0 else 0x80;
      var hi := if b0 == 0xED then 0x9F else 0xBF;
      if |b| >= 3 && lo <= b[1] <= hi && IsContinuation(b[2]) then
        Some(([(b0 - 0xE0) * 0x1000 + (b1 - 0x80) * 0x40 + (b2 - 0x80)], 3))
      else None
    else if 0xF0 <= b0 <= 0xF4 then
      var lo := if b0 == 0xF0 then 0x90 else 0x80;
      var hi := if b0 == 0xF4 then 0x8F else 0xBF;
      if |b| >= 4 && lo <= b[1] <= hi && IsContinuation(b[2]) && IsContinuation(b[3]) then
        var cp := (b0 - 0xF0) * 0x4_0000 + (b1 - 0x80) * 0x1000 + (b2 - 0x80) * 0x40 + (b3 - 0x80);
        var u := cp - 0x1_0000;
        Some(([0xD800 + u / 0x400, 0xDC00 + u % 0x400], 4))
      else None
    else
      None
  }

  /** The strict decoder: the whole input must be well-formed. */
  function Decode(b: seq<byte>): (r: Option<Str>)
    decreases |b|
  {
    if b == [] then Some([])
    else
      match DecodeFirst(b)
      case None => None
      case Some((units, n)) =>
        match Decode(b[n..])
        case None => None
        case Some(rest) => Some(units + rest)
  }
}

module Utf8Properties {
  import opened Wrappers
  import opened Amf3Type
  import opened Utf8

  /** Encoding distributes over concatenation; it is what lets a left-to-right
      loop build the encoding one unit at a time. */
  lemma {:induction false} EncodeAppend(s: Str, t: Str)
    ensures Encode(s + t) == Encode(s) + Encode(t)
  {
    if s == [] {
      assert s + t == t;
    } else {
      assert (s + t)[1..] == s[1..] + t;
      EncodeAppend(s[1..], t);
    }
  }

  /** `GetByteCount` and `GetBytes` agree: the count is exactly the number of
      bytes the encoding has. */
  lemma {:induction false} ByteCountIsEncodedLength(s: Str)
    ensures ByteCount(s) == |Encode(s)|
  {
    if s != [] {
      var p := s[..|s| - 1];
      assert s == p + [s[|s| - 1]];
      EncodeAppend(p, [s[|s| - 1]]);
      assert Encode([s[|s| - 1]]) == UnitBytes(s[|s| - 1]) + Encode([]);
      ByteCountIsEncodedLength(p);
    }
  }

  /** The strict decoder recovers a non-surrogate code unit from its bytes,
      whatever follows them. */
  lemma DecodeFirstOfUnit(c: CodeUnit, rest: seq<byte>)
    requires !IsSurrogate(c)
    ensures DecodeFirst(UnitBytes(c) + rest) == Some(([c], UnitSize(c)))
  {
    if c < 0x80 {
      assert (UnitBytes(c) + rest)[0] == c;
    } else if c < 0x800 {
      DecodeFirstOfPair(c, rest);
    } else {
      DecodeFirstOfTriple(c, rest);
    }
  }

  /** A code unit from U+0080 to U+07FF: a lead byte 0xC2..0xDF and one
      continuation byte. */
  lemma DecodeFirstOfPair(c: CodeUnit, rest: seq<byte>)
    requires 0x80 <= c < 0x800
    ensures DecodeFirst(UnitBytes(c) + rest) == Some(([c], 2))
  {
    var b := UnitBytes(c) + rest;
    assert b[0] == 0xC0 + c / 0x40 && b[1] == 0x80 + c % 0x40;
  }

  /** A code unit from U+0800 on, surrogates excepted: a lead byte
      0xE0..0xEF, a second byte within the range that lead allows, and a
      continuation byte. */
  lemma DecodeFirstOfTriple(c: CodeUnit, rest: seq<byte>)
    requires 0x800 <= c && !IsSurrogate(c)
    ensures DecodeFirst(UnitBytes(c) + rest) == Some(([c], 3))
  {
    var b := UnitBytes(c) + rest;
    var hi, mid, lo := c / 0x1000, c / 0x40 % 0x40, c % 0x40;
    assert b[0] == 0xE0 + hi && b[1] == 0x80 + mid && b[2] == 0x80 + lo;
    TripleDigits(c);
  }

  /** A code unit cut into its 4, 6 and 6 bits, and the ranges the second
      byte keeps for the two special leads. */
  lemma TripleDigits(c: CodeUnit)
    requires 0x800 <= c && !IsSurrogate(c)
    ensures c / 0x1000 * 0x1000 + c / 0x40 % 0x40 * 0x40 + c % 0x40 == c
    ensures c / 0x1000 == 0 ==> c / 0x40 % 0x40 >= 0x20
    ensures c / 0x1000 == 0xD ==> c / 0x40 % 0x40 < 0x20
  {
    var q := c / 0x40;
    assert q * 0x40 + c % 0x40 == c;
    assert q / 0x40 == c / 0x1000;
    assert q / 0x40 * 0x40 + q % 0x40 == q;
  }

  /** Text without surrogate code units survives the writer's encoding and the
      reader's strict decoding unchanged. */
  lemma {:induction false} DecodeEncode(s: Str)
    requires forall k :: 0 <= k < |s| ==> !IsSurrogate(s[k])
    ensures Decode(Encode(s)) == Some(s)
  {
    if s != [] {
      var tail := Encode(s[1..]);
      var b := UnitBytes(s[0]) + tail;
      assert Encode(s) == b;
      DecodeFirstOfUnit(s[0], tail);
      assert b[UnitSize(s[0])..] == tail;
      DecodeEncode(s[1..]);
      assert Decode(b) == Some([s[0]] + s[1..]);
      assert [s[0]] + s[1..] == s;
    }
  }

  /** The writer's per-unit encoding of a surrogate is ill-formed UTF-8, so a
      string holding one does not survive: the strict decoder rejects it. */
  lemma LoneSurrogateRejected(c: CodeUnit, rest: seq<byte>)
    requires IsSurrogate(c)
    ensures DecodeFirst(UnitBytes(c) + rest) == None
    ensures Decode(UnitBytes(c) + rest) == None
  {
    var b := UnitBytes(c) + rest;
    assert b[0] == 0xED && b[1] == 0x80 + c / 0x40 % 0x40;
    assert b[1] >= 0xA0;
  }
}
