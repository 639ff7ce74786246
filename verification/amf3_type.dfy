/** The wire-level vocabulary shared by the writer and the reader: bytes,
    UTF-16 text, the one-byte type tags and the fixed constants of
    FastAmf3/Amf3Type.cs. */
module Amf3Type {

  /** An unsigned 8-bit byte. */
  type byte = b: int | 0 <= b < 0x100

  /** A UTF-16 code unit, the element of a .NET string (surrogates included). */
  type CodeUnit = c: int | 0 <= c < 0x1_0000

  /** A .NET string: a sequence of UTF-16 code units. */
  type Str = seq<CodeUnit>

  /** A raw IEEE-754 double bit pattern; the codec never does float arithmetic on it. */
  type Word64 = w: int | 0 <= w < 0x1_0000_0000_0000_0000

  /** A raw IEEE-754 single bit pattern. */
  type Word32 = w: int | 0 <= w < 0x1_0000_0000

  /** Ticks (100 ns units) from 0001-01-01 to the Unix epoch. */
  const UnixEpochTicks: int := 621355968000000000

  /** "$type": the key under which a decoded record keeps its class name. */
  const TypeName: Str := [0x24, 0x74, 0x79, 0x70, 0x65]

  const Undefined: byte := 0
  const Null: byte := 1
  const BooleanFalse: byte := 2
  const BooleanTrue: byte := 3
  const Integer: byte := 4
  const Number: byte := 5
  const String: byte := 6
  const XmlDoc: byte := 7
  const DateTime: byte := 8
  const Array: byte := 9
  const Object: byte := 10
  const Xml: byte := 11
  const ByteArray: byte := 12
  const Amf3Tag: byte := 17

  /** All wire tags, in declaration order. */
  const Tags: seq<byte> :=
    [Undefined, Null, BooleanFalse, BooleanTrue, Integer, Number, String,
     XmlDoc, DateTime, Array, Object, Xml, ByteArray, Amf3Tag]

  /** The tag set is exactly 0..12 and 17, one byte per tag. */
  predicate IsTag(b: int) {
    0 <= b <= 12 || b == 17
  }

  /** Both XML tags denote an XML payload, and they are the only ones that do. */
  predicate IsXmlTag(b: int) {
    b == XmlDoc || b == Xml
  }

  lemma TagsDistinct()
    ensures |Tags| == 14
    ensures forall i, j :: 0 <= i < j < |Tags| ==> Tags[i] != Tags[j]
    ensures forall b: int :: IsTag(b) <==> b in Tags
  {
  }

  /** The class-name key spells "$type". */
  lemma TypeNameIsDollarType()
    ensures |TypeName| == 5 && TypeName[0] == '$' as int
    ensures TypeName == seq(5, i requires 0 <= i < 5 => "$type"[i] as int)
  {
  }
}
