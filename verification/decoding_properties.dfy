/** What the decoder makes of what the encoder writes, and the decoder's own
    quirks: round trips for strings, scalars, dates, byte arrays, dense lists
    and dictionaries, and the places where the two halves of the library do
    not agree. */
module Amf3DecodingProperties {
  import opened Wrappers
  import opened Amf3Type
  import opened ClassDefinitions
  import opened Amf3Decoding
  import E = Amf3Encoding
  import EP = Amf3EncodingProperties
  import U29
  import U29Properties
  import Utf8
  import Utf8Properties
  import BigEndian
  import DoubleBits

  /** Handles and lengths below 2^27 survive the reader's sign extension of
      bit 28 once shifted left by one. */
  const Limit: nat := 0x800_0000

  /** The bytes `e` sit in `bin` from position `i` on. */
  predicate Holds(bin: seq<byte>, i: int, e: seq<byte>) {
    0 <= i && i + |e| <= |bin| && bin[i..i + |e|] == e
  }

  lemma HoldsSplit(bin: seq<byte>, i: int, a: seq<byte>, b: seq<byte>)
    requires Holds(bin, i, a + b)
    ensures Holds(bin, i, a) && Holds(bin, i + |a|, b)
  {
    assert bin[i..i + |a|] == bin[i..i + |a + b|][..|a|];
    assert bin[i + |a|..i + |a| + |b|] == bin[i..i + |a + b|][|a|..];
  }

  lemma Flatten1(a: seq<byte>)
    ensures E.Flatten([a]) == a
  {
    assert [a][1..] == [];
  }

  lemma Flatten2(a: seq<byte>, b: seq<byte>)
    ensures E.Flatten([a] + [b]) == a + b
  {
    EP.FlattenAppend([a], [b]);
    Flatten1(a);
    Flatten1(b);
  }

  /** `ReadAmf3Int` on the bytes `WriteU29` wrote for a value of the signed
      29-bit range. */
  lemma ReadIntOf(src: Source, st: RState, n: int)
    requires -U29.SignBit <= n < U29.SignBit
    requires Holds(src.bin, st.index, U29.Encode(n))
    ensures ReadInt(src, st) == Ok((n, st.(index := st.index + |U29.Encode(n)|)))
  {
    U29Properties.RoundTrip(src.bin, st.index, n);
  }

  /** `WriteLength(len)` then `ReadAmf3Int` and `GetLength`: the inline
      handle and the length it announces, provided the announced bytes fit
      before the logical end of the input. */
  lemma LengthRoundTrip(src: Source, st: RState, len: nat)
    requires len < Limit
    requires Holds(src.bin, st.index, E.LengthBytes(len))
    requires st.index + |E.LengthBytes(len)| + len <= src.maxIndex
    ensures ReadInt(src, st) == Ok((len * 2 + 1, st.(index := st.index + |E.LengthBytes(len)|)))
    ensures GetLength(src, st.(index := st.index + |E.LengthBytes(len)|), len * 2 + 1) == Ok(len)
  {
    ReadIntOf(src, st, len * 2 + 1);
  }

  /** A length of 2^27 or more, which `WriteLength` still writes, reads back
      as a negative handle that `GetLength` refuses. */
  lemma LongLengthRefused(src: Source, st: RState, len: nat)
    requires Limit <= len < 2 * Limit
    requires Holds(src.bin, st.index, E.LengthBytes(len))
    ensures ReadInt(src, st).Ok? && ReadInt(src, st).value.0 == len * 2 + 1 - U29.Range29 < 0
    ensures GetLength(src, ReadInt(src, st).value.1, ReadInt(src, st).value.0) == Fail(Malformed)
  {
    U29Properties.ReadAccOfEncode(src.bin, st.index, len * 2 + 1);
  }

  // ---------------------------------------------------------------------
  // Strings
  // ---------------------------------------------------------------------

  /** The writer's string table and the reader's agree: every string the
      writer has numbered sits at that position of the reader's list, and the
      two have the same size. */
  ghost predicate StringsAgree(t: map<Str, nat>, strings: seq<Str>) {
    && |t| == |strings|
    && forall s :: s in t ==> t[s] < |strings| && strings[t[s]] == s
  }

  /** Text the strict decoder accepts back: no surrogate code units, and
      short enough for its length handle to survive. */
  predicate Portable(s: Str) {
    && (forall k :: 0 <= k < |s| ==> !Utf8.IsSurrogate(s[k]))
    && Utf8.ByteCount(s) < Limit
  }

  /** `ReadUTF8` on the encoding of text without surrogates. */
  lemma ReadUtf8Of(src: Source, st: RState, s: Str, n: nat)
    requires forall k :: 0 <= k < |s| ==> !Utf8.IsSurrogate(s[k])
    requires Holds(src.bin, st.index, Utf8.Encode(s)) && n == Utf8.ByteCount(s)
    ensures n == |Utf8.Encode(s)|
    ensures ReadUtf8(src, st, n) == Ok((s, st.(index := st.index + n)))
  {
    Utf8Properties.DecodeEncode(s);
    Utf8Properties.ByteCountIsEncodedLength(s);
  }

  /** Text that is not empty takes at least one byte. */
  lemma EncodedLengthPositive(s: Str)
    requires s != []
    ensures Utf8.ByteCount(s) != 0
  {
    Utf8Properties.ByteCountIsEncodedLength(s);
    assert Utf8.Encode(s) == Utf8.UnitBytes(s[0]) + Utf8.Encode(s[1..]);
  }

  /** The steps of `ReadAmf3UTF8` on new text: the length handle `lb`, then
      `n` bytes that decode to `s`. */
  lemma ReadStringInline(src: Source, st: RState, n: nat, lb: seq<byte>, s: Str)
    requires 0 < n < Limit && lb == E.LengthBytes(n)
    requires Holds(src.bin, st.index, lb) && st.index + |lb| + n <= src.maxIndex
    requires ReadUtf8(src, st.(index := st.index + |lb|), n) == Ok((s, st.(index := st.index + |lb| + n)))
    ensures ReadString(src, st) == Ok((s, st.(index := st.index + |lb| + n, strings := st.strings + [s])))
  {
    LengthRoundTrip(src, st, n);
  }

  /** A string the writer has numbered, written again: its reference handle
      reads back as the string at that position of the reader's table. */
  lemma StringReferenceRoundTrip(src: Source, st: RState, s: Str, t: E.Tables)
    requires StringsAgree(t.strings, st.strings) && |st.strings| < Limit
    requires s != [] && s in t.strings
    requires Holds(src.bin, st.index, U29.Encode(t.strings[s] * 2))
    ensures ReadString(src, st) == Ok((s, st.(index := st.index + |U29.Encode(t.strings[s] * 2)|)))
  {
    ReadIntOf(src, st, t.strings[s] * 2);
  }

  /** New text: its length handle `lb` and its UTF-8 bytes read back as the
      text, which is appended to the reader's table. */
  lemma NewStringRoundTrip(src: Source, st: RState, s: Str, n: nat, lb: seq<byte>)
    requires Portable(s) && s != [] && n == Utf8.ByteCount(s) && lb == E.LengthBytes(n)
    requires Holds(src.bin, st.index, lb + Utf8.Encode(s))
    requires st.index + |lb| + n <= src.maxIndex
    ensures ReadString(src, st) == Ok((s, st.(index := st.index + |lb| + n, strings := st.strings + [s])))
  {
    HoldsSplit(src.bin, st.index, lb, Utf8.Encode(s));
    EncodedLengthPositive(s);
    ReadUtf8Of(src, st.(index := st.index + |lb|), s, n);
    ReadStringInline(src, st, n, lb, s);
  }

  /** Numbering a new string on both sides keeps the tables in agreement. */
  lemma StringsAgreeAppend(t: map<Str, nat>, strings: seq<Str>, s: Str)
    requires StringsAgree(t, strings) && s !in t
    ensures StringsAgree(t[s := |t|], strings + [s])
  {
    var t', strings' := t[s := |t|], strings + [s];
    forall x | x in t'
      ensures t'[x] < |strings'| && strings'[t'[x]] == x
    {
      if x != s {
        assert x in t;
      }
    }
  }

  /** `WriteUTFBytes` then `ReadAmf3UTF8`: the empty string, a reference to
      a string written earlier, or new text all read back as the string
      written, and the two string tables still agree afterwards. Only the
      cursor and the string table change. */
  lemma StringRoundTrip(src: Source, st: RState, s: Str, t: E.Tables)
    requires StringsAgree(t.strings, st.strings) && |st.strings| < Limit
    requires Portable(s)
    requires Holds(src.bin, st.index, E.Flatten(E.StringChunks(s, t).chunks))
    requires st.index + |E.Flatten(E.StringChunks(s, t).chunks)| <= src.maxIndex
    ensures ReadString(src, st).Ok?
    ensures ReadString(src, st).value.0 == s
    ensures var st' := ReadString(src, st).value.1;
      && st' == st.(index := st.index + |E.Flatten(E.StringChunks(s, t).chunks)|, strings := st'.strings)
      && StringsAgree(E.StringChunks(s, t).tables.strings, st'.strings)
  {
    if s == [] {
      Flatten1([0x01]);
      ReadIntOf(src, st, 1);
      assert ReadString(src, st) == Ok(([], st.(index := st.index + 1)));
    } else if s in t.strings {
      Flatten1(U29.Encode(t.strings[s] * 2));
      StringReferenceRoundTrip(src, st, s, t);
    } else {
      Flatten2(E.LengthBytes(Utf8.ByteCount(s)), Utf8.Encode(s));
      Utf8Properties.ByteCountIsEncodedLength(s);
      NewStringRoundTrip(src, st, s, Utf8.ByteCount(s), E.LengthBytes(Utf8.ByteCount(s)));
      StringsAgreeAppend(t.strings, st.strings, s);
    }
  }

  // ---------------------------------------------------------------------
  // Scalars
  // ---------------------------------------------------------------------

  /** The values `WriteValue` writes without touching the object table. */
  predicate IsScalar(v: E.Input) {
    v.Null? || v.Bool? || v.Int? || v.Number? || (v.Text? && Portable(v.s))
  }

  /** What the reader makes of a scalar the writer wrote: an int outside the
      29-bit range went out as a double. */
  function Decoded(v: E.Input): Value
    requires IsScalar(v)
  {
    match v
    case Null => Value.Null
    case Bool(b) => Bool(b)
    case Int(n) => if -0x1000_0000 <= n <= 0x0FFF_FFFF then Int(n) else Double(DoubleBits.OfInt32(n))
    case Number(w) => Double(w)
    case Text(s) => Text(s)
  }

  /** A tag byte, then the rest. */
  lemma TagAt(bin: seq<byte>, i: int, tag: byte, rest: seq<byte>)
    requires Holds(bin, i, [tag] + rest)
    ensures i < |bin| && bin[i] == tag && Holds(bin, i + 1, rest)
  {
    HoldsSplit(bin, i, [tag], rest);
    assert bin[i..i + 1][0] == bin[i];
  }

  /** `WriteValue` then `ReadAmf3Data` on an int: tag 4 and the U29 inside
      the 29-bit range, tag 5 and the bits of the equal double outside it. */
  lemma IntRoundTrip(src: Source, st: RState, n: DoubleBits.Int32)
    requires Holds(src.bin, st.index, E.Flatten(E.IntChunks(n)))
    ensures ReadData(src, st) == Ok((Decoded(E.Int(n)), st.(index := st.index + |E.Flatten(E.IntChunks(n))|)))
  {
    if -0x1000_0000 <= n <= 0x0FFF_FFFF {
      assert E.Flatten(E.IntChunks(n)) == [Integer] + U29.Encode(n) by {
        Flatten2([Integer], U29.Encode(n));
      }
      ReadSmallInt(src, st, n);
      assert Decoded(E.Int(n)) == Int(n);
    } else {
      var w := DoubleBits.OfInt32(n);
      assert E.Flatten(E.IntChunks(n)) == [Amf3Type.Number] + BigEndian.Bytes8(w) by {
        Flatten2([Amf3Type.Number], BigEndian.Bytes8(w));
      }
      NumberRoundTrip(src, st, w);
      assert Decoded(E.Int(n)) == Double(w);
    }
  }

  /** `ReadAmf3Data` on tag 4 and the U29 of a value of the 29-bit range. */
  lemma ReadSmallInt(src: Source, st: RState, n: int)
    requires -0x1000_0000 <= n <= 0x0FFF_FFFF
    requires Holds(src.bin, st.index, [Integer] + U29.Encode(n))
    ensures ReadData(src, st) == Ok((Int(n), st.(index := st.index + 1 + |U29.Encode(n)|)))
  {
    TagAt(src.bin, st.index, Integer, U29.Encode(n));
    ReadIntOf(src, st.(index := st.index + 1), n);
  }

  /** `WriteValue` then `ReadAmf3Data` on any other number: tag 5 and the
      eight bytes of the double, read back bit for bit. */
  lemma NumberRoundTrip(src: Source, st: RState, w: Word64)
    requires Holds(src.bin, st.index, [Amf3Type.Number] + BigEndian.Bytes8(w))
    ensures ReadData(src, st) == Ok((Double(w), st.(index := st.index + 9)))
  {
    TagAt(src.bin, st.index, Amf3Type.Number, BigEndian.Bytes8(w));
    BigEndian.Read8OfBytes8(src.bin, st.index + 1, w);
  }

  /** `WriteValue` then `ReadAmf3Data` on a string: tag 6, then as
      `StringRoundTrip`. */
  lemma TextRoundTrip(src: Source, st: RState, s: Str, t: E.Tables)
    requires StringsAgree(t.strings, st.strings) && |st.strings| < Limit
    requires Portable(s)
    requires Holds(src.bin, st.index, [String] + E.Flatten(E.StringChunks(s, t).chunks))
    requires st.index + 1 + |E.Flatten(E.StringChunks(s, t).chunks)| <= src.maxIndex
    ensures ReadData(src, st).Ok?
    ensures ReadData(src, st).value.0 == Text(s)
    ensures var st' := ReadData(src, st).value.1;
      && st' == st.(index := st.index + 1 + |E.Flatten(E.StringChunks(s, t).chunks)|, strings := st'.strings)
      && StringsAgree(E.StringChunks(s, t).tables.strings, st'.strings)
  {
    TagAt(src.bin, st.index, String, E.Flatten(E.StringChunks(s, t).chunks));
    StringRoundTrip(src, st.(index := st.index + 1), s, t);
    ReadDataText(src, st);
  }

  /** Tag 6 hands over to `ReadAmf3UTF8`. */
  lemma ReadDataText(src: Source, st: RState)
    requires 0 <= st.index < |src.bin| && src.bin[st.index] == String
    requires ReadString(src, st.(index := st.index + 1)).Ok?
    ensures var (s, st') := ReadString(src, st.(index := st.index + 1)).value;
      ReadData(src, st) == Ok((Text(s), st'))
  {
    var st1 := st.(index := st.index + 1);
    assert ReadByte(src, st) == Ok((String, st1));
  }

  /** `WriteValue` then `ReadAmf3Data` on a scalar: the value comes back
      (ints outside the 29-bit range as the equal double), only the cursor
      and the string table change, and the string tables still agree. */
  lemma ScalarRoundTrip(src: Source, st: RState, v: E.Input, t: E.Tables)
    requires IsScalar(v)
    requires StringsAgree(t.strings, st.strings) && |st.strings| < Limit
    requires Holds(src.bin, st.index, E.Flatten(E.EncValue(v, t).chunks))
    requires st.index + |E.Flatten(E.EncValue(v, t).chunks)| <= src.maxIndex
    ensures ReadData(src, st).Ok?
    ensures ReadData(src, st).value.0 == Decoded(v)
    ensures var st' := ReadData(src, st).value.1;
      && st' == st.(index := st.index + |E.Flatten(E.EncValue(v, t).chunks)|, strings := st'.strings)
      && StringsAgree(E.EncValue(v, t).tables.strings, st'.strings)
  {
    match v
    case Null =>
      Flatten1([Amf3Type.Null]);
      TagAt(src.bin, st.index, Amf3Type.Null, []);
    case Bool(b) =>
      var tag := if b then BooleanTrue else BooleanFalse;
      Flatten1([tag]);
      TagAt(src.bin, st.index, tag, []);
    case Int(n) =>
      IntRoundTrip(src, st, n);
    case Number(w) =>
      Flatten2([Amf3Type.Number], BigEndian.Bytes8(w));
      NumberRoundTrip(src, st, w);
    case Text(s) =>
      var e := E.StringChunks(s, t);
      EP.FlattenAppend([[String]], e.chunks);
      Flatten1([String]);
      TextRoundTrip(src, st, s, t);
  }

  /** `WriteDateTime` of a date not written before, then `ReadAmf3Data`: the
      same milliseconds, and a boxed date appended to the object table. */
  lemma DateRoundTrip(src: Source, st: RState, key: E.Key, millis: Word64, t: E.Tables)
    requires key !in t.objects
    requires Holds(src.bin, st.index, E.Flatten(E.EncDate(key, millis, t).chunks))
    ensures |E.Flatten(E.EncDate(key, millis, t).chunks)| == 10
    ensures ReadData(src, st) == Ok((Date(millis), Intern(st.(index := st.index + 10), DateBox(millis))))
  {
    DateLayout(key, millis, t);
    ReadNewDate(src, st, millis);
  }

  /** The bytes `WriteDateTime` writes for a date not written before. */
  lemma DateLayout(key: E.Key, millis: Word64, t: E.Tables)
    requires key !in t.objects
    ensures E.Flatten(E.EncDate(key, millis, t).chunks) == [DateTime, 0x01] + BigEndian.Bytes8(millis)
  {
    var b := BigEndian.Bytes8(millis);
    EP.FlattenAppend([[DateTime]], [[0x01]] + [b]);
    Flatten1([DateTime]);
    Flatten2([0x01], b);
    assert [[DateTime]] + [[0x01]] + [b] == [[DateTime]] + ([[0x01]] + [b]);
  }

  /** `ReadAmf3Data` on tag 8, the inline marker 0x01 and the 8-byte pattern:
      the date, boxed and appended to the object table. */
  lemma ReadNewDate(src: Source, st: RState, millis: Word64)
    requires Holds(src.bin, st.index, [DateTime, 0x01] + BigEndian.Bytes8(millis))
    ensures ReadData(src, st) == Ok((Date(millis), Intern(st.(index := st.index + 10), DateBox(millis))))
  {
    var rest := [0x01] + BigEndian.Bytes8(millis);
    assert [DateTime, 0x01] + BigEndian.Bytes8(millis) == [DateTime] + rest;
    TagAt(src.bin, st.index, DateTime, rest);
    var st1 := st.(index := st.index + 1);
    assert ReadByte(src, st) == Ok((DateTime, st1));
    ReadInlineDate(src, st1, millis);
    assert ReadTagged(src, st1, DateTime) == Ok((Date(millis), Intern(st.(index := st.index + 10), DateBox(millis))));
  }

  /** `ReadAmf3DateTime(false)` on the inline marker 0x01 and the 8-byte
      pattern: the milliseconds, boxed and interned. */
  lemma ReadInlineDate(src: Source, st: RState, millis: Word64)
    requires Holds(src.bin, st.index, [0x01] + BigEndian.Bytes8(millis))
    ensures ReadDate(src, st, false) == Ok((millis, Intern(st.(index := st.index + 9), DateBox(millis))))
  {
    TagAt(src.bin, st.index, 0x01, BigEndian.Bytes8(millis));
    ReadIntOf(src, st, 1);
    BigEndian.Read8OfBytes8(src.bin, st.index + 1, millis);
  }

  /** The steps of `ReadAmf3ByteArray(false)` on an inline array. */
  lemma ReadByteArrayInline(src: Source, st: RState, h: int, st1: RState, data: seq<byte>)
    requires ReadInt(src, st) == Ok((h, st1)) && h % 2 == 1
    requires GetLength(src, st1, h) == Ok(|data|) && Holds(src.bin, st1.index, data)
    ensures ReadByteArray(src, st, false) ==
      Ok((Ref(|st1.objects|), Intern(st1.(index := st1.index + |data|), ByteBuffer(data))))
  {
  }

  /** The bytes `WriteAmf3ByteArray` writes for an array not written before. */
  lemma ByteArrayLayout(key: E.Key, data: seq<byte>, t: E.Tables)
    requires key !in t.objects
    ensures E.Flatten(E.EncByteArray(key, data, t).chunks) == [ByteArray] + (E.LengthBytes(|data|) + data)
  {
    var lb := E.LengthBytes(|data|);
    EP.FlattenAppend([[ByteArray]], [lb] + [data]);
    Flatten1([ByteArray]);
    Flatten2(lb, data);
    assert [[ByteArray]] + [lb] + [data] == [[ByteArray]] + ([lb] + [data]);
  }

  /** `ReadAmf3Data` on tag 12, the length handle `lb` and the bytes: a copy
      of the bytes, appended to the object table and referenced by its
      position. */
  lemma ReadNewByteArray(src: Source, st: RState, data: seq<byte>, lb: seq<byte>, bytes: seq<byte>)
    requires |data| < Limit && lb == E.LengthBytes(|data|) && bytes == [ByteArray] + (lb + data)
    requires Holds(src.bin, st.index, bytes) && st.index + |bytes| <= src.maxIndex
    ensures ReadData(src, st) == Ok((Ref(|st.objects|), Intern(st.(index := st.index + |bytes|), ByteBuffer(data))))
  {
    ReadDataByteArray(src, st, lb + data);
    ReadInlineBytes(src, st.(index := st.index + 1), data, lb);
  }

  /** `ReadAmf3ByteArray(false)` on the length handle `lb` and the bytes: a
      copy of the bytes, interned. */
  lemma ReadInlineBytes(src: Source, st: RState, data: seq<byte>, lb: seq<byte>)
    requires |data| < Limit && lb == E.LengthBytes(|data|)
    requires Holds(src.bin, st.index, lb + data) && st.index + |lb| + |data| <= src.maxIndex
    ensures ReadByteArray(src, st, false) == Ok((Ref(|st.objects|), Intern(st.(index := st.index + |lb| + |data|), ByteBuffer(data))))
  {
    HoldsSplit(src.bin, st.index, lb, data);
    LengthRoundTrip(src, st, |data|);
    ReadByteArrayInline(src, st, |data| * 2 + 1, st.(index := st.index + |lb|), data);
  }

  /** Tag 12 hands over to `ReadAmf3ByteArray(false)`. */
  lemma ReadDataByteArray(src: Source, st: RState, rest: seq<byte>)
    requires Holds(src.bin, st.index, [ByteArray] + rest)
    ensures Holds(src.bin, st.index + 1, rest)
    ensures ReadData(src, st) == ReadByteArray(src, st.(index := st.index + 1), false)
  {
    TagAt(src.bin, st.index, ByteArray, rest);
    var st1 := st.(index := st.index + 1);
    assert ReadByte(src, st) == Ok((ByteArray, st1));
    assert ReadTagged(src, st1, ByteArray) == ReadByteArray(src, st1, false);
  }

  /** `WriteAmf3ByteArray` of an array not written before, then
      `ReadAmf3Data`: a copy of the same bytes, appended to the object table
      and referenced by its position. */
  lemma ByteArrayRoundTrip(src: Source, st: RState, key: E.Key, data: seq<byte>, t: E.Tables)
    requires key !in t.objects && |data| < Limit
    requires Holds(src.bin, st.index, E.Flatten(E.EncByteArray(key, data, t).chunks))
    requires st.index + |E.Flatten(E.EncByteArray(key, data, t).chunks)| <= src.maxIndex
    ensures ReadData(src, st) == Ok((Ref(|st.objects|),
      Intern(st.(index := st.index + |E.Flatten(E.EncByteArray(key, data, t).chunks)|), ByteBuffer(data))))
  {
    var lb := E.LengthBytes(|data|);
    ByteArrayLayout(key, data, t);
    ReadNewByteArray(src, st, data, lb, E.Flatten(E.EncByteArray(key, data, t).chunks));
  }

  // ---------------------------------------------------------------------
  // XML documents
  // ---------------------------------------------------------------------

  /** `ReadAmf3XmlDocument` succeeds only with `null` or a reference to an
      XML document of the object table. */
  lemma ReadXmlKind(src: Source, st: RState, readType: bool)
    ensures var r := ReadXml(src, st, readType);
      r.Ok? ==>
        || r.value.0 == Null
        || (r.value.0.Ref? && r.value.0.index < |r.value.1.objects| && r.value.1.objects[r.value.0.index].XmlDocument?)
  {
  }

  /** `ReadAmf3XmlDocument(false)` on a reference handle: the document at
      that position, or `null` for an entry of any other kind; a position
      outside the object table fails. The cursor moves past the handle only. */
  lemma ReadXmlReference(src: Source, st: RState, i: nat)
    requires i < Limit
    requires Holds(src.bin, st.index, U29.Encode(i * 2))
    ensures ReadXml(src, st, false).Ok? <==> i < |st.objects|
    ensures i < |st.objects| ==>
      ReadXml(src, st, false) == Ok((if st.objects[i].XmlDocument? then Ref(i) else Null, st.(index := st.index + |U29.Encode(i * 2)|)))
    ensures |st.objects| <= i ==> ReadXml(src, st, false) == Fail(BadReference)
  {
    ReadIntOf(src, st, i * 2);
  }

  /** The steps of `ReadAmf3XmlDocument(false)` on inline text: no bytes
      are read for an empty text. */
  lemma ReadXmlInline(src: Source, st: RState, h: int, st1: RState, n: nat, text: Str, st2: RState)
    requires ReadInt(src, st) == Ok((h, st1)) && h % 2 == 1 && GetLength(src, st1, h) == Ok(n)
    requires n > 0 ==> ReadUtf8(src, st1, n) == Ok((text, st2))
    requires n == 0 ==> text == [] && st2 == st1
    ensures ReadXml(src, st, false) == Ok((Ref(|st2.objects|), Intern(st2, XmlDocument(text))))
  {
  }

  /** `ReadAmf3XmlDocument(false)` on the length handle `lb` of `n` bytes
      that decode to `text`; no bytes are read for a length of zero. */
  lemma ReadXmlText(src: Source, st: RState, n: nat, lb: seq<byte>, text: Str)
    requires n < Limit && lb == E.LengthBytes(n)
    requires Holds(src.bin, st.index, lb) && st.index + |lb| + n <= src.maxIndex
    requires n == 0 ==> text == []
    requires n > 0 ==> ReadUtf8(src, st.(index := st.index + |lb|), n) == Ok((text, st.(index := st.index + |lb| + n)))
    ensures ReadXml(src, st, false) == Ok((Ref(|st.objects|), Intern(st.(index := st.index + |lb| + n), XmlDocument(text))))
  {
    LengthRoundTrip(src, st, n);
    var st1 := st.(index := st.index + |lb|);
    assert n == 0 ==> st1 == st.(index := st.index + |lb| + n);
    ReadXmlInline(src, st, n * 2 + 1, st1, n, text, st.(index := st.index + |lb| + n));
  }

  /** `ReadAmf3XmlDocument(false)` on the length handle `lb` and the UTF-8
      bytes of text without surrogates: a new document holding that text,
      appended to the object table and referenced by its position, after
      exactly those bytes. */
  lemma ReadInlineXml(src: Source, st: RState, text: Str, lb: seq<byte>)
    requires Portable(text) && lb == E.LengthBytes(Utf8.ByteCount(text))
    requires Holds(src.bin, st.index, lb + Utf8.Encode(text))
    requires st.index + |lb| + Utf8.ByteCount(text) <= src.maxIndex
    ensures ReadXml(src, st, false) ==
      Ok((Ref(|st.objects|), Intern(st.(index := st.index + |lb| + Utf8.ByteCount(text)), XmlDocument(text))))
  {
    InlineText(src, st, text, lb);
    ReadXmlText(src, st, Utf8.ByteCount(text), lb, text);
  }

  /** The length handle `lb` and the UTF-8 bytes of text without surrogates,
      as `ReadAmf3UTF8` sees them: the handle, then the text's bytes decoding
      back to it; an empty text has none. */
  lemma InlineText(src: Source, st: RState, text: Str, lb: seq<byte>)
    requires Portable(text) && lb == E.LengthBytes(Utf8.ByteCount(text))
    requires Holds(src.bin, st.index, lb + Utf8.Encode(text))
    ensures Holds(src.bin, st.index, lb)
    ensures Utf8.ByteCount(text) == 0 ==> text == []
    ensures Utf8.ByteCount(text) > 0 ==>
      ReadUtf8(src, st.(index := st.index + |lb|), Utf8.ByteCount(text)) ==
        Ok((text, st.(index := st.index + |lb| + Utf8.ByteCount(text))))
  {
    var n := Utf8.ByteCount(text);
    var st1 := st.(index := st.index + |lb|);
    HoldsSplit(src.bin, st.index, lb, Utf8.Encode(text));
    if text != [] {
      EncodedLengthPositive(text);
      ReadUtf8Of(src, st1, text, n);
      assert st1.(index := st1.index + n) == st.(index := st.index + |lb| + n);
    }
  }

  /** Tags 7 and 11 both hand over to `ReadAmf3XmlDocument(false)`. */
  lemma ReadDataXml(src: Source, st: RState, tag: byte, rest: seq<byte>)
    requires tag == XmlDoc || tag == Xml
    requires Holds(src.bin, st.index, [tag] + rest)
    ensures Holds(src.bin, st.index + 1, rest)
    ensures ReadData(src, st) == ReadXml(src, st.(index := st.index + 1), false)
  {
    TagAt(src.bin, st.index, tag, rest);
    var st1 := st.(index := st.index + 1);
    assert ReadByte(src, st) == Ok((tag, st1));
    assert ReadTagged(src, st1, tag) == ReadXml(src, st1, false);
  }
}
