/** Behaviour of the decoder at its edges: how an inline trait handle is cut
    into flags, which traits and tags it refuses, the keys it numbers
    associative elements with, and the places where it reads back something
    other than what the writer meant. */
module Amf3DecoderQuirks {
  import opened Wrappers
  import opened Amf3Type
  import opened ClassDefinitions
  import opened Amf3Decoding
  import E = Amf3Encoding
  import EP = Amf3EncodingProperties
  import P = Amf3DecodingProperties
  import U29
  import U29Properties

  // ---------------------------------------------------------------------
  // Traits
  // ---------------------------------------------------------------------

  /** An inline trait handle carries, from its low bit up, the
      externalizable flag, the dynamic flag and the member count; the trait
      read back has exactly those. */
  lemma InlineTraitFlags(src: Source, st: RState, handle: int)
    requires handle % 2 == 1 && ReadTrait(src, st, handle).Ok?
    ensures var t := ReadTrait(src, st, handle).value.0;
      && t.isExternalizable == (handle / 2 % 2 == 1)
      && t.isDynamic == (handle / 4 % 2 == 1)
      && t.MemberCount() == handle / 8
  {
    Quarters(handle);
  }

  /** Shifting right by one, twice and three times, as floor divisions. */
  lemma Quarters(a: int)
    ensures a / 2 / 2 == a / 4 && a / 2 / 2 / 2 == a / 8
  {
    var q := a / 8;
    var r := a % 8;
    assert a == 8 * q + r && 0 <= r < 8;
    assert a / 2 == 4 * q + r / 2;
    assert a / 4 == 2 * q + r / 4;
  }

  /** A member count that does not fit the allocation makes the trait read
      fail: a handle whose count bits are negative. */
  lemma NegativeMemberCountRefused(src: Source, st: RState, handle: int)
    requires handle % 2 == 1 && handle < 0
    requires ReadString(src, st).Ok?
    ensures ReadTrait(src, st, handle) == Fail(Overflow)
  {
  }

  /** An object whose handle `h` announces an inline, externalizable trait
      is refused once the trait has been read, whatever follows. */
  lemma ExternalizableRefused(src: Source, st: RState, h: int, st1: RState)
    requires ReadInt(src, st) == Ok((h, st1))
    requires h % 2 == 1 && h / 2 % 2 == 1 && h / 4 % 2 == 1
    requires ReadTrait(src, st1, h / 2).Ok?
    ensures ReadObject(src, st, false) == Fail(Unsupported)
  {
    InlineTraitFlags(src, st1, h / 2);
    Quarters(h);
  }

  /** The header the writer puts before every dictionary, `0x0b 0x01`, is an
      inline, dynamic, anonymous trait with no members; reading it appends
      that trait to the trait table and leaves the string table alone. */
  lemma AnonymousDynamicHeader(src: Source, st: RState)
    requires 0 <= st.index && st.index + 2 <= |src.bin| && st.index + 2 <= src.maxIndex
    requires src.bin[st.index] == 0x0b && src.bin[st.index + 1] == 0x01
    ensures ReadInt(src, st) == Ok((0x0b, st.(index := st.index + 1)))
    ensures var t := DecodedTrait([], [], false, true);
      ReadTrait(src, st.(index := st.index + 1), 0x0b / 2) == Ok((t, st.(index := st.index + 2, traits := st.traits + [t])))
  {
    var st1 := st.(index := st.index + 1);
    assert ReadString(src, st1) == Ok(([], st1.(index := st1.index + 1)));
  }

  // ---------------------------------------------------------------------
  // Tags
  // ---------------------------------------------------------------------

  /** A byte that is no AMF3 tag is refused by `ReadAmf3Data`, and the AMF0
      switch tag 17 is skipped and the value after it read instead. */
  lemma TagDispatch(src: Source, st: RState)
    requires 0 <= st.index < |src.bin|
    ensures !IsTag(src.bin[st.index]) ==> ReadData(src, st) == Fail(Malformed)
    ensures src.bin[st.index] == Amf3Tag ==> ReadData(src, st) == ReadData(src, st.(index := st.index + 1))
  {
  }

  /** `ReadAmf3ByteArray(true)` checks for the array tag 9, not for the byte
      array tag 12 the writer puts before a byte array: a typed read of what
      `WriteAmf3ByteArray` wrote is refused. */
  lemma TypedByteArrayChecksArrayTag(src: Source, st: RState)
    requires 0 <= st.index < |src.bin|
    ensures src.bin[st.index] == ByteArray ==> ReadByteArray(src, st, true) == Fail(Malformed)
    ensures src.bin[st.index] == Amf3Type.Array ==>
      ReadByteArray(src, st, true) == ReadByteArray(src, st.(index := st.index + 1), false)
  {
  }

  /** Empty inline XML text is still interned as a document and referenced
      by its position. */
  lemma EmptyXmlInterned(src: Source, st: RState)
    requires 0 <= st.index && st.index + 2 <= |src.bin| && st.index + 2 <= src.maxIndex
    requires IsXmlTag(src.bin[st.index]) && src.bin[st.index + 1] == 0x01
    ensures ReadData(src, st) == Ok((Ref(|st.objects|), Intern(st.(index := st.index + 2), XmlDocument([]))))
  {
    var st1 := st.(index := st.index + 1);
    assert ReadInt(src, st1) == Ok((1, st1.(index := st1.index + 1)));
  }

  // ---------------------------------------------------------------------
  // Numbered keys
  // ---------------------------------------------------------------------

  /** The number a string of decimal digits spells. */
  function DigitsValue(s: Str): (n: int)
    requires forall k :: 0 <= k < |s| ==> '0' as int <= s[k] <= '9' as int
    ensures n >= 0
  {
    if s == [] then 0 else DigitsValue(s[..|s| - 1]) * 10 + (s[|s| - 1] - '0' as int)
  }

  /** `i.ToString()` spells `i`. */
  lemma {:induction false} DecimalValue(n: nat)
    ensures DigitsValue(Decimal(n)) == n
    decreases n
  {
    if n >= 10 {
      DecimalValue(n / 10);
      var s := Decimal(n);
      assert s[..|s| - 1] == Decimal(n / 10);
    }
  }

  /** The keys the associative elements are added under are pairwise
      distinct, so the element loop never trips over its own keys. */
  lemma DecimalInjective(a: nat, b: nat)
    ensures Decimal(a) == Decimal(b) <==> a == b
  {
    DecimalValue(a);
    DecimalValue(b);
  }

  // ---------------------------------------------------------------------
  // Writer and reader at odds
  // ---------------------------------------------------------------------

  /** `WriteAmf3AssociativeArray` of an empty dictionary writes `9 0x01
      0x01`; the reader sees a dense array of length 0 and builds an empty
      object array, not a dictionary. */
  lemma EmptyAssociativeReadsAsArray(src: Source, st: RState, key: E.Key, t: E.Tables)
    requires key !in t.objects
    requires P.Holds(src.bin, st.index, E.Flatten(E.EncAssociative(E.Dict(key, []), t).chunks))
    requires st.index + 3 <= src.maxIndex
    ensures E.Flatten(E.EncAssociative(E.Dict(key, []), t).chunks) == [Amf3Type.Array, 0x01, 0x01]
    ensures ReadData(src, st) == Ok((Ref(|st.objects|), Intern(st.(index := st.index + 3), ObjectArray([]))))
  {
    EmptyAssociativeLayout(key, t);
    ReadEmptyArray(src, st);
  }

  /** The bytes of an empty associative array not written before. */
  lemma EmptyAssociativeLayout(key: E.Key, t: E.Tables)
    requires key !in t.objects
    ensures E.Flatten(E.EncAssociative(E.Dict(key, []), t).chunks) == [Amf3Type.Array, 0x01, 0x01]
  {
    var v := E.Dict(key, []);
    var t' := t.(objects := t.objects[key := |t.objects|]);
    assert E.EncEntries(v, 0, t').chunks == [];
    var chunks := [[Amf3Type.Array]] + ([[0x01]] + ([] + [[0x01]]));
    assert chunks == [[Amf3Type.Array], [0x01], [0x01]];
    assert chunks[1..][1..] == [[0x01]];
    P.Flatten1([0x01]);
  }

  /** `ReadAmf3Data` on `9 0x01 0x01`: an empty object array, interned. */
  lemma ReadEmptyArray(src: Source, st: RState)
    requires P.Holds(src.bin, st.index, [Amf3Type.Array, 0x01, 0x01])
    requires st.index + 3 <= src.maxIndex
    ensures ReadData(src, st) == Ok((Ref(|st.objects|), Intern(st.(index := st.index + 3), ObjectArray([]))))
  {
    var bin, i := src.bin, st.index;
    assert bin[i] == Amf3Type.Array && bin[i + 1] == 0x01 && bin[i + 2] == 0x01 by {
      assert bin[i..i + 3][0] == bin[i] && bin[i..i + 3][1] == bin[i + 1] && bin[i..i + 3][2] == bin[i + 2];
    }
    var st1 := st.(index := i + 1);
    var st2 := st.(index := i + 2);
    var st3 := st.(index := i + 3);
    assert ReadInt(src, st1) == Ok((1, st2));
    assert ReadInt(src, st2) == Ok((1, st3));
    assert ReadString(src, st2) == Ok(([], st3));
    assert seq(0, _ => Value.Null) == [];
    assert ReadDenseArray(src, st3, 0) == Ok((Ref(|st.objects|), Intern(st3, ObjectArray([]))));
    assert ReadInlineArray(src, st2, 1) == ReadDenseArray(src, st3, 0);
    assert ReadArray(src, st1, false) == ReadInlineArray(src, st2, 1);
  }

  /** `WriteObject` keeps the object table from one top-level value to the
      next, while `ReadNextObject` empties it: a container written a second
      time goes out as a reference that the reader cannot resolve. */
  lemma RepeatedTopLevelObjectUnresolved(src: Source, st: RState, v: E.Input, t: E.Tables)
    requires E.HasEntries(v) && v.key in t.objects && t.objects[v.key] < P.Limit
    requires P.Holds(src.bin, st.index, E.Flatten(E.EncTopLevel(v, t).chunks))
    ensures ReadNextObject(src, st) == Fail(BadReference)
  {
    TopLevelReferenceLayout(v, t);
    ReadObjectReferenceAfterReset(src, st, t.objects[v.key] * 2);
  }

  /** What `WriteObject` emits for a container it has written before: the
      object tag and the reference handle. */
  lemma TopLevelReferenceLayout(v: E.Input, t: E.Tables)
    requires E.HasEntries(v) && v.key in t.objects
    ensures E.Flatten(E.EncTopLevel(v, t).chunks) == [Object] + U29.Encode(t.objects[v.key] * 2)
  {
    var h := t.objects[v.key] * 2;
    var t0 := t.(strings := map[]);
    assert E.Reference(v.key, t0) == (true, E.Emit([U29.Encode(h)], t0));
    assert E.EncValue(v, t0) == E.EncObject(v, t0);
    assert E.EncObject(v, t0).chunks == [[Object]] + [U29.Encode(h)];
    P.Flatten2([Object], U29.Encode(h));
  }

  /** `ReadNextObject` on an object reference: with the tables just emptied,
      no reference resolves. */
  lemma ReadObjectReferenceAfterReset(src: Source, st: RState, h: int)
    requires 0 <= h < U29.SignBit && h % 2 == 0
    requires P.Holds(src.bin, st.index, [Object] + U29.Encode(h))
    ensures ReadNextObject(src, st) == Fail(BadReference)
  {
    P.TagAt(src.bin, st.index, Object, U29.Encode(h));
    var st0 := RState(st.index, [], [], []);
    var st1 := st0.(index := st.index + 1);
    P.ReadIntOf(src, st1, h);
    assert ReadObject(src, st1, false) == Fail(BadReference);
    assert ReadData(src, st0) == ReadObject(src, st1, false);
  }
}
