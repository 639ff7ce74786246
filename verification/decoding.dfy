/** The values `Amf3Reader` decodes, the cursor it leaves and the three
    reference tables it fills, as functions of the input array and the
    reader's state (FastAmf3/Amf3Reader.cs). The class in amf3_reader.dfy is
    proved to return exactly these values, to leave exactly these states and
    to fail exactly when, and with the error, these functions say.

    Decoded containers live in the object table, in the order they were
    interned; a decoded value refers to one by its position (`Ref`). A
    container is interned before its children are read, so a child may refer
    back to its own parent. */
module Amf3Decoding {
  import opened Wrappers
  import opened Amf3Type
  import opened ClassDefinitions
  import U29
  import Utf8
  import BigEndian

  /** A value `ReadAmf3Data` returns. */
  datatype Value =
    | Undefined              // DBNull.Value
    | Null                   // null
    | Bool(b: bool)          // boxed Boolean
    | Int(n: int)            // boxed Int32 from `ReadAmf3Int`
    | Double(bits: Word64)   // boxed Double, by its bit pattern
    | Text(s: Str)           // String
    | Date(millis: Word64)   // boxed DateTime, by the bit pattern of its milliseconds since the epoch
    | Ref(index: nat)        // the entry at this position of the object table

  /** An entry of the object table (`m_objectReferences`). */
  datatype Obj =
    | DateBox(millis: Word64)                // boxed DateTime
    | Dictionary(entries: seq<(Str, Value)>) // a `T` instance: its entries in the order they were added
    | ObjectArray(items: seq<Value>)         // object[]
    | XmlDocument(text: Str)                 // XmlDocument, by the text it was loaded from
    | ByteBuffer(data: seq<byte>)            // byte[]

  /** What the reader was constructed over: the whole array (`m_bin`) and the
      logical end of the input (`m_maxIndex`). Neither changes while reading. */
  datatype Source = Source(bin: seq<byte>, maxIndex: int)

  /** What reading changes: the cursor (`m_index`) and the object, string and
      trait tables. */
  datatype RState = RState(index: int, objects: seq<Obj>, strings: seq<Str>, traits: seq<ClassDefinition>)

  /** The unread part of the array, which every nested read shrinks. */
  function Remaining(src: Source, st: RState): nat {
    if st.index <= |src.bin| then |src.bin| - st.index else 0
  }

  /** A read that consumed at least one byte and only appended to the tables. */
  predicate Advanced(src: Source, a: RState, b: RState) {
    && 0 <= a.index < b.index <= |src.bin|
    && a.objects <= b.objects && a.strings <= b.strings && a.traits <= b.traits
  }

  /** A read that may have consumed nothing, and only appended to the tables. */
  predicate Extends(src: Source, a: RState, b: RState) {
    && a.index <= b.index <= |src.bin|
    && a.objects <= b.objects && a.strings <= b.strings && a.traits <= b.traits
  }

  /** A read that filled the container at `at` and otherwise only appended to
      the tables. */
  predicate Fills(src: Source, a: RState, b: RState, at: nat) {
    && a.index <= b.index <= |src.bin|
    && at < |a.objects| <= |b.objects|
    && (forall i | 0 <= i < |a.objects| && i != at :: b.objects[i] == a.objects[i])
    && a.strings <= b.strings && a.traits <= b.traits
  }

  // ---------------------------------------------------------------------
  // Table operations
  // ---------------------------------------------------------------------

  /** `List<T>[i]`: a position outside the table throws. */
  function Lookup<T>(table: seq<T>, i: int): (r: Result<T>)
    ensures r.Ok? <==> 0 <= i < |table|
    ensures r.Ok? ==> r.value == table[i]
    ensures r.Fail? ==> r.error == BadReference
  {
    if 0 <= i < |table| then Ok(table[i]) else Fail(BadReference)
  }

  /** `m_objectReferences.Add(o)`. */
  function Intern(st: RState, o: Obj): RState {
    st.(objects := st.objects + [o])
  }

  predicate HasKey(entries: seq<(Str, Value)>, key: Str) {
    exists k | 0 <= k < |entries| :: entries[k].0 == key
  }

  /** `instance.Add(key, value)` on the dictionary at `at`: a key already
      present throws. */
  function Add(st: RState, at: nat, key: Str, v: Value): (r: Result<RState>)
    requires at < |st.objects| && st.objects[at].Dictionary?
    ensures r.Fail? <==> HasKey(st.objects[at].entries, key)
    ensures r.Fail? ==> r.error == DuplicateKey
    ensures r.Ok? ==> r.value == st.(objects := st.objects[at := Dictionary(st.objects[at].entries + [(key, v)])])
  {
    var entries := st.objects[at].entries;
    if HasKey(entries, key) then Fail(DuplicateKey)
    else Ok(st.(objects := st.objects[at := Dictionary(entries + [(key, v)])]))
  }

  /** `array[i] = value` on the object array at `at`. */
  function Put(st: RState, at: nat, i: nat, v: Value): RState
    requires at < |st.objects| && st.objects[at].ObjectArray? && i < |st.objects[at].items|
  {
    st.(objects := st.objects[at := ObjectArray(st.objects[at].items[i := v])])
  }

  /** `i.ToString()` for a non-negative int: its decimal digits. */
  function Decimal(n: nat): (s: Str)
    ensures |s| >= 1
    ensures forall k :: 0 <= k < |s| ==> '0' as int <= s[k] <= '9' as int
  {
    if n < 10 then ['0' as int + n] else Decimal(n / 10) + ['0' as int + n % 10]
  }

  /** `after` is `before` followed by `n - i` entries under the keys
      `i.ToString()` .. `(n-1).ToString()`, in that order. */
  predicate NumberedFrom(before: seq<(Str, Value)>, after: seq<(Str, Value)>, i: nat, n: nat) {
    && i <= n
    && |after| == |before| + (n - i)
    && before <= after
    && forall k | |before| <= k < |after| :: after[k].0 == Decimal(i + (k - |before|))
  }

  /** `after` is `before` followed by one entry under each of the declared
      members `i` .. `MemberCount() - 1` of `t`, in member order, and then
      possibly more. */
  predicate MembersFrom(before: seq<(Str, Value)>, after: seq<(Str, Value)>, t: ClassDefinition, i: nat) {
    && i <= t.MemberCount()
    && |before| + (t.MemberCount() - i) <= |after|
    && before <= after
    && forall k | |before| <= k < |before| + (t.MemberCount() - i) :: after[k].0 == t.MemberName(i + (k - |before|))
  }

  /** The entries of a dictionary read under a trait before its members: the
      class name under "$type" exactly when the trait is typed. */
  function SealedHeader(t: ClassDefinition): (header: seq<(Str, Value)>)
    ensures t.IsTypedObject() <==> |header| == 1
    ensures t.IsTypedObject() ==> header[0] == (TypeName, Text(t.className.value))
    ensures !t.IsTypedObject() ==> header == []
  {
    if t.IsTypedObject() then [(TypeName, Text(t.className.value))] else []
  }

  // ---------------------------------------------------------------------
  // Leaf reads
  // ---------------------------------------------------------------------

  /** `ReadByte`: the byte under the cursor; only the array bounds are checked. */
  function ReadByte(src: Source, st: RState): (r: Result<(byte, RState)>)
    ensures r.Ok? <==> 0 <= st.index < |src.bin|
    ensures r.Ok? ==> r.value == (src.bin[st.index], st.(index := st.index + 1))
    ensures r.Fail? ==> r.error == OutOfBounds
  {
    if 0 <= st.index < |src.bin| then Ok((src.bin[st.index], st.(index := st.index + 1)))
    else Fail(OutOfBounds)
  }

  /** `TryReadType(tag)`: consume the byte under the cursor if it is `tag`. */
  function TryReadType(src: Source, st: RState, tag: byte): (r: Result<RState>)
    ensures r.Ok? <==> 0 <= st.index < |src.bin| && src.bin[st.index] == tag
    ensures r.Ok? ==> r.value == st.(index := st.index + 1)
  {
    if !(0 <= st.index < |src.bin|) then Fail(OutOfBounds)
    else if src.bin[st.index] == tag then Ok(st.(index := st.index + 1))
    else Fail(Malformed)
  }

  /** `ReadAmf3Int`. */
  function ReadInt(src: Source, st: RState): (r: Result<(int, RState)>)
    ensures r.Ok? ==> r.value.1 == st.(index := r.value.1.index)
    ensures r.Ok? ==> 0 <= st.index < r.value.1.index <= |src.bin|
  {
    var (n, j) :- U29.Read(src.bin, st.index);
    Ok((n, st.(index := j)))
  }

  /** `ReadAmf3Double`: the 8-byte pattern under the cursor. */
  function ReadDouble(src: Source, st: RState): (r: Result<(Word64, RState)>)
    ensures r.Ok? ==> r.value.1 == st.(index := st.index + 8)
    ensures r.Ok? ==> 0 <= st.index && st.index + 8 <= |src.bin|
  {
    var (w, j) :- BigEndian.Read8(src.bin, st.index);
    Ok((w, st.(index := j)))
  }

  /** `GetLength(handle)`: the length an inline handle announces, which must
      fit before the logical end of the input. The cursor does not move. */
  function GetLength(src: Source, st: RState, handle: int): (r: Result<nat>)
    ensures r.Ok? ==> st.index + r.value <= src.maxIndex
    ensures r.Fail? ==> r.error == Malformed
  {
    var length := handle / 2;
    if length < 0 || st.index + length > src.maxIndex then Fail(Malformed)
    else Ok(length)
  }

  /** `ReadUTF8(length)`: the strict UTF-8 decoding of the next `length` bytes. */
  function ReadUtf8(src: Source, st: RState, length: int): (r: Result<(Str, RState)>)
    ensures r.Ok? ==> r.value.1 == st.(index := st.index + length)
    ensures r.Ok? ==> 0 <= st.index && 0 <= length && st.index + length <= |src.bin|
  {
    if st.index < 0 || length < 0 || st.index + length > |src.bin| then Fail(OutOfBounds)
    else
      match Utf8.Decode(src.bin[st.index..st.index + length])
      case None => Fail(InvalidUtf8)
      case Some(s) => Ok((s, st.(index := st.index + length)))
  }

  /** `ReadAmf3UTF8`: a string-table reference, the empty string, or new text
      that is appended to the string table. */
  function ReadString(src: Source, st: RState): (r: Result<(Str, RState)>)
    ensures r.Ok? ==> 0 <= st.index < r.value.1.index <= |src.bin|
    ensures r.Ok? ==> r.value.1.objects == st.objects && r.value.1.traits == st.traits
    ensures r.Ok? ==> r.value.1.strings == st.strings || r.value.1.strings == st.strings + [r.value.0]
  {
    var (h, st1) :- ReadInt(src, st);
    if h % 2 == 0 then
      var s :- Lookup(st1.strings, h / 2);
      Ok((s, st1))
    else
      var length :- GetLength(src, st1, h);
      if length == 0 then Ok(([], st1))
      else
        var (s, st2) :- ReadUtf8(src, st1, length);
        Ok((s, st2.(strings := st2.strings + [s])))
  }

  /** `ReadClassDefinition(handle)`: a trait-table reference, or an inline
      trait (flags in the handle's low bits, then the class name, then the
      member names) that is appended to the trait table. */
  function ReadTrait(src: Source, st: RState, handle: int): (r: Result<(ClassDefinition, RState)>)
    ensures r.Ok? ==> st.index <= r.value.1.index <= |src.bin| || r.value.1 == st
    ensures r.Ok? ==> r.value.1.objects == st.objects
    ensures r.Ok? ==> st.strings <= r.value.1.strings && st.traits <= r.value.1.traits
    ensures handle % 2 == 0 ==> (r.Ok? <==> 0 <= handle / 2 < |st.traits|)
    ensures handle % 2 == 0 && r.Ok? ==> r.value == (st.traits[handle / 2], st)
    ensures handle % 2 == 1 && r.Ok? ==> r.value.1.traits == st.traits + [r.value.0]
  {
    if handle % 2 == 0 then
      var t :- Lookup(st.traits, handle / 2);
      Ok((t, st))
    else
      var flags := handle / 2;
      var (name, st1) :- ReadString(src, st);
      var externalizable := flags % 2 != 0;
      var dynamic := flags / 2 % 2 != 0;
      var count := flags / 2 / 2;
      if count < 0 then Fail(Overflow)
      else
        var (names, st2) :- ReadNames(src, st1, count, []);
        var t := DecodedTrait(name, names, externalizable, dynamic);
        Ok((t, st2.(traits := st2.traits + [t])))
  }

  /** The member-name loop of `ReadClassDefinition`: `names` read so far. */
  function ReadNames(src: Source, st: RState, count: nat, names: seq<Str>): (r: Result<(seq<Str>, RState)>)
    requires |names| <= count
    ensures r.Ok? ==> |r.value.0| == count && names <= r.value.0
    ensures r.Ok? ==> st.index <= r.value.1.index && (st.index <= |src.bin| ==> r.value.1.index <= |src.bin|)
    ensures r.Ok? ==> r.value.1.objects == st.objects && r.value.1.traits == st.traits
    ensures r.Ok? ==> st.strings <= r.value.1.strings
    decreases count - |names|
  {
    if |names| == count then Ok((names, st))
    else
      var (s, st1) :- ReadString(src, st);
      ReadNames(src, st1, count, names + [s])
  }

  /** `ReadAmf3Bool`: only the two boolean tags are accepted. */
  function ReadBool(src: Source, st: RState): (r: Result<(bool, RState)>)
    ensures r.Ok? <==> 0 <= st.index < |src.bin| && src.bin[st.index] in {BooleanFalse, BooleanTrue}
    ensures r.Ok? ==> r.value == (src.bin[st.index] == BooleanTrue, st.(index := st.index + 1))
  {
    if !(0 <= st.index < |src.bin|) then Fail(OutOfBounds)
    else if src.bin[st.index] == BooleanFalse then Ok((false, st.(index := st.index + 1)))
    else if src.bin[st.index] == BooleanTrue then Ok((true, st.(index := st.index + 1)))
    else Fail(Malformed)
  }

  /** `ReadAmf3Integer`: the integer tag, then a U29. */
  function ReadInteger(src: Source, st: RState): (r: Result<(int, RState)>)
  {
    var st0 :- TryReadType(src, st, Integer);
    ReadInt(src, st0)
  }

  /** `ReadAmf3Number`: the number tag, then an 8-byte pattern. */
  function ReadNumber(src: Source, st: RState): (r: Result<(Word64, RState)>)
  {
    var st0 :- TryReadType(src, st, Amf3Type.Number);
    ReadDouble(src, st0)
  }

  /** `ReadAmf3String`: the string tag, then a string or string reference. */
  function ReadText(src: Source, st: RState): (r: Result<(Str, RState)>)
  {
    var st0 :- TryReadType(src, st, Amf3Type.String);
    ReadString(src, st0)
  }

  /** The optional tag check of the typed reads. */
  function Expect(src: Source, st: RState, readType: bool, tag: byte): (r: Result<RState>)
    ensures r.Ok? ==> r.value.index >= st.index && r.value == st.(index := r.value.index)
    ensures r.Ok? && readType ==> 0 <= st.index < |src.bin|
  {
    if readType then TryReadType(src, st, tag) else Ok(st)
  }

  /** A reference handle's target in the object table. */
  function RefTo(objects: seq<Obj>, i: int): (r: Result<Value>)
    ensures r.Ok? ==> 0 <= i < |objects| && r.value == Ref(i)
    ensures r.Fail? ==> r.error == BadReference
  {
    if 0 <= i < |objects| then Ok(Ref(i)) else Fail(BadReference)
  }

  /** `ReadAmf3DateTime(readType)`: a referenced boxed date (anything else
      fails the unboxing cast), or the next 8 bytes, interned as a new date. */
  function ReadDate(src: Source, st: RState, readType: bool): (r: Result<(Word64, RState)>)
    ensures r.Ok? ==> Advanced(src, st, r.value.1)
  {
    var st0 :- Expect(src, st, readType, Amf3Type.DateTime);
    var (h, st1) :- ReadInt(src, st0);
    if h % 2 == 0 then
      var o :- Lookup(st1.objects, h / 2);
      if o.DateBox? then Ok((o.millis, st1)) else Fail(InvalidCast)
    else
      var (w, st2) :- ReadDouble(src, st1);
      Ok((w, Intern(st2, DateBox(w))))
  }

  /** `ReadAmf3XmlDocument(readType)`: a referenced XML document (`null` for
      any other entry), or inline text interned as a new document, empty text
      included. */
  function ReadXml(src: Source, st: RState, readType: bool): (r: Result<(Value, RState)>)
    ensures r.Ok? ==> Advanced(src, st, r.value.1)
  {
    var st0 :-
      if !readType then Ok(st)
      else if !(0 <= st.index < |src.bin|) then Fail(OutOfBounds)
      else if !IsXmlTag(src.bin[st.index]) then Fail(Malformed)
      else Ok(st.(index := st.index + 1));
    var (h, st1) :- ReadInt(src, st0);
    if h % 2 == 0 then
      var o :- Lookup(st1.objects, h / 2);
      Ok((if o.XmlDocument? then Ref(h / 2) else Null, st1))
    else
      var length :- GetLength(src, st1, h);
      var (text, st2) :- if length > 0 then ReadUtf8(src, st1, length) else Ok(([], st1));
      Ok((Ref(|st2.objects|), Intern(st2, XmlDocument(text))))
  }

  /** `ReadAmf3ByteArray(readType)`: a referenced byte array (`null` for any
      other entry), or a copy of the next `length` bytes, interned. The tag it
      checks is the array tag. */
  function ReadByteArray(src: Source, st: RState, readType: bool): (r: Result<(Value, RState)>)
    ensures r.Ok? ==> Advanced(src, st, r.value.1)
  {
    var st0 :- Expect(src, st, readType, Amf3Type.Array);
    var (h, st1) :- ReadInt(src, st0);
    if h % 2 == 0 then
      var o :- Lookup(st1.objects, h / 2);
      Ok((if o.ByteBuffer? then Ref(h / 2) else Null, st1))
    else
      var length :- GetLength(src, st1, h);
      if st1.index + length > |src.bin| then Fail(OutOfBounds)
      else
        var data := src.bin[st1.index..st1.index + length];
        var st2 := st1.(index := st1.index + length);
        Ok((Ref(|st2.objects|), Intern(st2, ByteBuffer(data))))
  }

  // ---------------------------------------------------------------------
  // Nested reads
  // ---------------------------------------------------------------------

  /** `ReadAmf3Data`: one tag byte, then the value it announces. */
  function ReadData(src: Source, st: RState): (r: Result<(Value, RState)>)
    ensures r.Ok? ==> Advanced(src, st, r.value.1)
    decreases Remaining(src, st), 0
  {
    var (tag, st1) :- ReadByte(src, st);
    ReadTagged(src, st1, tag)
  }

  /** The `switch` of `ReadAmf3Data` on the tag `tag` just read. */
  function ReadTagged(src: Source, st: RState, tag: byte): (r: Result<(Value, RState)>)
    requires 0 <= st.index <= |src.bin|
    ensures r.Ok? ==> Extends(src, st, r.value.1)
    decreases Remaining(src, st), 2
  {
    if tag == Amf3Type.Undefined then Ok((Undefined, st))
    else if tag == Amf3Type.Null then Ok((Null, st))
    else if tag == BooleanFalse then Ok((Bool(false), st))
    else if tag == BooleanTrue then Ok((Bool(true), st))
    else if tag == Integer then
      var (n, st2) :- ReadInt(src, st);
      Ok((Int(n), st2))
    else if tag == Amf3Type.Number then
      var (w, st2) :- ReadDouble(src, st);
      Ok((Double(w), st2))
    else if tag == Amf3Type.String then
      var (s, st2) :- ReadString(src, st);
      Ok((Text(s), st2))
    else if tag == Amf3Type.DateTime then
      var (w, st2) :- ReadDate(src, st, false);
      Ok((Date(w), st2))
    else if tag == Amf3Type.Array then ReadArray(src, st, false)
    else if tag == Amf3Type.Object then ReadObject(src, st, false)
    else if IsXmlTag(tag) then ReadXml(src, st, false)
    else if tag == Amf3Type.ByteArray then ReadByteArray(src, st, false)
    else if tag == Amf3Tag then ReadData(src, st)
    else Fail(Malformed)
  }

  /** `ReadAmf3Array(readType)`: a reference, or a length and a key stream.
      With no key before the empty one the array is dense: an object array of
      `length` elements, interned before they are read. Otherwise it is a
      dictionary, interned at the first key, holding the keyed entries and
      then the elements under the keys "0", "1", ... */
  function ReadArray(src: Source, st: RState, readType: bool): (r: Result<(Value, RState)>)
    ensures r.Ok? ==> Advanced(src, st, r.value.1)
    decreases Remaining(src, st), 1
  {
    var st0 :- Expect(src, st, readType, Amf3Type.Array);
    var (h, st1) :- ReadInt(src, st0);
    if h % 2 == 0 then
      var v :- RefTo(st1.objects, h / 2);
      Ok((v, st1))
    else ReadInlineArray(src, st1, h)
  }

  /** An array written out in full after its handle `h`: the length, then
      the first key, which decides between the two shapes. */
  function ReadInlineArray(src: Source, st: RState, h: int): (r: Result<(Value, RState)>)
    requires 0 <= st.index <= |src.bin|
    ensures r.Ok? ==> Advanced(src, st, r.value.1)
    decreases Remaining(src, st), 4
  {
    var length :- GetLength(src, st, h);
    var (key, st1) :- ReadString(src, st);
    if key == [] then ReadDenseArray(src, st1, length)
    else ReadAssociative(src, st1, key, length)
  }

  /** A reference to the container at `at`, once its contents were read
      with outcome `filled`. */
  function Built(filled: Result<RState>, at: nat): Result<(Value, RState)> {
    var st :- filled;
    Ok((Ref(at), st))
  }

  /** A dense array: `length` nulls, interned, then overwritten in order. */
  function ReadDenseArray(src: Source, st: RState, length: nat): (r: Result<(Value, RState)>)
    requires 0 <= st.index <= |src.bin|
    ensures r.Ok? ==> Extends(src, st, r.value.1)
    ensures r.Ok? ==> r.value.0 == Ref(|st.objects|) && |st.objects| < |r.value.1.objects|
    ensures r.Ok? ==> r.value.1.objects[|st.objects|].ObjectArray? && |r.value.1.objects[|st.objects|].items| == length
    decreases Remaining(src, st), 2
  {
    var at := |st.objects|;
    var st1 := Intern(st, ObjectArray(seq(length, _ => Null)));
    Built(ReadDense(src, st1, at, 0, length), at)
  }

  /** An associative array whose first key `key` has just been read: a new
      dictionary, interned, filled from the key stream and then with the
      `length` numbered elements. */
  function ReadAssociative(src: Source, st: RState, key: Str, length: nat): (r: Result<(Value, RState)>)
    requires 0 <= st.index <= |src.bin|
    ensures r.Ok? ==> Extends(src, st, r.value.1)
    ensures r.Ok? ==> r.value.0 == Ref(|st.objects|) && |st.objects| < |r.value.1.objects|
    ensures r.Ok? ==> r.value.1.objects[|st.objects|].Dictionary?
    decreases Remaining(src, st), 3
  {
    var at := |st.objects|;
    var st1 := Intern(st, Dictionary([]));
    FinishAssociative(src, ReadPairs(src, st1, at, key), at, length)
  }

  /** The rest of an associative array once its key stream has been read
      (with outcome `pairs`) into the dictionary at `at`: the numbered
      elements. */
  function FinishAssociative(src: Source, pairs: Result<RState>, at: nat, length: nat): (r: Result<(Value, RState)>)
    requires pairs.Ok? ==> 0 <= pairs.value.index <= |src.bin|
    requires pairs.Ok? ==> at < |pairs.value.objects| && pairs.value.objects[at].Dictionary?
    ensures r.Ok? ==> pairs.Ok? && Fills(src, pairs.value, r.value.1, at) && r.value.0 == Ref(at)
    ensures pairs.Fail? ==> r == Fail(pairs.error)
    decreases if pairs.Ok? then Remaining(src, pairs.value) else 0, 2
  {
    var st1 :- pairs;
    var st2 :- ReadNumbered(src, st1, at, 0, length);
    Ok((Ref(at), st2))
  }

  /** The element loop of a dense array: elements `i` .. `n`-1 into the array at `at`. */
  function ReadDense(src: Source, st: RState, at: nat, i: nat, n: nat): (r: Result<RState>)
    requires 0 <= st.index <= |src.bin|
    requires at < |st.objects| && st.objects[at].ObjectArray? && |st.objects[at].items| == n && i <= n
    ensures r.Ok? ==> Fills(src, st, r.value, at)
    ensures r.Ok? ==> r.value.objects[at].ObjectArray? && |r.value.objects[at].items| == n
    decreases Remaining(src, st), 1, n - i
  {
    if i == n then Ok(st)
    else
      var (v, st1) :- ReadData(src, st);
      ReadDense(src, Put(st1, at, i, v), at, i + 1, n)
  }

  /** The `while (key != "")` loop: `key` has just been read; its value is
      read and added to the dictionary at `at`, then the next key. */
  function ReadPairs(src: Source, st: RState, at: nat, key: Str): (r: Result<RState>)
    requires 0 <= st.index <= |src.bin|
    requires at < |st.objects| && st.objects[at].Dictionary?
    ensures r.Ok? ==> Fills(src, st, r.value, at) && r.value.objects[at].Dictionary?
    decreases Remaining(src, st), 1
  {
    if key == [] then Ok(st)
    else
      var (v, st1) :- ReadData(src, st);
      var st2 :- Add(st1, at, key, v);
      var (next, st3) :- ReadString(src, st2);
      ReadPairs(src, st3, at, next)
  }

  /** The element loop of an associative array: elements `i` .. `n`-1 added
      under their decimal positions. */
  function ReadNumbered(src: Source, st: RState, at: nat, i: nat, n: nat): (r: Result<RState>)
    requires 0 <= st.index <= |src.bin|
    requires at < |st.objects| && st.objects[at].Dictionary? && i <= n
    ensures r.Ok? ==> Fills(src, st, r.value, at) && r.value.objects[at].Dictionary?
    decreases Remaining(src, st), 1, n - i
  {
    if i == n then Ok(st)
    else
      var (v, st1) :- ReadData(src, st);
      var st2 :- Add(st1, at, Decimal(i), v);
      ReadNumbered(src, st2, at, i + 1, n)
  }

  /** `ReadAmf3Object(readType)`: a reference, or a trait and then the
      object it describes. An externalizable trait is refused; a dynamic one
      is read as a key stream, dropping its declared members and class name. */
  function ReadObject(src: Source, st: RState, readType: bool): (r: Result<(Value, RState)>)
    ensures r.Ok? ==> Advanced(src, st, r.value.1)
    decreases Remaining(src, st), 1
  {
    var st0 :- Expect(src, st, readType, Amf3Type.Object);
    var (h, st1) :- ReadInt(src, st0);
    if h % 2 == 0 then
      var v :- RefTo(st1.objects, h / 2);
      Ok((v, st1))
    else
      var (t, st2) :- ReadTrait(src, st1, h / 2);
      if t.isExternalizable then Fail(Unsupported)
      else if t.isDynamic then ReadDynamic(src, st2)
      else ReadSealed(src, st2, t)
  }

  /** `ReadAmf3Dynamic`: a new dictionary, interned, then filled from the key stream. */
  function ReadDynamic(src: Source, st: RState): (r: Result<(Value, RState)>)
    requires 0 <= st.index <= |src.bin|
    ensures r.Ok? ==> Advanced(src, st, r.value.1)
    ensures r.Ok? ==> r.value.0 == Ref(|st.objects|) && |st.objects| < |r.value.1.objects|
    ensures r.Ok? ==> r.value.1.objects[|st.objects|].Dictionary?
    decreases Remaining(src, st), 2
  {
    var at := |st.objects|;
    var st1 := Intern(st, Dictionary([]));
    var (key, st2) :- ReadString(src, st1);
    Built(ReadPairs(src, st2, at, key), at)
  }

  /** `ReadAmf3Object(classDefinition)`: a new dictionary holding "$type"
      when the trait is typed, interned, then one value per declared member,
      then (for a dynamic trait) the key stream. */
  function ReadSealed(src: Source, st: RState, t: ClassDefinition): (r: Result<(Value, RState)>)
    requires 0 <= st.index <= |src.bin|
    ensures r.Ok? ==> Extends(src, st, r.value.1)
    ensures r.Ok? ==> r.value.0 == Ref(|st.objects|) && |st.objects| < |r.value.1.objects|
    ensures r.Ok? ==> r.value.1.objects[|st.objects|].Dictionary?
    decreases Remaining(src, st), 2
  {
    var at := |st.objects|;
    var st1 := Intern(st, Dictionary(SealedHeader(t)));
    Built(ReadMembers(src, st1, at, t, 0), at)
  }

  /** The member loop of `ReadAmf3Object(classDefinition)`, from member `i`. */
  function ReadMembers(src: Source, st: RState, at: nat, t: ClassDefinition, i: nat): (r: Result<RState>)
    requires 0 <= st.index <= |src.bin|
    requires at < |st.objects| && st.objects[at].Dictionary? && i <= t.MemberCount()
    ensures r.Ok? ==> Fills(src, st, r.value, at) && r.value.objects[at].Dictionary?
    decreases Remaining(src, st), 1, t.MemberCount() - i
  {
    if i == t.MemberCount() then
      if t.isDynamic then
        var (key, st1) :- ReadString(src, st);
        ReadPairs(src, st1, at, key)
      else Ok(st)
    else
      var (v, st1) :- ReadData(src, st);
      var st2 :- Add(st1, at, t.MemberName(i), v);
      ReadMembers(src, st2, at, t, i + 1)
  }

  /** `ReadNextObject`: all three tables are emptied, then one value is read. */
  function ReadNextObject(src: Source, st: RState): (r: Result<(Value, RState)>)
    ensures r.Ok? ==> st.index < r.value.1.index <= |src.bin|
  {
    ReadData(src, RState(st.index, [], [], []))
  }
}
