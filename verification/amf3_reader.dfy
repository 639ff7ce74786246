/** The decoder `Amf3Reader<T>` (FastAmf3/Amf3Reader.cs): a cursor over a
    window of a byte array and three reference tables that reads append to.
    Every read is proved to return the value, and to leave the cursor and
    tables, that the functions of decoding.dfy prescribe, and to fail exactly
    when, and with the error, they say. The dictionary type parameter `T` is
    the `Dictionary` entry of the object table. */
module Decoder {
  import opened Wrappers
  import opened Amf3Type
  import opened ClassDefinitions
  import opened Amf3Decoding
  import U29
  import BigEndian
  import Utf8

  /** A read's result `r` and the state `now` it left are the ones `spec`
      prescribes; a failure carries the error `spec` names. */
  ghost predicate Agrees<T>(r: Result<T>, spec: Result<(T, RState)>, now: RState) {
    && (r.Ok? <==> spec.Ok?)
    && (r.Ok? ==> spec.value == (r.value, now))
    && (r.Fail? ==> spec.Fail? && r.error == spec.error)
  }

  /** The same for a step that returns nothing. */
  ghost predicate Settles(o: Outcome, spec: Result<RState>, now: RState) {
    && (o.Pass? <==> spec.Ok?)
    && (o.Pass? ==> spec.value == now)
    && (o.Raise? ==> spec.Fail? && o.error == spec.error)
  }

  /** An `ArraySegment<byte>`: a window of an array, valid by construction. */
  datatype Segment = Segment(buffer: seq<byte>, offset: nat, count: nat)
  type ArraySegment = s: Segment | s.offset + s.count <= |s.buffer| witness Segment([], 0, 0)

  class Amf3Reader {
    const bin: seq<byte>       // m_bin, never written by the reader
    const offset: int          // m_offset
    const maxIndex: int        // m_maxIndex: the logical end of the input
    var index: int             // m_index: the cursor
    var objects: seq<Obj>      // m_objectReferences
    var strings: seq<Str>      // m_stringReferences
    var traits: seq<ClassDefinition>  // m_classDefinitions

    function Src(): Source {
      Source(bin, maxIndex)
    }

    function St(): RState
      reads this
    {
      RState(index, objects, strings, traits)
    }

    /** `Amf3Reader(bin, offset, size)`: the cursor at `offset`, the input
        ending `size` bytes later, the tables empty. Nothing is validated. */
    constructor (bin: seq<byte>, offset: int, size: int)
      ensures this.bin == bin && this.offset == offset && maxIndex == offset + size
      ensures St() == RState(offset, [], [], [])
    {
      this.bin := bin;
      this.offset := offset;
      index := offset;
      maxIndex := offset + size;
      objects := [];
      strings := [];
      traits := [];
    }

    /** `Amf3Reader(segment)`: the same over the segment's window. */
    constructor FromSegment(segment: ArraySegment)
      ensures bin == segment.buffer && offset == segment.offset
      ensures maxIndex == segment.offset + segment.count <= |bin|
      ensures St() == RState(segment.offset, [], [], [])
    {
      bin := segment.buffer;
      offset := segment.offset;
      index := segment.offset;
      maxIndex := segment.offset + segment.count;
      objects := [];
      strings := [];
      traits := [];
    }

    /** `Count`: the bytes consumed since the start. */
    function Count(): int
      reads this
    {
      index - offset
    }

    /** `Capacity`: the size of the input. */
    function Capacity(): int {
      maxIndex - offset
    }

    /** `Unfinished`: input remains, that is, fewer bytes were consumed than
        the input holds. */
    function Unfinished(): (u: bool)
      reads this
      ensures u <==> Count() < Capacity()
    {
      index < maxIndex
    }

    /** `TrySkip(length)`: move the cursor only when it then stays strictly
        before the logical end, so a skip can never finish the input. */
    method TrySkip(length: int) returns (ok: bool)
      modifies this
      ensures ok <==> old(index) + length < maxIndex
      ensures index == (if ok then old(index) + length else old(index))
      ensures objects == old(objects) && strings == old(strings) && traits == old(traits)
      ensures ok ==> Unfinished()
    {
      if index + length < maxIndex {
        index := index + length;
        return true;
      }
      return false;
    }

    /** `ReadByte`. */
    method ReadByte() returns (r: Result<byte>)
      modifies this
      ensures Agrees(r, Amf3Decoding.ReadByte(Src(), old(St())), St())
    {
      if !(0 <= index < |bin|) {
        return Fail(OutOfBounds);
      }
      r := Ok(bin[index]);
      index := index + 1;
    }

    /** `TryReadType(amftype)`. */
    method TryReadType(amftype: byte) returns (o: Outcome)
      modifies this
      ensures Settles(o, Amf3Decoding.TryReadType(Src(), old(St()), amftype), St())
    {
      if !(0 <= index < |bin|) {
        return Raise(OutOfBounds);
      }
      if bin[index] == amftype {
        index := index + 1;
        return Pass;
      }
      o := Raise(Malformed);
    }

    /** `ReadUTF8(length)`. */
    method ReadUTF8(length: int) returns (r: Result<Str>)
      modifies this
      ensures Agrees(r, ReadUtf8(Src(), old(St()), length), St())
    {
      if index < 0 || length < 0 || index + length > |bin| {
        return Fail(OutOfBounds);
      }
      var decoded := Utf8.Decode(bin[index..index + length]);
      if decoded.None? {
        return Fail(InvalidUtf8);
      }
      index := index + length;
      r := Ok(decoded.value);
    }

    /** `ReadAmf3UTF8`. */
    method ReadAmf3UTF8() returns (r: Result<Str>)
      modifies this
      ensures Agrees(r, ReadString(Src(), old(St())), St())
    {
      var handle :- ReadAmf3Int();
      if handle % 2 == 0 {
        var s :- Lookup(strings, handle / 2);
        return Ok(s);
      }
      var length :- GetLength(Src(), St(), handle);
      if length == 0 {
        return Ok([]);
      }
      var str :- ReadUTF8(length);
      strings := strings + [str];
      r := Ok(str);
    }

    /** `ReadAmf3Int`: up to four bytes, seven bits from each of the first
        three and eight from the fourth, then bit 28 sign-extended. */
    method ReadAmf3Int() returns (r: Result<int>)
      modifies this
      ensures Agrees(r, ReadInt(Src(), old(St())), St())
    {
      var b :- ReadByte();
      var acc: int := b;
      if acc < 0x80 {
        return Ok(acc);
      }
      acc := acc % 0x80 * 0x80;
      var tmp :- ReadByte();
      if tmp < 0x80 {
        acc := acc + tmp;
      } else {
        acc := (acc + tmp % 0x80) * 0x80;
        tmp :- ReadByte();
        if tmp < 0x80 {
          acc := acc + tmp;
        } else {
          acc := (acc + tmp % 0x80) * 0x100;
          tmp :- ReadByte();
          acc := acc + tmp;
        }
      }
      r := Ok(U29.SignExtend(acc));
    }

    /** `ReadAmf3Double`: the eight bytes copied in reverse order into a
        buffer that is then reinterpreted little-endian. */
    method ReadAmf3Double() returns (r: Result<Word64>)
      modifies this
      ensures Agrees(r, ReadDouble(Src(), old(St())), St())
    {
      var buffer := new byte[8];
      for i := 0 to 8
        modifies buffer
        invariant i > 0 ==> 0 <= index + 8 - i && index + 7 < |bin|
        invariant forall k :: 0 <= k < i ==> buffer[k] == bin[index + 7 - k]
      {
        if !(0 <= index + 7 - i < |bin|) {
          return Fail(OutOfBounds);
        }
        buffer[i] := bin[index + 7 - i];
      }
      BigEndian.LittleEndianOfReversed(bin, index, buffer[..]);
      index := index + 8;
      r := Ok(BigEndian.LittleEndian(buffer[..]));
    }

    /** `instance.Add(key, value)` on the dictionary at `at`. */
    method AddEntry(at: nat, key: Str, value: Value) returns (o: Outcome)
      requires at < |objects| && objects[at].Dictionary?
      modifies this
      ensures Settles(o, Add(old(St()), at, key, value), St())
    {
      if HasKey(objects[at].entries, key) {
        return Raise(DuplicateKey);
      }
      objects := objects[at := Dictionary(objects[at].entries + [(key, value)])];
      o := Pass;
    }

    /** `ReadClassDefinition(handle)`. */
    method ReadClassDefinition(handle: int) returns (r: Result<ClassDefinition>)
      modifies this
      ensures Agrees(r, ReadTrait(Src(), old(St()), handle), St())
    {
      if handle % 2 == 0 {
        var t :- Lookup(traits, handle / 2);
        return Ok(t);
      }
      var flags := handle / 2;
      var typeIdentifier :- ReadAmf3UTF8();
      var externalizable := flags % 2 != 0;
      flags := flags / 2;
      var isDynamic := flags % 2 != 0;
      flags := flags / 2;
      if flags < 0 {
        return Fail(Overflow);
      }
      ghost var start := St();
      var names: seq<Str> := [];
      for i := 0 to flags
        invariant |names| == i
        invariant ReadNames(Src(), start, flags, []) == ReadNames(Src(), St(), flags, names)
      {
        var name :- ReadAmf3UTF8();
        names := names + [name];
      }
      var classDefinition := DecodedTrait(typeIdentifier, names, externalizable, isDynamic);
      traits := traits + [classDefinition];
      r := Ok(classDefinition);
    }

    /** `ReadAmf3Bool`. */
    method ReadAmf3Bool() returns (r: Result<bool>)
      modifies this
      ensures Agrees(r, ReadBool(Src(), old(St())), St())
    {
      if !(0 <= index < |bin|) {
        return Fail(OutOfBounds);
      }
      var b := bin[index];
      if b == BooleanFalse {
        index := index + 1;
        return Ok(false);
      }
      if b == BooleanTrue {
        index := index + 1;
        return Ok(true);
      }
      r := Fail(Malformed);
    }

    /** `ReadAmf3Integer`. */
    method ReadAmf3Integer() returns (r: Result<int>)
      modifies this
      ensures Agrees(r, ReadInteger(Src(), old(St())), St())
    {
      var typed := TryReadType(Integer);
      if typed.Raise? {
        return Fail(typed.error);
      }
      r := ReadAmf3Int();
    }

    /** `ReadAmf3Number`. */
    method ReadAmf3Number() returns (r: Result<Word64>)
      modifies this
      ensures Agrees(r, ReadNumber(Src(), old(St())), St())
    {
      var typed := TryReadType(Amf3Type.Number);
      if typed.Raise? {
        return Fail(typed.error);
      }
      r := ReadAmf3Double();
    }

    /** `ReadAmf3String`. */
    method ReadAmf3String() returns (r: Result<Str>)
      modifies this
      ensures Agrees(r, ReadText(Src(), old(St())), St())
    {
      var typed := TryReadType(Amf3Type.String);
      if typed.Raise? {
        return Fail(typed.error);
      }
      r := ReadAmf3UTF8();
    }

    /** `ReadAmf3DateTime(readType)`. */
    method ReadAmf3DateTime(readType: bool) returns (r: Result<Word64>)
      modifies this
      ensures Agrees(r, ReadDate(Src(), old(St()), readType), St())
    {
      if readType {
        :- TryReadType(Amf3Type.DateTime);
      }
      var handle :- ReadAmf3Int();
      if handle % 2 == 0 {
        var o :- Lookup(objects, handle / 2);
        if !o.DateBox? {
          return Fail(InvalidCast);
        }
        return Ok(o.millis);
      }
      var milliseconds :- ReadAmf3Double();
      objects := objects + [DateBox(milliseconds)];
      r := Ok(milliseconds);
    }

    /** `ReadAmf3XmlDocument(readType)`. */
    method ReadAmf3XmlDocument(readType: bool) returns (r: Result<Value>)
      modifies this
      ensures Agrees(r, ReadXml(Src(), old(St()), readType), St())
    {
      if readType {
        if !(0 <= index < |bin|) {
          return Fail(OutOfBounds);
        }
        var amftype := bin[index];
        if amftype != Xml && amftype != XmlDoc {
          return Fail(Malformed);
        }
        index := index + 1;
      }
      var handle :- ReadAmf3Int();
      if handle % 2 == 0 {
        var o :- Lookup(objects, handle / 2);
        return Ok(if o.XmlDocument? then Ref(handle / 2) else Value.Null);
      }
      var length :- GetLength(Src(), St(), handle);
      var xml: Str := [];
      if length > 0 {
        xml :- ReadUTF8(length);
      }
      objects := objects + [XmlDocument(xml)];
      r := Ok(Ref(|objects| - 1));
    }

    /** `ReadAmf3ByteArray(readType)`. */
    method ReadAmf3ByteArray(readType: bool) returns (r: Result<Value>)
      modifies this
      ensures Agrees(r, ReadByteArray(Src(), old(St()), readType), St())
    {
      if readType {
        :- TryReadType(Amf3Type.Array);
      }
      var handle :- ReadAmf3Int();
      if handle % 2 == 0 {
        var o :- Lookup(objects, handle / 2);
        return Ok(if o.ByteBuffer? then Ref(handle / 2) else Value.Null);
      }
      var length :- GetLength(Src(), St(), handle);
      if index + length > |bin| {
        return Fail(OutOfBounds);
      }
      var buffer := bin[index..index + length];
      index := index + length;
      objects := objects + [ByteBuffer(buffer)];
      r := Ok(Ref(|objects| - 1));
    }

    /** `ReadAmf3Data`. */
    method ReadAmf3Data() returns (r: Result<Value>)
      modifies this
      ensures Agrees(r, ReadData(Src(), old(St())), St())
      decreases Remaining(Src(), St()), 0
    {
      var tag :- ReadByte();
      if tag == Amf3Type.Undefined {
        r := Ok(Value.Undefined);
      } else if tag == Amf3Type.Null {
        r := Ok(Value.Null);
      } else if tag == BooleanFalse {
        r := Ok(Bool(false));
      } else if tag == BooleanTrue {
        r := Ok(Bool(true));
      } else if tag == Integer {
        var n :- ReadAmf3Int();
        r := Ok(Int(n));
      } else if tag == Amf3Type.Number {
        var w :- ReadAmf3Double();
        r := Ok(Double(w));
      } else if tag == Amf3Type.String {
        var s :- ReadAmf3UTF8();
        r := Ok(Text(s));
      } else if tag == Amf3Type.DateTime {
        var w :- ReadAmf3DateTime(false);
        r := Ok(Date(w));
      } else if tag == Amf3Type.Array {
        r := ReadAmf3Array(false);
      } else if tag == Amf3Type.Object {
        r := ReadAmf3Object(false);
      } else if tag == Xml || tag == XmlDoc {
        r := ReadAmf3XmlDocument(false);
      } else if tag == Amf3Type.ByteArray {
        r := ReadAmf3ByteArray(false);
      } else if tag == Amf3Tag {
        r := ReadAmf3Data();
      } else {
        r := Fail(Malformed);
      }
    }

    /** `ReadAmf3Array(readType)`. */
    method ReadAmf3Array(readType: bool) returns (r: Result<Value>)
      modifies this
      ensures Agrees(r, ReadArray(Src(), old(St()), readType), St())
      decreases Remaining(Src(), St()), 5
    {
      if readType {
        :- TryReadType(Amf3Type.Array);
      }
      var handle :- ReadAmf3Int();
      if handle % 2 == 0 {
        var v :- RefTo(objects, handle / 2);
        return Ok(v);
      }
      r := ReadInlineArray(handle);
    }

    /** The rest of `ReadAmf3Array` after an inline handle: the dictionary is
        created at the first key of the key stream, if there is one. */
    method ReadInlineArray(handle: int) returns (r: Result<Value>)
      requires 0 <= index <= |bin|
      modifies this
      ensures Agrees(r, Amf3Decoding.ReadInlineArray(Src(), old(St()), handle), St())
      decreases Remaining(Src(), St()), 4
    {
      ghost var spec := Amf3Decoding.ReadInlineArray(Src(), St(), handle);
      var length :- GetLength(Src(), St(), handle);
      var hashtable: Option<nat> := None;
      var key :- ReadAmf3UTF8();
      while key != []
        invariant old(index) <= index <= |bin|
        invariant hashtable.None? ==>
          spec == if key == [] then Amf3Decoding.ReadDenseArray(Src(), St(), length) else ReadAssociative(Src(), St(), key, length)
        invariant hashtable.Some? ==> hashtable.value < |objects| && objects[hashtable.value].Dictionary?
        invariant hashtable.Some? ==>
          spec == Amf3Decoding.FinishAssociative(Src(), ReadPairs(Src(), St(), hashtable.value, key), hashtable.value, length)
        decreases Remaining(Src(), St())
      {
        if hashtable.None? {
          hashtable := Some(|objects|);
          objects := objects + [Dictionary([])];
        }
        key :- ReadEntry(hashtable.value, key);
      }
      if hashtable.None? {
        r := ReadDenseArray(length);
        return;
      }
      r := FinishAssociative(hashtable.value, length);
    }

    /** The dense branch of `ReadAmf3Array`: an array of `length` nulls,
        interned, whose slots the elements then overwrite in order. */
    method ReadDenseArray(length: nat) returns (r: Result<Value>)
      requires 0 <= index <= |bin|
      modifies this
      ensures Agrees(r, Amf3Decoding.ReadDenseArray(Src(), old(St()), length), St())
      decreases Remaining(Src(), St()), 1
    {
      var dense := |objects|;
      objects := objects + [ObjectArray(seq(length, _ => Value.Null))];
      ghost var start := St();
      for i := 0 to length
        invariant start.index <= index <= |bin|
        invariant dense < |objects| && objects[dense].ObjectArray? && |objects[dense].items| == length
        invariant ReadDense(Src(), start, dense, 0, length) == ReadDense(Src(), St(), dense, i, length)
      {
        var value :- ReadAmf3Data();
        objects := objects[dense := ObjectArray(objects[dense].items[i := value])];
      }
      r := Ok(Ref(dense));
    }

    /** The associative branch of `ReadAmf3Array` after its key stream: each
        element is added to the dictionary at `at` under its decimal position. */
    method FinishAssociative(at: nat, length: nat) returns (r: Result<Value>)
      requires 0 <= index <= |bin|
      requires at < |objects| && objects[at].Dictionary?
      modifies this
      ensures Agrees(r, Amf3Decoding.FinishAssociative(Src(), Ok(old(St())), at, length), St())
      decreases Remaining(Src(), St()), 1
    {
      ghost var start := St();
      for i := 0 to length
        invariant start.index <= index <= |bin|
        invariant at < |objects| && objects[at].Dictionary?
        invariant ReadNumbered(Src(), start, at, 0, length) == ReadNumbered(Src(), St(), at, i, length)
      {
        var value :- ReadAmf3Data();
        :- AddEntry(at, Decimal(i), value);
      }
      r := Ok(Ref(at));
    }

    /** `ReadAmf3Object(readType)`. */
    method ReadAmf3Object(readType: bool) returns (r: Result<Value>)
      modifies this
      ensures Agrees(r, ReadObject(Src(), old(St()), readType), St())
      decreases Remaining(Src(), St()), 1
    {
      if readType {
        :- TryReadType(Amf3Type.Object);
      }
      var handle :- ReadAmf3Int();
      if handle % 2 == 0 {
        var v :- RefTo(objects, handle / 2);
        return Ok(v);
      }
      var classDefinition :- ReadClassDefinition(handle / 2);
      if classDefinition.isExternalizable {
        return Fail(Unsupported);
      }
      if classDefinition.isDynamic {
        r := ReadAmf3Dynamic();
        return;
      }
      r := ReadAmf3ObjectOf(classDefinition);
    }

    /** One turn of a `while (key != "")` loop: the value of `key` is read
        and added to the dictionary at `at`, then the next key. */
    method ReadEntry(at: nat, key: Str) returns (r: Result<Str>)
      requires 0 <= index <= |bin| && key != []
      requires at < |objects| && objects[at].Dictionary?
      modifies this
      ensures r.Ok? ==> old(index) < index <= |bin| && at < |objects| && objects[at].Dictionary?
      ensures r.Ok? ==> ReadPairs(Src(), old(St()), at, key) == ReadPairs(Src(), St(), at, r.value)
      ensures r.Fail? ==> ReadPairs(Src(), old(St()), at, key) == Fail(r.error)
      decreases Remaining(Src(), St()), 1
    {
      var value :- ReadAmf3Data();
      :- AddEntry(at, key, value);
      r := ReadAmf3UTF8();
    }

    /** `ReadAmf3Dynamic`. */
    method ReadAmf3Dynamic() returns (r: Result<Value>)
      requires 0 <= index <= |bin|
      modifies this
      ensures Agrees(r, ReadDynamic(Src(), old(St())), St())
      decreases Remaining(Src(), St()), 2
    {
      ghost var spec := ReadDynamic(Src(), St());
      var instance := |objects|;
      objects := objects + [Dictionary([])];
      var key :- ReadAmf3UTF8();
      while key != []
        invariant old(index) <= index <= |bin|
        invariant instance < |objects| && objects[instance].Dictionary?
        invariant spec == Built(ReadPairs(Src(), St(), instance, key), instance)
        decreases Remaining(Src(), St())
      {
        key :- ReadEntry(instance, key);
      }
      r := Ok(Ref(instance));
    }

    /** One turn of the member loop of `ReadAmf3Object(classDefinition)`:
        the value of member `i`, added to the dictionary at `at` under the
        member's name. */
    method ReadMember(at: nat, t: ClassDefinition, i: nat) returns (o: Outcome)
      requires 0 <= index <= |bin| && i < t.MemberCount()
      requires at < |objects| && objects[at].Dictionary?
      modifies this
      ensures o.Pass? ==> old(index) < index <= |bin| && at < |objects| && objects[at].Dictionary?
      ensures o.Pass? ==> ReadMembers(Src(), old(St()), at, t, i) == ReadMembers(Src(), St(), at, t, i + 1)
      ensures o.Raise? ==> ReadMembers(Src(), old(St()), at, t, i) == Fail(o.error)
      decreases Remaining(Src(), St()), 1
    {
      var value := ReadAmf3Data();
      if value.Fail? {
        return Raise(value.error);
      }
      o := AddEntry(at, t.MemberName(i), value.value);
    }

    /** `ReadAmf3Object(classDefinition)`. */
    method ReadAmf3ObjectOf(classDefinition: ClassDefinition) returns (r: Result<Value>)
      requires 0 <= index <= |bin|
      modifies this
      ensures Agrees(r, ReadSealed(Src(), old(St()), classDefinition), St())
      decreases Remaining(Src(), St()), 2
    {
      ghost var spec := ReadSealed(Src(), St(), classDefinition);
      var entries := if classDefinition.IsTypedObject() then [(TypeName, Text(classDefinition.className.value))] else [];
      var instance := |objects|;
      objects := objects + [Dictionary(entries)];
      for i := 0 to classDefinition.MemberCount()
        invariant old(index) <= index <= |bin|
        invariant instance < |objects| && objects[instance].Dictionary?
        invariant spec == Built(ReadMembers(Src(), St(), instance, classDefinition, i), instance)
      {
        :- ReadMember(instance, classDefinition, i);
      }
      if classDefinition.isDynamic {
        var key :- ReadAmf3UTF8();
        while key != []
          invariant old(index) <= index <= |bin|
          invariant instance < |objects| && objects[instance].Dictionary?
          invariant spec == Built(ReadPairs(Src(), St(), instance, key), instance)
          decreases Remaining(Src(), St())
        {
          key :- ReadEntry(instance, key);
        }
      }
      r := Ok(Ref(instance));
    }

    /** `ReadNextObject`. */
    method ReadNextObject() returns (r: Result<Value>)
      modifies this
      ensures Agrees(r, Amf3Decoding.ReadNextObject(Src(), old(St())), St())
    {
      objects := [];
      strings := [];
      traits := [];
      r := ReadAmf3Data();
    }
  }
}
