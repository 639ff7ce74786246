/** `Amf3Writer` (FastAmf3/Amf3Writer.cs): a growable byte buffer with a
    string table and an object table. Every write is proved against the
    functions of `Amf3Encoding`: on success the buffer holds the old contents
    followed by exactly the specified bytes, the tables are exactly the
    specified ones and the capacity is the one `Place` computes; the write
    fails exactly when `Place` does. After a failure (an exception in the
    source) only the class invariant is promised. */
module Encoder {
  import opened Wrappers
  import opened Amf3Type
  import U29
  import Utf8
  import Utf8Properties
  import BigEndian
  import DoubleBits
  import opened Amf3Encoding
  import opened Amf3EncodingProperties

  class Amf3Writer {
    /** `m_stringReferences`: string -> index. */
    var strings: map<Str, nat>
    /** `m_objectReferences`: object identity -> index. */
    var objects: map<Key, nat>
    /** `m_index`: the number of bytes written. */
    var index: nat
    /** `m_capacity`: the length of the current buffer. */
    var capacity: nat
    /** `m_expand`: whether the buffer may grow. */
    const expand: bool
    /** `m_bin`: the current buffer. */
    var bin: array<byte>
    /** The buffer the writer was created with; `Reset` goes back to it. */
    const fixBuffer: array<byte>

    ghost predicate Valid()
      reads this
    {
      && bin.Length == capacity
      && index <= capacity
    }

    function Tab(): Tables
      reads this
    {
      Tables(strings, objects)
    }

    /** The bytes written so far. */
    function Contents(): seq<byte>
      reads this, bin
      requires index <= bin.Length
    {
      bin[..index]
    }

    /** The outcome of a write of `e` begun with capacity `cap0`, cursor
        `used0` and contents `out0`: it succeeded exactly when the growth
        rules allow its chunks, and then the contents, tables and capacity
        are the specified ones. */
    ghost predicate Wrote(e: Emit, cap0: nat, used0: nat, out0: seq<byte>, ok: bool)
      reads this, bin
      requires Valid()
    {
      && (ok <==> Place(cap0, used0, e.chunks, expand).Ok?)
      && (ok ==> capacity == Place(cap0, used0, e.chunks, expand).value
                 && Contents() == out0 + Flatten(e.chunks) && Tab() == e.tables)
    }

    /** `Amf3Writer(size, expand)`. */
    constructor (size: nat, expand: bool)
      ensures Valid() && fresh(bin) && bin == fixBuffer
      ensures Contents() == [] && capacity == size && Tab() == NoTables && this.expand == expand
    {
      var b := new byte[size];
      fixBuffer := b;
      bin := b;
      capacity := size;
      this.expand := expand;
      index := 0;
      strings := map[];
      objects := map[];
    }

    /** `Expand(newSize)`: fails when growth is disabled; doubles the capacity
        once when `newSize` exceeds it, failing with the capacity restored when
        the double would pass the ceiling; keeps the written bytes. */
    method Expand(newSize: int) returns (ok: bool)
      requires Valid()
      modifies this
      ensures Valid() && (bin == old(bin) || fresh(bin))
      ensures ok <==> expand && (newSize <= old(capacity) || old(capacity) * 2 <= MaxCapacity)
      ensures capacity == if ok && newSize > old(capacity) then old(capacity) * 2 else old(capacity)
      ensures index == old(index) && Contents() == old(Contents()) && Tab() == old(Tab())
    {
      if !expand {
        return false;
      }
      if newSize > capacity {
        if capacity * 2 > MaxCapacity {
          return false;
        }
        var grown := new byte[capacity * 2];
        forall k | 0 <= k < index {
          grown[k] := bin[k];
        }
        bin := grown;
        capacity := capacity * 2;
      }
      return true;
    }

    /** `Reset`: back to the original buffer, empty, with empty tables. */
    method Reset()
      requires Valid()
      modifies this
      ensures Valid() && bin == fixBuffer && capacity == fixBuffer.Length
      ensures Contents() == [] && Tab() == NoTables
    {
      index := 0;
      if bin != fixBuffer {
        bin := fixBuffer;
        capacity := fixBuffer.Length;
      }
      strings := map[];
      objects := map[];
    }

    /** `TrySkip(length)`: moves the cursor when the new position is within
        the capacity; the skipped bytes are whatever the buffer holds. */
    method TrySkip(length: int) returns (ok: bool)
      requires Valid() && 0 <= index + length
      modifies this
      ensures Valid() && bin == old(bin) && capacity == old(capacity) && Tab() == old(Tab())
      ensures ok <==> old(index) + length <= capacity
      ensures index == if ok then old(index) + length else old(index)
    {
      var next := index + length;
      if next <= capacity {
        index := next;
        return true;
      }
      return false;
    }

    /** The capacity check each write begins with: `Expand(capacity + n)`
        when `n` bytes do not fit, then a failure when they still do not
        (the element writes or the block copy that follow run past the end). */
    method Reserve(n: nat) returns (ok: bool)
      requires Valid()
      modifies this
      ensures Valid() && (bin == old(bin) || fresh(bin))
      ensures ok <==> Room(old(capacity), old(index), n, expand).Ok?
      ensures ok ==> capacity == Room(old(capacity), old(index), n, expand).value && index + n <= capacity
      ensures index == old(index) && Contents() == old(Contents()) && Tab() == old(Tab())
    {
      if index + n > capacity {
        ok := Expand(capacity + n);
        if !ok {
          return;
        }
        if index + n > capacity {
          return false;
        }
      }
      ok := true;
    }

    /** `WriteByte`. */
    method WriteByte(value: byte) returns (ok: bool)
      requires Valid()
      modifies this, bin
      ensures Valid() && (bin == old(bin) || fresh(bin))
      ensures Wrote(Emit([[value]], old(Tab())), old(capacity), old(index), old(Contents()), ok)
    {
      PlaceOne(capacity, index, [value], expand);
      ok := Reserve(1);
      if !ok {
        return;
      }
      bin[index] := value;
      index := index + 1;
    }

    /** `WriteBytes(bytes, offset, length)`: grows the buffer as a `length`
        byte write would, then copies `bytes[offset .. offset + length]`; a
        null array copies nothing. The copy fails on a negative offset or
        length, a range outside `bytes`, or a buffer still too small. */
    method WriteBytes(bytes: Option<seq<byte>>, offset: int, length: int) returns (ok: bool)
      requires Valid()
      modifies this, bin
      ensures Valid() && (bin == old(bin) || fresh(bin)) && Tab() == old(Tab())
      ensures var grow := old(index) + length > old(capacity);
        && (ok <==>
             && (grow ==> expand && old(capacity) * 2 <= MaxCapacity)
             && (bytes.Some? ==> 0 <= offset && 0 <= length && offset + length <= |bytes.value|
                                 && old(index) + length <= (if grow then old(capacity) * 2 else old(capacity))))
        && (ok ==> capacity == (if grow then old(capacity) * 2 else old(capacity)))
      ensures ok && bytes.Some? ==> Contents() == old(Contents()) + bytes.value[offset..offset + length]
      ensures ok && bytes.None? ==> Contents() == old(Contents())
    {
      if index + length > capacity {
        ok := Expand(capacity + length);
        if !ok {
          return;
        }
      }
      if bytes.Some? {
        if offset < 0 || length < 0 || offset + length > |bytes.value| || index + length > bin.Length {
          return false;
        }
        forall k | 0 <= k < length {
          bin[index + k] := bytes.value[offset + k];
        }
        index := index + length;
      }
      ok := true;
    }

    /** `WriteBoolean`. */
    method WriteBoolean(value: bool) returns (ok: bool)
      requires Valid()
      modifies this, bin
      ensures Valid() && (bin == old(bin) || fresh(bin))
      ensures Wrote(EncValue(Bool(value), old(Tab())), old(capacity), old(index), old(Contents()), ok)
    {
      ok := WriteByte(if value then BooleanTrue else BooleanFalse);
    }

    /** `WriteNull`. */
    method WriteNull() returns (ok: bool)
      requires Valid()
      modifies this, bin
      ensures Valid() && (bin == old(bin) || fresh(bin))
      ensures Wrote(EncValue(Input.Null, old(Tab())), old(capacity), old(index), old(Contents()), ok)
    {
      ok := WriteByte(Amf3Type.Null);
    }

    /** `WriteUndefined`. */
    method WriteUndefined() returns (ok: bool)
      requires Valid()
      modifies this, bin
      ensures Valid() && (bin == old(bin) || fresh(bin))
      ensures Wrote(Emit([[Undefined]], old(Tab())), old(capacity), old(index), old(Contents()), ok)
    {
      ok := WriteByte(Undefined);
    }

    /** `WriteEmptyString`: the same write as `WriteUTFBytes("")`. */
    method WriteEmptyString() returns (ok: bool)
      requires Valid()
      modifies this, bin
      ensures Valid() && (bin == old(bin) || fresh(bin))
      ensures Wrote(StringChunks([], old(Tab())), old(capacity), old(index), old(Contents()), ok)
    {
      ok := WriteByte(0x01);
    }

    /** The shape of every fixed-size write: the capacity check for the
        whole chunk, then its bytes at the cursor, one by one. */
    method Append(chunk: seq<byte>) returns (ok: bool)
      requires Valid()
      modifies this, bin
      ensures Valid() && (bin == old(bin) || fresh(bin))
      ensures Wrote(Emit([chunk], old(Tab())), old(capacity), old(index), old(Contents()), ok)
    {
      ghost var out0 := Contents();
      PlaceOne(capacity, index, chunk, expand);
      ok := Reserve(|chunk|);
      if !ok {
        return;
      }
      ghost var start, cap, buffer, tables := index, capacity, bin, Tab();
      var k := 0;
      while k < |chunk|
        invariant 0 <= k <= |chunk| && index == start + k
        invariant bin == buffer && capacity == cap && Tab() == tables
        invariant Valid() && start + |chunk| <= capacity
        invariant Contents() == out0 + chunk[..k]
      {
        ghost var before := bin[..];
        bin[index] := chunk[k];
        PutLast(before, bin[..], index, out0 + chunk[..k], chunk[k]);
        assert chunk[..k + 1] == chunk[..k] + [chunk[k]];
        index := index + 1;
        k := k + 1;
      }
      assert chunk[..k] == chunk;
    }

    /** The block copy of `bytes` at the cursor, after its capacity check. */
    method CopyIn(bytes: seq<byte>)
      requires Valid() && index + |bytes| <= capacity
      modifies this, bin
      ensures Valid() && bin == old(bin) && capacity == old(capacity) && Tab() == old(Tab())
      ensures Contents() == old(Contents()) + bytes
    {
      forall k | 0 <= k < |bytes| {
        bin[index + k] := bytes[k];
      }
      index := index + |bytes|;
    }

    /** `GetBytes` into the buffer at the cursor, then the cursor moved past
        the bytes, after their capacity check. */
    method EncodeIn(s: Str)
      requires Valid() && index + |Utf8.Encode(s)| <= capacity
      modifies this, bin
      ensures Valid() && bin == old(bin) && capacity == old(capacity) && Tab() == old(Tab())
      ensures Contents() == old(Contents()) + Utf8.Encode(s)
    {
      GetBytes(s, bin, index);
      index := index + |Utf8.Encode(s)|;
    }

    /** `WriteU29`: the value masked to 29 bits, in 1 to 4 bytes. */
    method WriteU29(value: int) returns (ok: bool)
      requires Valid()
      modifies this, bin
      ensures Valid() && (bin == old(bin) || fresh(bin))
      ensures Wrote(Emit([U29.Encode(value)], old(Tab())), old(capacity), old(index), old(Contents()), ok)
    {
      var v := U29.Masked(value);
      if v < 0x80 {
        ok := Append([v]);
      } else if v < 0x4000 {
        ok := Append([0x80 + v / 0x80 % 0x80, v % 0x80]);
      } else if v < 0x20_0000 {
        ok := Append([0x80 + v / 0x4000 % 0x80, 0x80 + v / 0x80 % 0x80, v % 0x80]);
      } else {
        ok := Append([0x80 + v / 0x40_0000 % 0x80, 0x80 + v / 0x8000 % 0x80, 0x80 + v / 0x100 % 0x80, v % 0x100]);
      }
    }

    /** `WriteBigEndian(double)`: the 64-bit pattern, most significant byte first. */
    method WriteBigEndian(w: Word64) returns (ok: bool)
      requires Valid()
      modifies this, bin
      ensures Valid() && (bin == old(bin) || fresh(bin))
      ensures Wrote(Emit([BigEndian.Bytes8(w)], old(Tab())), old(capacity), old(index), old(Contents()), ok)
    {
      ghost var out0 := Contents();
      PlaceOne(capacity, index, BigEndian.Bytes8(w), expand);
      ok := Reserve(8);
      if !ok {
        return;
      }
      ghost var start, cap, buffer, tables := index, capacity, bin, Tab();
      var i := 7;
      while i >= 0
        invariant -1 <= i <= 7 && index == start + 7 - i
        invariant bin == buffer && capacity == cap && Tab() == tables
        invariant Valid() && start + 8 <= capacity
        invariant Contents() == out0 + BigEndian.Bytes8(w)[..7 - i]
      {
        bin[index] := BigEndian.ByteOf(w, i);
        index := index + 1;
        i := i - 1;
      }
      assert BigEndian.Bytes8(w)[..8] == BigEndian.Bytes8(w);
    }

    /** `WriteBigEndian(float)`: the 32-bit pattern, most significant byte first. */
    method WriteBigEndianSingle(w: Word32) returns (ok: bool)
      requires Valid()
      modifies this, bin
      ensures Valid() && (bin == old(bin) || fresh(bin))
      ensures Wrote(Emit([BigEndian.Bytes4(w)], old(Tab())), old(capacity), old(index), old(Contents()), ok)
    {
      ghost var out0 := Contents();
      PlaceOne(capacity, index, BigEndian.Bytes4(w), expand);
      ok := Reserve(4);
      if !ok {
        return;
      }
      ghost var start, cap, buffer, tables := index, capacity, bin, Tab();
      var i := 3;
      while i >= 0
        invariant -1 <= i <= 3 && index == start + 3 - i
        invariant bin == buffer && capacity == cap && Tab() == tables
        invariant Valid() && start + 4 <= capacity
        invariant Contents() == out0 + BigEndian.Bytes4(w)[..3 - i]
      {
        bin[index] := BigEndian.ByteOf(w, i);
        index := index + 1;
        i := i - 1;
      }
      assert BigEndian.Bytes4(w)[..4] == BigEndian.Bytes4(w);
    }
    /** The state after a successful run of `done` chunks begun with
        capacity `cap0`, cursor `used0` and contents `out0`. */
    ghost predicate At(cap0: nat, used0: nat, out0: seq<byte>, done: seq<seq<byte>>)
      reads this, bin
      requires Valid()
    {
      |out0| == used0 && Place(cap0, used0, done, expand) == Ok(capacity) && Contents() == out0 + Flatten(done)
    }

    /** `WriteDouble`: tag 5 and the 8-byte pattern. */
    method WriteDouble(w: Word64) returns (ok: bool)
      requires Valid()
      modifies this, bin
      ensures Valid() && (bin == old(bin) || fresh(bin))
      ensures Wrote(EncValue(Input.Number(w), old(Tab())), old(capacity), old(index), old(Contents()), ok)
    {
      ghost var cap0, used0, out0 := capacity, index, Contents();
      ok := WriteByte(Amf3Type.Number);
      if !ok {
        Stop(cap0, used0, [[Amf3Type.Number]], [BigEndian.Bytes8(w)], expand);
        return;
      }
      ghost var cap1, out1 := capacity, Contents();
      ok := WriteBigEndian(w);
      Then(cap0, used0, out0, [[Amf3Type.Number]], cap1, out1, [BigEndian.Bytes8(w)], ok, capacity, Contents(), expand);
    }

    /** `WriteFloat`: tag 5 followed by only the 4-byte single pattern. */
    method WriteFloat(w: Word32) returns (ok: bool)
      requires Valid()
      modifies this, bin
      ensures Valid() && (bin == old(bin) || fresh(bin))
      ensures Wrote(Emit([[Amf3Type.Number]] + [BigEndian.Bytes4(w)], old(Tab())), old(capacity), old(index), old(Contents()), ok)
    {
      ghost var cap0, used0, out0 := capacity, index, Contents();
      ok := WriteByte(Amf3Type.Number);
      if !ok {
        Stop(cap0, used0, [[Amf3Type.Number]], [BigEndian.Bytes4(w)], expand);
        return;
      }
      ghost var cap1, out1 := capacity, Contents();
      ok := WriteBigEndianSingle(w);
      Then(cap0, used0, out0, [[Amf3Type.Number]], cap1, out1, [BigEndian.Bytes4(w)], ok, capacity, Contents(), expand);
    }

    /** `WriteInt`: an AMF3 integer inside the signed 29-bit range, a double outside it. */
    method WriteInt(n: Int32) returns (ok: bool)
      requires Valid()
      modifies this, bin
      ensures Valid() && (bin == old(bin) || fresh(bin))
      ensures Wrote(Emit(IntChunks(n), old(Tab())), old(capacity), old(index), old(Contents()), ok)
    {
      ghost var cap0, used0, out0 := capacity, index, Contents();
      if n >= -268435456 && n <= 268435455 {
        ok := WriteByte(Integer);
        if !ok {
          Stop(cap0, used0, [[Integer]], [U29.Encode(n)], expand);
          return;
        }
        ghost var cap1, out1 := capacity, Contents();
        ok := WriteU29(n);
        Then(cap0, used0, out0, [[Integer]], cap1, out1, [U29.Encode(n)], ok, capacity, Contents(), expand);
      } else {
        ok := WriteDouble(DoubleBits.OfInt32(n));
      }
    }

    /** `WriteLength`: the inline handle `(len << 1) | 1`. */
    method WriteLength(len: nat) returns (ok: bool)
      requires Valid()
      modifies this, bin
      ensures Valid() && (bin == old(bin) || fresh(bin))
      ensures Wrote(Emit([LengthBytes(len)], old(Tab())), old(capacity), old(index), old(Contents()), ok)
    {
      ok := WriteU29(len * 2 + 1);
    }

    /** `WriteUtf8String`: the byte-length handle, then the UTF-8 bytes in one
        capacity check. */
    method WriteUtf8String(s: Str) returns (ok: bool)
      requires Valid()
      modifies this, bin
      ensures Valid() && (bin == old(bin) || fresh(bin))
      ensures Wrote(Emit([LengthBytes(Utf8.ByteCount(s))] + [Utf8.Encode(s)], old(Tab())), old(capacity), old(index), old(Contents()), ok)
    {
      ghost var cap0, used0, out0 := capacity, index, Contents();
      var len := GetByteCount(s);
      ok := WriteLength(len);
      if !ok {
        Stop(cap0, used0, [LengthBytes(len)], [Utf8.Encode(s)], expand);
        return;
      }
      ghost var cap1, out1 := capacity, Contents();
      PlaceOne(capacity, index, Utf8.Encode(s), expand);
      ok := Reserve(len);
      if ok {
        EncodeIn(s);
      }
      Then(cap0, used0, out0, [LengthBytes(len)], cap1, out1, [Utf8.Encode(s)], ok, capacity, Contents(), expand);
    }

    /** `WriteUTFBytes`: "" as 0x01, a known string as its index, a new one
        interned at the next index and written inline. */
    method WriteUTFBytes(value: Str) returns (ok: bool)
      requires Valid()
      modifies this, bin
      ensures Valid() && (bin == old(bin) || fresh(bin))
      ensures Wrote(StringChunks(value, old(Tab())), old(capacity), old(index), old(Contents()), ok)
    {
      if value == [] {
        ok := WriteByte(0x01);
        return;
      }
      if value in strings {
        ok := WriteU29(strings[value] * 2);
        return;
      }
      strings := strings[value := |strings|];
      ok := WriteUtf8String(value);
    }

    /** `WriteKey`: a key is written as `WriteUTFBytes` writes it. */
    method WriteKey(key: Str) returns (ok: bool)
      requires Valid()
      modifies this, bin
      ensures Valid() && (bin == old(bin) || fresh(bin))
      ensures Wrote(StringChunks(key, old(Tab())), old(capacity), old(index), old(Contents()), ok)
    {
      ok := WriteUTFBytes(key);
    }

    /** `WriteUTF`: null as the null marker, a string as tag 6 and `WriteUTFBytes`. */
    method WriteUTF(value: Option<Str>) returns (ok: bool)
      requires Valid()
      modifies this, bin
      ensures Valid() && (bin == old(bin) || fresh(bin))
      ensures Wrote(EncValue(if value.None? then Input.Null else Text(value.value), old(Tab())),
                    old(capacity), old(index), old(Contents()), ok)
    {
      if value.None? {
        ok := WriteNull();
        return;
      }
      ghost var cap0, used0, out0 := capacity, index, Contents();
      ghost var rest := StringChunks(value.value, Tab()).chunks;
      ok := WriteByte(String);
      if !ok {
        Stop(cap0, used0, [[String]], rest, expand);
        return;
      }
      ghost var cap1, out1 := capacity, Contents();
      ok := WriteUTFBytes(value.value);
      Then(cap0, used0, out0, [[String]], cap1, out1, rest, ok, capacity, Contents(), expand);
    }

    /** `WriteReference`: null changes nothing; a known identity is written as
        its index shifted left (`found`); a new one is added at the next index
        and nothing is written. */
    method WriteReference(key: Option<Key>) returns (found: bool, ok: bool)
      requires Valid()
      modifies this, bin
      ensures Valid() && (bin == old(bin) || fresh(bin))
      ensures var (f, e) := if key.None? then (false, Emit([], old(Tab()))) else Reference(key.value, old(Tab()));
        Wrote(e, old(capacity), old(index), old(Contents()), ok) && (ok ==> found == f)
    {
      if key.None? {
        return false, true;
      }
      var k := key.value;
      if k in objects {
        ok := WriteU29(objects[k] * 2);
        return true, ok;
      }
      objects := objects[k := |objects|];
      return false, true;
    }

    /** A type marker followed by `WriteReference`: the write ends after a
        reference (`found`); a new identity is added to the table and nothing
        more is written yet. */
    method TagReference(tag: byte, key: Key) returns (found: bool, ok: bool)
      requires Valid()
      modifies this, bin
      ensures Valid() && (bin == old(bin) || fresh(bin))
      ensures var (f, r) := Reference(key, old(Tab()));
        Wrote(Tagged(tag, r), old(capacity), old(index), old(Contents()), ok) && (ok ==> found == f)
    {
      ghost var cap0, used0, out0, t0 := capacity, index, Contents(), Tab();
      ghost var r := Reference(key, t0).1;
      ok := WriteByte(tag);
      if !ok {
        Stop(cap0, used0, [[tag]], r.chunks, expand);
        return false, false;
      }
      ghost var cap1, out1 := capacity, Contents();
      found, ok := WriteReference(Some(key));
      Then(cap0, used0, out0, [[tag]], cap1, out1, r.chunks, ok, capacity, Contents(), expand);
    }

    /** `WriteDateTime`: tag 8, then a reference or 0x01 and the milliseconds. */
    method WriteDateTime(key: Key, millis: Word64) returns (ok: bool)
      requires Valid()
      modifies this, bin
      ensures Valid() && (bin == old(bin) || fresh(bin))
      ensures Wrote(EncDate(key, millis, old(Tab())), old(capacity), old(index), old(Contents()), ok)
    {
      ghost var cap0, used0, out0, t0 := capacity, index, Contents(), Tab();
      ghost var tag := [[DateTime]];
      var found;
      found, ok := TagReference(DateTime, key);
      if !ok || found {
        if !ok && key !in t0.objects {
          assert tag + [] == tag;
          Stop(cap0, used0, tag, [[0x01]], expand);
          Stop(cap0, used0, tag + [[0x01]], [BigEndian.Bytes8(millis)], expand);
        }
        return;
      }
      ghost var cap1, out1 := capacity, Contents();
      assert tag + [] == tag;
      ok := WriteByte(0x01);
      Then(cap0, used0, out0, tag, cap1, out1, [[0x01]], ok, capacity, Contents(), expand);
      if !ok {
        Stop(cap0, used0, tag + [[0x01]], [BigEndian.Bytes8(millis)], expand);
        return;
      }
      ghost var cap2, out2 := capacity, Contents();
      ok := WriteBigEndian(millis);
      Then(cap0, used0, out0, tag + [[0x01]], cap2, out2, [BigEndian.Bytes8(millis)], ok, capacity, Contents(), expand);
    }

    /** `WriteAmf3ByteArray`: tag 12, then a reference or the length handle
        and the bytes in one block copy. */
    method WriteAmf3ByteArray(key: Key, data: seq<byte>) returns (ok: bool)
      requires Valid()
      modifies this, bin
      ensures Valid() && (bin == old(bin) || fresh(bin))
      ensures Wrote(EncByteArray(key, data, old(Tab())), old(capacity), old(index), old(Contents()), ok)
    {
      ghost var cap0, used0, out0, t0 := capacity, index, Contents(), Tab();
      ghost var tag := [[ByteArray]];
      var found;
      found, ok := TagReference(ByteArray, key);
      if !ok || found {
        if !ok && key !in t0.objects {
          assert tag + [] == tag;
          Stop(cap0, used0, tag, [LengthBytes(|data|)], expand);
          Stop(cap0, used0, tag + [LengthBytes(|data|)], [data], expand);
        }
        return;
      }
      ghost var cap1, out1 := capacity, Contents();
      assert tag + [] == tag;
      var len := |data|;
      ok := WriteLength(len);
      Then(cap0, used0, out0, tag, cap1, out1, [LengthBytes(len)], ok, capacity, Contents(), expand);
      if !ok {
        Stop(cap0, used0, tag + [LengthBytes(len)], [data], expand);
        return;
      }
      ghost var cap2, out2 := capacity, Contents();
      ok := WriteBlock(data);
      Then(cap0, used0, out0, tag + [LengthBytes(len)], cap2, out2, [data], ok, capacity, Contents(), expand);
    }

    /** The payload of a byte array: the capacity check for all of it, then
        one block copy. */
    method WriteBlock(data: seq<byte>) returns (ok: bool)
      requires Valid()
      modifies this, bin
      ensures Valid() && (bin == old(bin) || fresh(bin))
      ensures Wrote(Emit([data], old(Tab())), old(capacity), old(index), old(Contents()), ok)
    {
      PlaceOne(capacity, index, data, expand);
      ok := Reserve(|data|);
      if ok {
        CopyIn(data);
      }
    }

    /** `WriteValue`: the branch of the first runtime type test the value
        passes. An externalizable object writes its own values. */
    method WriteValue(v: Input) returns (ok: bool)
      requires Valid()
      modifies this, bin
      ensures Valid() && (bin == old(bin) || fresh(bin))
      ensures Wrote(EncValue(v, old(Tab())), old(capacity), old(index), old(Contents()), ok)
      decreases v, 5
    {
      match v
      case Null => ok := WriteNull();
      case Text(s) => ok := WriteUTF(Some(s));
      case Int(n) => ok := WriteInt(n);
      case Number(w) => ok := WriteDouble(w);
      case Bool(b) => ok := WriteBoolean(b);
      case Date(key, millis) => ok := WriteDateTime(key, millis);
      case External(items) => ok := WriteItems(v);
      case Dict(key, entries) => ok := WriteIDictionary(v);
      case Bytes(key, data) => ok := WriteAmf3ByteArray(key, data);
      case IntDict(key, ints) => ok := WriteIntDictionary(v);
      case List(key, items) => ok := WriteAmf3Array(v);
      case Sequence(key, items) => ok := WriteAmf3Enumerable(v);
      case Record(key, entries) => ok := WriteClass(v);
    }

    /** `WriteObject`: empties the string table, keeps the object table, and
        writes the value. */
    method WriteObject(v: Input) returns (ok: bool)
      requires Valid()
      modifies this, bin
      ensures Valid() && (bin == old(bin) || fresh(bin))
      ensures Wrote(EncTopLevel(v, old(Tab())), old(capacity), old(index), old(Contents()), ok)
    {
      strings := map[];
      ok := WriteValue(v);
    }

    /** The loop over the elements of a list, an enumerable or an
        externalizable object's values, each by `WriteValue`. */
    method WriteItems(v: Input) returns (ok: bool)
      requires Valid() && HasItems(v)
      modifies this, bin
      ensures Valid() && (bin == old(bin) || fresh(bin))
      ensures Wrote(EncItems(v, 0, old(Tab())), old(capacity), old(index), old(Contents()), ok)
      decreases v, 1
    {
      ghost var cap0, used0, out0 := capacity, index, Contents();
      ghost var whole := EncItems(v, 0, Tab());
      ghost var done: seq<seq<byte>> := [];
      var i := 0;
      while i < |v.items|
        invariant Valid() && (bin == old(bin) || fresh(bin))
        invariant ItemsLoop(v, i, cap0, used0, out0, whole, done)
      {
        ok, done := ItemsStep(v, i, cap0, used0, out0, whole, done);
        if !ok {
          return;
        }
        i := i + 1;
      }
      ok := true;
      ItemsEnd(v, i, cap0, used0, out0, whole, done);
    }

    /** The state of `WriteItems` before its `i`-th item: the ones before it
        are written (`done`), and with what is left they make up `whole`. */
    ghost predicate ItemsLoop(v: Input, i: nat, cap0: nat, used0: nat, out0: seq<byte>,
                             whole: Emit, done: seq<seq<byte>>)
      reads this, bin
      requires Valid()
    {
      && HasItems(v) && i <= |v.items|
      && At(cap0, used0, out0, done)
      && whole.chunks == done + EncItems(v, i, Tab()).chunks
      && whole.tables == EncItems(v, i, Tab()).tables
    }

    /** After the last item, `whole` is written. */
    lemma ItemsEnd(v: Input, i: nat, cap0: nat, used0: nat, out0: seq<byte>,
                  whole: Emit, done: seq<seq<byte>>)
      requires Valid() && ItemsLoop(v, i, cap0, used0, out0, whole, done) && i == |v.items|
      ensures Wrote(whole, cap0, used0, out0, true)
    {
      assert done + [] == done;
    }

    /** One turn of the loop of `WriteItems`: the `i`-th item, written after
        the ones before it. */
    method ItemsStep(v: Input, i: nat, ghost cap0: nat, ghost used0: nat, ghost out0: seq<byte>,
                    ghost whole: Emit, ghost done: seq<seq<byte>>) returns (ok: bool, ghost done': seq<seq<byte>>)
      requires Valid() && ItemsLoop(v, i, cap0, used0, out0, whole, done) && i < |v.items|
      modifies this, bin
      ensures Valid() && (bin == old(bin) || fresh(bin))
      ensures !ok ==> Place(cap0, used0, whole.chunks, expand).Fail?
      ensures ok ==> ItemsLoop(v, i + 1, cap0, used0, out0, whole, done')
      decreases v, 0
    {
      ghost var capA, outA, tA := capacity, Contents(), Tab();
      ghost var item := EncValue(v.items[i], tA);
      ghost var rest := EncItems(v, i + 1, item.tables);
      assert EncItems(v, i, tA).chunks == item.chunks + rest.chunks;
      ok := WriteValue(v.items[i]);
      Advance(cap0, used0, out0, done, capA, outA, item.chunks, rest.chunks, ok, capacity, Contents(), expand);
      done' := done + item.chunks;
    }
    /** One pair of a dictionary or a reflected object: the key by
        `WriteUTFBytes`, then the value by `WriteValue`. */
    method WriteEntry(entry: (Str, Input)) returns (ok: bool)
      requires Valid()
      modifies this, bin
      ensures Valid() && (bin == old(bin) || fresh(bin))
      ensures Wrote(EncEntry(entry, old(Tab())), old(capacity), old(index), old(Contents()), ok)
      decreases entry.1, 6
    {
      var (key, value) := entry;
      ghost var cap0, used0, out0, t0 := capacity, index, Contents(), Tab();
      ghost var k := StringChunks(key, t0);
      ok := WriteKey(key);
      if !ok {
        Stop(cap0, used0, k.chunks, EncValue(value, k.tables).chunks, expand);
        return;
      }
      ghost var cap1, out1 := capacity, Contents();
      ok := WriteValue(value);
      Then(cap0, used0, out0, k.chunks, cap1, out1, EncValue(value, k.tables).chunks, ok, capacity, Contents(), expand);
    }

    /** The `foreach` over the key/value pairs of a dictionary or a reflected
        object. */
    method WriteEntries(v: Input) returns (ok: bool)
      requires Valid() && HasEntries(v)
      modifies this, bin
      ensures Valid() && (bin == old(bin) || fresh(bin))
      ensures Wrote(EncEntries(v, 0, old(Tab())), old(capacity), old(index), old(Contents()), ok)
      decreases v, 1
    {
      ghost var cap0, used0, out0 := capacity, index, Contents();
      ghost var whole := EncEntries(v, 0, Tab());
      ghost var done: seq<seq<byte>> := [];
      var i := 0;
      while i < |v.entries|
        invariant Valid() && (bin == old(bin) || fresh(bin))
        invariant EntriesLoop(v, i, cap0, used0, out0, whole, done)
      {
        ok, done := EntriesStep(v, i, cap0, used0, out0, whole, done);
        if !ok {
          return;
        }
        i := i + 1;
      }
      ok := true;
      EntriesEnd(v, i, cap0, used0, out0, whole, done);
    }

    /** The state of `WriteEntries` before its `i`-th pair: the ones before it
        are written (`done`), and with what is left they make up `whole`. */
    ghost predicate EntriesLoop(v: Input, i: nat, cap0: nat, used0: nat, out0: seq<byte>,
                             whole: Emit, done: seq<seq<byte>>)
      reads this, bin
      requires Valid()
    {
      && HasEntries(v) && i <= |v.entries|
      && At(cap0, used0, out0, done)
      && whole.chunks == done + EncEntries(v, i, Tab()).chunks
      && whole.tables == EncEntries(v, i, Tab()).tables
    }

    /** After the last pair, `whole` is written. */
    lemma EntriesEnd(v: Input, i: nat, cap0: nat, used0: nat, out0: seq<byte>,
                  whole: Emit, done: seq<seq<byte>>)
      requires Valid() && EntriesLoop(v, i, cap0, used0, out0, whole, done) && i == |v.entries|
      ensures Wrote(whole, cap0, used0, out0, true)
    {
      assert done + [] == done;
    }

    /** One turn of the loop of `WriteEntries`: the `i`-th pair, written after
        the ones before it. */
    method EntriesStep(v: Input, i: nat, ghost cap0: nat, ghost used0: nat, ghost out0: seq<byte>,
                    ghost whole: Emit, ghost done: seq<seq<byte>>) returns (ok: bool, ghost done': seq<seq<byte>>)
      requires Valid() && EntriesLoop(v, i, cap0, used0, out0, whole, done) && i < |v.entries|
      modifies this, bin
      ensures Valid() && (bin == old(bin) || fresh(bin))
      ensures !ok ==> Place(cap0, used0, whole.chunks, expand).Fail?
      ensures ok ==> EntriesLoop(v, i + 1, cap0, used0, out0, whole, done')
      decreases v, 0
    {
      ghost var capA, outA, tA := capacity, Contents(), Tab();
      ghost var pair := EncEntry(v.entries[i], tA);
      ghost var rest := EncEntries(v, i + 1, pair.tables);
      assert EncEntries(v, i, tA).chunks == pair.chunks + rest.chunks;
      ok := WriteEntry(v.entries[i]);
      Advance(cap0, used0, out0, done, capA, outA, pair.chunks, rest.chunks, ok, capacity, Contents(), expand);
      done' := done + pair.chunks;
    }
    /** The anonymous dynamic trait of an object: tag 10, then a reference
        (the write ends, `found`) or the trait bytes 0x0b 0x01. */
    method ObjectHeader(key: Key) returns (found: bool, ok: bool)
      requires Valid()
      modifies this, bin
      ensures Valid() && (bin == old(bin) || fresh(bin))
      ensures var (f, r) := Reference(key, old(Tab()));
        var e := if f then Tagged(Object, r) else Emit([[Object]] + [[0x0b]] + [[0x01]], r.tables);
        Wrote(e, old(capacity), old(index), old(Contents()), ok) && (ok ==> found == f)
    {
      ghost var cap0, used0, out0, t0 := capacity, index, Contents(), Tab();
      ghost var tag := [[Object]];
      found, ok := TagReference(Object, key);
      if !ok || found {
        if !ok && key !in t0.objects {
          assert tag + [] == tag;
          Stop(cap0, used0, tag, [[0x0b]], expand);
          Stop(cap0, used0, tag + [[0x0b]], [[0x01]], expand);
        }
        return;
      }
      ghost var cap1, out1 := capacity, Contents();
      assert tag + [] == tag;
      ok := WriteByte(0x0b);
      Then(cap0, used0, out0, tag, cap1, out1, [[0x0b]], ok, capacity, Contents(), expand);
      if !ok {
        Stop(cap0, used0, tag + [[0x0b]], [[0x01]], expand);
        return;
      }
      ghost var cap2, out2 := capacity, Contents();
      ok := WriteByte(0x01);
      Then(cap0, used0, out0, tag + [[0x0b]], cap2, out2, [[0x01]], ok, capacity, Contents(), expand);
    }

    /** The rest of a dynamic object after its trait: the pairs, then the
        empty key 0x01 that closes them. */
    method ObjectBody(v: Input) returns (ok: bool)
      requires Valid() && HasEntries(v)
      modifies this, bin
      ensures Valid() && (bin == old(bin) || fresh(bin))
      ensures var body := EncEntries(v, 0, old(Tab()));
        Wrote(Emit(body.chunks + [[0x01]], body.tables), old(capacity), old(index), old(Contents()), ok)
      decreases v, 2
    {
      ghost var cap0, used0, out0, t0 := capacity, index, Contents(), Tab();
      ghost var body := EncEntries(v, 0, t0).chunks;
      ok := WriteEntries(v);
      if !ok {
        Stop(cap0, used0, body, [[0x01]], expand);
        return;
      }
      ghost var cap1, out1 := capacity, Contents();
      ok := WriteByte(0x01);
      Then(cap0, used0, out0, body, cap1, out1, [[0x01]], ok, capacity, Contents(), expand);
    }

    /** Tag 10, a reference or the anonymous dynamic trait, the pairs and the
        closing empty key. */
    method WriteDynamic(v: Input) returns (ok: bool)
      requires Valid() && HasEntries(v)
      modifies this, bin
      ensures Valid() && (bin == old(bin) || fresh(bin))
      ensures Wrote(EncObject(v, old(Tab())), old(capacity), old(index), old(Contents()), ok)
      decreases v, 3
    {
      ghost var cap0, used0, out0, t0 := capacity, index, Contents(), Tab();
      ghost var head := [[Object]] + [[0x0b]] + [[0x01]];
      var found;
      found, ok := ObjectHeader(v.key);
      if !ok || found {
        if !ok && v.key !in t0.objects {
          ghost var t1 := Reference(v.key, t0).1.tables;
          Stop(cap0, used0, head, EncEntries(v, 0, t1).chunks + [[0x01]], expand);
        }
        return;
      }
      ghost var cap1, out1 := capacity, Contents();
      ghost var body := EncEntries(v, 0, Tab()).chunks;
      ok := ObjectBody(v);
      Then(cap0, used0, out0, head, cap1, out1, body + [[0x01]], ok, capacity, Contents(), expand);
    }

    /** `WriteClass`: an object of no other kind, as a dynamic object whose
        pairs are its readable members. */
    method WriteClass(v: Input) returns (ok: bool)
      requires Valid() && v.Record?
      modifies this, bin
      ensures Valid() && (bin == old(bin) || fresh(bin))
      ensures Wrote(EncObject(v, old(Tab())), old(capacity), old(index), old(Contents()), ok)
      decreases v, 4
    {
      ok := WriteDynamic(v);
    }

    /** `WriteIDictionary(IDictionary<string, object>)`: null as the null
        marker, otherwise a dynamic object of its pairs. */
    method WriteIDictionary(v: Input) returns (ok: bool)
      requires Valid() && (v.Null? || v.Dict?)
      modifies this, bin
      ensures Valid() && (bin == old(bin) || fresh(bin))
      ensures Wrote(EncValue(v, old(Tab())), old(capacity), old(index), old(Contents()), ok)
      decreases v, 4
    {
      if v.Null? {
        ok := WriteNull();
        return;
      }
      ok := WriteDynamic(v);
    }

    /** One pair of an `IDictionary<string, int>`: the key by
        `WriteUTFBytes`, then the value by `WriteInt`. */
    method WriteIntEntry(entry: (Str, Int32)) returns (ok: bool)
      requires Valid()
      modifies this, bin
      ensures Valid() && (bin == old(bin) || fresh(bin))
      ensures Wrote(EncIntEntry(entry, old(Tab())), old(capacity), old(index), old(Contents()), ok)
    {
      var (key, value) := entry;
      ghost var cap0, used0, out0, t0 := capacity, index, Contents(), Tab();
      ghost var k := StringChunks(key, t0);
      ok := WriteUTFBytes(key);
      if !ok {
        Stop(cap0, used0, k.chunks, IntChunks(value), expand);
        return;
      }
      ghost var cap1, out1 := capacity, Contents();
      ok := WriteInt(value);
      Then(cap0, used0, out0, k.chunks, cap1, out1, IntChunks(value), ok, capacity, Contents(), expand);
    }

    /** The `foreach` over the pairs of an `IDictionary<string, int>`. */
    method WriteInts(ints: seq<(Str, Int32)>) returns (ok: bool)
      requires Valid()
      modifies this, bin
      ensures Valid() && (bin == old(bin) || fresh(bin))
      ensures Wrote(EncInts(ints, 0, old(Tab())), old(capacity), old(index), old(Contents()), ok)
    {
      ghost var cap0, used0, out0 := capacity, index, Contents();
      ghost var whole := EncInts(ints, 0, Tab());
      ghost var done: seq<seq<byte>> := [];
      var i := 0;
      while i < |ints|
        invariant Valid() && (bin == old(bin) || fresh(bin))
        invariant IntsLoop(ints, i, cap0, used0, out0, whole, done)
      {
        ok, done := IntsStep(ints, i, cap0, used0, out0, whole, done);
        if !ok {
          return;
        }
        i := i + 1;
      }
      ok := true;
      IntsEnd(ints, i, cap0, used0, out0, whole, done);
    }

    /** The state of `WriteInts` before its `i`-th pair: the ones before it
        are written (`done`), and with what is left they make up `whole`. */
    ghost predicate IntsLoop(ints: seq<(Str, Int32)>, i: nat, cap0: nat, used0: nat, out0: seq<byte>,
                             whole: Emit, done: seq<seq<byte>>)
      reads this, bin
      requires Valid()
    {
      && i <= |ints|
      && At(cap0, used0, out0, done)
      && whole.chunks == done + EncInts(ints, i, Tab()).chunks
      && whole.tables == EncInts(ints, i, Tab()).tables
    }

    /** After the last pair, `whole` is written. */
    lemma IntsEnd(ints: seq<(Str, Int32)>, i: nat, cap0: nat, used0: nat, out0: seq<byte>,
                  whole: Emit, done: seq<seq<byte>>)
      requires Valid() && IntsLoop(ints, i, cap0, used0, out0, whole, done) && i == |ints|
      ensures Wrote(whole, cap0, used0, out0, true)
    {
      assert done + [] == done;
    }

    /** One turn of the loop of `WriteInts`: the `i`-th pair, written after
        the ones before it. */
    method IntsStep(ints: seq<(Str, Int32)>, i: nat, ghost cap0: nat, ghost used0: nat, ghost out0: seq<byte>,
                    ghost whole: Emit, ghost done: seq<seq<byte>>) returns (ok: bool, ghost done': seq<seq<byte>>)
      requires Valid() && IntsLoop(ints, i, cap0, used0, out0, whole, done) && i < |ints|
      modifies this, bin
      ensures Valid() && (bin == old(bin) || fresh(bin))
      ensures !ok ==> Place(cap0, used0, whole.chunks, expand).Fail?
      ensures ok ==> IntsLoop(ints, i + 1, cap0, used0, out0, whole, done')
    {
      ghost var capA, outA, tA := capacity, Contents(), Tab();
      ghost var pair := EncIntEntry(ints[i], tA);
      ghost var rest := EncInts(ints, i + 1, pair.tables);
      assert EncInts(ints, i, tA) == EncIntsAt(ints, i, tA);
      ok := WriteIntEntry(ints[i]);
      Advance(cap0, used0, out0, done, capA, outA, pair.chunks, rest.chunks, ok, capacity, Contents(), expand);
      done' := done + pair.chunks;
    }

    /** `WriteIDictionary(IDictionary<string, int>)`: null as the null marker,
        otherwise a dynamic object whose values are written by `WriteInt`. */
    method WriteIntDictionary(v: Input) returns (ok: bool)
      requires Valid() && (v.Null? || v.IntDict?)
      modifies this, bin
      ensures Valid() && (bin == old(bin) || fresh(bin))
      ensures Wrote(EncValue(v, old(Tab())), old(capacity), old(index), old(Contents()), ok)
    {
      if v.Null? {
        ok := WriteNull();
        return;
      }
      ghost var cap0, used0, out0, t0 := capacity, index, Contents(), Tab();
      ghost var head := [[Object]] + [[0x0b]] + [[0x01]];
      var found;
      found, ok := ObjectHeader(v.key);
      if !ok || found {
        if !ok && v.key !in t0.objects {
          ghost var t1 := Reference(v.key, t0).1.tables;
          Stop(cap0, used0, head, EncInts(v.ints, 0, t1).chunks, expand);
          Stop(cap0, used0, head + EncInts(v.ints, 0, t1).chunks, [[0x01]], expand);
        }
        return;
      }
      ghost var cap1, out1 := capacity, Contents();
      ghost var body := EncInts(v.ints, 0, Tab()).chunks;
      ok := WriteInts(v.ints);
      Then(cap0, used0, out0, head, cap1, out1, body, ok, capacity, Contents(), expand);
      if !ok {
        Stop(cap0, used0, head + body, [[0x01]], expand);
        return;
      }
      ghost var cap2, out2 := capacity, Contents();
      ok := WriteByte(0x01);
      Then(cap0, used0, out0, head + body, cap2, out2, [[0x01]], ok, capacity, Contents(), expand);
    }

    /** The count handle and the empty key of the associative part of a
        dense array. */
    method DenseHeader(count: nat) returns (ok: bool)
      requires Valid()
      modifies this, bin
      ensures Valid() && (bin == old(bin) || fresh(bin))
      ensures Wrote(Emit([LengthBytes(count)] + [[0x01]], old(Tab())), old(capacity), old(index), old(Contents()), ok)
    {
      ghost var cap0, used0, out0 := capacity, index, Contents();
      ok := WriteLength(count);
      if !ok {
        Stop(cap0, used0, [LengthBytes(count)], [[0x01]], expand);
        return;
      }
      ghost var cap1, out1 := capacity, Contents();
      ok := WriteByte(0x01);
      Then(cap0, used0, out0, [LengthBytes(count)], cap1, out1, [[0x01]], ok, capacity, Contents(), expand);
    }

    /** The count handle, the empty key of the associative part and the
        elements of a dense array. */
    method ArrayBody(v: Input, count: nat) returns (ok: bool)
      requires Valid() && (v.List? || v.Sequence?) && count == |v.items|
      modifies this, bin
      ensures Valid() && (bin == old(bin) || fresh(bin))
      ensures var body := EncItems(v, 0, old(Tab()));
        Wrote(Emit([LengthBytes(count)] + [[0x01]] + body.chunks, body.tables), old(capacity), old(index), old(Contents()), ok)
      decreases v, 2
    {
      ghost var cap0, used0, out0, t0 := capacity, index, Contents(), Tab();
      ghost var head := [LengthBytes(count)] + [[0x01]];
      ghost var body := EncItems(v, 0, t0).chunks;
      ok := DenseHeader(count);
      if !ok {
        Stop(cap0, used0, head, body, expand);
        return;
      }
      ghost var cap1, out1 := capacity, Contents();
      ok := WriteItems(v);
      Then(cap0, used0, out0, head, cap1, out1, body, ok, capacity, Contents(), expand);
    }

    /** `WriteAmf3Array(IList)`: tag 9, then a reference or the count, the
        empty key and the elements. */
    method WriteAmf3Array(v: Input) returns (ok: bool)
      requires Valid() && v.List?
      modifies this, bin
      ensures Valid() && (bin == old(bin) || fresh(bin))
      ensures Wrote(EncArray(v, old(Tab())), old(capacity), old(index), old(Contents()), ok)
      decreases v, 4
    {
      ok := WriteDense(v, |v.items|);
    }

    /** `WriteAmf3Array(IEnumerable)`: as for a list, after a first pass that
        counts the elements. */
    method WriteAmf3Enumerable(v: Input) returns (ok: bool)
      requires Valid() && v.Sequence?
      modifies this, bin
      ensures Valid() && (bin == old(bin) || fresh(bin))
      ensures Wrote(EncArray(v, old(Tab())), old(capacity), old(index), old(Contents()), ok)
      decreases v, 4
    {
      ok := WriteDense(v, -1);
    }

    /** Tag 9, then a reference or the count, the empty key and the elements.
        A negative `count` makes the writer count the elements first, once it
        knows the array is not a reference. */
    method WriteDense(v: Input, count: int) returns (ok: bool)
      requires Valid() && (v.List? || v.Sequence?) && (count < 0 || count == |v.items|)
      modifies this, bin
      ensures Valid() && (bin == old(bin) || fresh(bin))
      ensures Wrote(EncArray(v, old(Tab())), old(capacity), old(index), old(Contents()), ok)
      decreases v, 3
    {
      ghost var cap0, used0, out0, t0 := capacity, index, Contents(), Tab();
      ghost var tag := [[Array]];
      var found;
      found, ok := TagReference(Array, v.key);
      if !ok || found {
        if !ok && v.key !in t0.objects {
          assert tag + [] == tag;
          ghost var t1 := Reference(v.key, t0).1.tables;
          Stop(cap0, used0, tag, [LengthBytes(|v.items|)] + [[0x01]] + EncItems(v, 0, t1).chunks, expand);
        }
        return;
      }
      var n := count;
      if n < 0 {
        n := 0;
        while n < |v.items|
          invariant n <= |v.items|
        {
          n := n + 1;
        }
      }
      ghost var cap1, out1 := capacity, Contents();
      assert tag + [] == tag;
      ghost var body := [LengthBytes(|v.items|)] + [[0x01]] + EncItems(v, 0, Tab()).chunks;
      ok := ArrayBody(v, n);
      Then(cap0, used0, out0, tag, cap1, out1, body, ok, capacity, Contents(), expand);
    }

    /** `WriteAmf3AssociativeArray`: tag 9, then a reference or an empty dense
        part, the pairs and the closing empty key. */
    method WriteAmf3AssociativeArray(v: Input) returns (ok: bool)
      requires Valid() && v.Dict?
      modifies this, bin
      ensures Valid() && (bin == old(bin) || fresh(bin))
      ensures Wrote(EncAssociative(v, old(Tab())), old(capacity), old(index), old(Contents()), ok)
      decreases v, 4
    {
      ghost var cap0, used0, out0, t0 := capacity, index, Contents(), Tab();
      ghost var tag := [[Array]];
      var found;
      found, ok := TagReference(Array, v.key);
      if !ok || found {
        if !ok && v.key !in t0.objects {
          assert tag + [] == tag;
          ghost var t1 := Reference(v.key, t0).1.tables;
          Stop(cap0, used0, tag, [[0x01]] + (EncEntries(v, 0, t1).chunks + [[0x01]]), expand);
        }
        return;
      }
      ghost var cap1, out1 := capacity, Contents();
      assert tag + [] == tag;
      ghost var body := EncEntries(v, 0, Tab()).chunks;
      ok := AssociativeBody(v);
      Then(cap0, used0, out0, tag, cap1, out1, [[0x01]] + (body + [[0x01]]), ok, capacity, Contents(), expand);
    }

    /** The empty dense part of an associative array, then its pairs and the
        closing empty key. */
    method AssociativeBody(v: Input) returns (ok: bool)
      requires Valid() && v.Dict?
      modifies this, bin
      ensures Valid() && (bin == old(bin) || fresh(bin))
      ensures var body := EncEntries(v, 0, old(Tab()));
        Wrote(Emit([[0x01]] + (body.chunks + [[0x01]]), body.tables), old(capacity), old(index), old(Contents()), ok)
      decreases v, 3
    {
      ghost var cap0, used0, out0, t0 := capacity, index, Contents(), Tab();
      ghost var body := EncEntries(v, 0, t0).chunks;
      ok := WriteByte(0x01);
      if !ok {
        Stop(cap0, used0, [[0x01]], body + [[0x01]], expand);
        return;
      }
      ghost var cap1, out1 := capacity, Contents();
      ok := ObjectBody(v);
      Then(cap0, used0, out0, [[0x01]], cap1, out1, body + [[0x01]], ok, capacity, Contents(), expand);
    }
  }

  /** `GetByteCount`: 1, 2 or 3 bytes per code unit. */
  method GetByteCount(s: Str) returns (total: nat)
    ensures total == Utf8.ByteCount(s) == |Utf8.Encode(s)|
  {
    total := 0;
    var i := 0;
    while i < |s|
      invariant 0 <= i <= |s| && total == Utf8.ByteCount(s[..i])
    {
      assert s[..i + 1][..i] == s[..i];
      if s[i] < 0x80 {
        total := total + 1;
      } else if s[i] < 0x800 {
        total := total + 2;
      } else {
        total := total + 3;
      }
      i := i + 1;
    }
    assert s[..i] == s;
    Utf8Properties.ByteCountIsEncodedLength(s);
  }

  /** Encoding a string one more code unit long. */
  lemma EncodeSnoc(s: Str, i: nat)
    requires i < |s|
    ensures Utf8.Encode(s[..i + 1]) == Utf8.Encode(s[..i]) + Utf8.UnitBytes(s[i])
    ensures |Utf8.Encode(s[..i + 1])| <= |Utf8.Encode(s)|
  {
    Utf8Properties.EncodeAppend(s[..i], [s[i]]);
    assert s[..i + 1] == s[..i] + [s[i]];
    assert Utf8.Encode([s[i]]) == Utf8.UnitBytes(s[i]);
    Utf8Properties.EncodeAppend(s[..i + 1], s[i + 1..]);
    assert s[..i + 1] + s[i + 1..] == s;
  }

  /** A store at `o` right after the prefix `pre` extends the prefix by the stored byte. */
  lemma PutLast(b0: seq<byte>, b1: seq<byte>, o: nat, pre: seq<byte>, x: byte)
    requires o < |b0| == |b1| && b0[..o] == pre && b1 == b0[o := x]
    ensures b1[..o + 1] == pre + [x]
  {
    assert b1[..o + 1] == b1[..o] + [b1[o]];
    assert b1[..o] == b0[..o];
  }

  /** One code unit's branch of `GetBytes`: its 1, 2 or 3 bytes written at
      `o`, the rest of `bin` untouched. */
  method PutUnit(c: CodeUnit, bin: array<byte>, o: nat) returns (n: nat)
    requires o + Utf8.UnitSize(c) <= bin.Length
    modifies bin
    ensures n == Utf8.UnitSize(c)
    ensures bin[..o] == old(bin[..o])
    ensures bin[o..o + n] == Utf8.UnitBytes(c)
    ensures bin[o + n..] == old(bin[o + n..])
  {
    if c < 0x80 {
      bin[o] := c;
      n := 1;
    } else if c < 0x800 {
      bin[o] := 0xC0 + c / 0x40;
      bin[o + 1] := 0x80 + c % 0x40;
      n := 2;
    } else {
      bin[o] := 0xE0 + c / 0x1000;
      bin[o + 1] := 0x80 + c / 0x40 % 0x40;
      bin[o + 2] := 0x80 + c % 0x40;
      n := 3;
    }
  }

  /** The prefix after a code unit's bytes are placed right after it. */
  lemma Splice(pre: seq<byte>, done: seq<byte>, u: seq<byte>, b0: seq<byte>, b1: seq<byte>, o: nat)
    requires o + |u| <= |b1| && o <= |b0|
    requires b0[..o] == pre + done && b1[..o] == b0[..o] && b1[o..o + |u|] == u
    ensures b1[..o + |u|] == pre + (done + u)
  {
    assert b1[..o + |u|] == b1[..o] + b1[o..o + |u|];
  }

  /** Agreement from `o` on implies agreement from any later position. */
  lemma Suffix(a: seq<byte>, b: seq<byte>, o: nat, n: nat)
    requires o + n <= |a| && o <= |b| && a[o..] == b[o..]
    ensures a[o + n..] == b[o + n..]
  {
    assert a[o + n..] == a[o..][n..];
    assert b[o + n..] == b[o..][n..];
  }

  /** `GetBytes`: the UTF-8 bytes of `s` written into `bin` from `offset`;
      the rest of `bin` is untouched. */
  method GetBytes(s: Str, bin: array<byte>, offset: nat)
    requires offset + |Utf8.Encode(s)| <= bin.Length
    modifies bin
    ensures bin[..offset + |Utf8.Encode(s)|] == old(bin[..offset]) + Utf8.Encode(s)
    ensures bin[offset + |Utf8.Encode(s)|..] == old(bin[offset + |Utf8.Encode(s)|..])
  {
    var i := 0;
    var o := offset;
    ghost var done: seq<byte> := [];
    while i < |s|
      invariant 0 <= i <= |s| && done == Utf8.Encode(s[..i])
      invariant o == offset + |done| <= offset + |Utf8.Encode(s)|
      invariant bin[..o] == old(bin[..offset]) + done
      invariant bin[o..] == old(bin[..])[o..]
    {
      EncodeSnoc(s, i);
      ghost var before := bin[..];
      var n := PutUnit(s[i], bin, o);
      Splice(old(bin[..offset]), done, Utf8.UnitBytes(s[i]), before, bin[..], o);
      Suffix(before, old(bin[..]), o, n);
      done := done + Utf8.UnitBytes(s[i]);
      o := o + n;
      i := i + 1;
    }
    assert s[..i] == s;
  }
}
