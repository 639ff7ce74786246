/** The byte stream `Amf3Writer` produces, as a function of the value written
    and the writer's two reference tables (FastAmf3/Amf3Writer.cs), and the
    buffer growth that decides whether the write succeeds. The class in
    amf3_writer.dfy is proved to emit exactly these bytes, to leave its tables
    exactly as these functions say, and to fail exactly when `Place` does. */
module Amf3Encoding {
  import opened Wrappers
  import opened Amf3Type
  import U29
  import Utf8
  import BigEndian
  import DoubleBits

  type Int32 = DoubleBits.Int32

  /** The identity of a .NET object in the writer's object table: reference
      identity for dictionaries, lists, byte arrays and other objects, value
      equality for boxed `DateTime`s. */
  type Key = nat

  /** A value handed to `WriteValue`, by the branch of its runtime type test
      that catches it first. Complex values carry the identity the object
      table is keyed by. */
  datatype Input =
    | Null                                          // null or DBNull
    | Text(s: Str)                                  // String
    | Int(n: Int32)                                 // Int32
    | Number(bits: Word64)                          // Int64, UInt64, Double, Single, Decimal: the double's bits
    | Bool(b: bool)                                 // Boolean
    | Date(key: Key, millis: Word64)                // DateTime: bits of the milliseconds since the epoch
    | External(items: seq<Input>)                   // IExternalizable: the values its WriteExternal writes
    | Dict(key: Key, entries: seq<(Str, Input)>)    // IDictionary<string, object>, in enumeration order
    | Bytes(key: Key, data: seq<byte>)              // byte[]
    | IntDict(key: Key, ints: seq<(Str, Int32)>)    // IDictionary<string, int>, in enumeration order
    | List(key: Key, items: seq<Input>)             // IList
    | Sequence(key: Key, items: seq<Input>)         // any other IEnumerable
    | Record(key: Key, entries: seq<(Str, Input)>)  // any other object: its readable members, by reflection

  /** Values in a dense array or written by an external writer. */
  predicate HasItems(v: Input) {
    v.External? || v.List? || v.Sequence?
  }

  /** Values written as a dynamic object's key/value stream. */
  predicate HasEntries(v: Input) {
    v.Dict? || v.Record?
  }

  /** The writer's string table (`m_stringReferences`) and object table (`m_objectReferences`). */
  datatype Tables = Tables(strings: map<Str, nat>, objects: map<Key, nat>)

  const NoTables := Tables(map[], map[])

  /** The bytes one write appends, cut where the writer checks its capacity
      (one chunk per check), and the tables it leaves behind. */
  datatype Emit = Emit(chunks: seq<seq<byte>>, tables: Tables)

  /** The chunks laid end to end. */
  function Flatten(chunks: seq<seq<byte>>): (bytes: seq<byte>)
    ensures chunks == [] ==> bytes == []
  {
    if chunks == [] then [] else chunks[0] + Flatten(chunks[1..])
  }

  /** A write of one tag byte followed by `e`. */
  function Tagged(tag: byte, e: Emit): Emit {
    Emit([[tag]] + e.chunks, e.tables)
  }

  // ---------------------------------------------------------------------
  // Buffer growth (FastAmf3/Amf3Writer.cs:75-93)
  // ---------------------------------------------------------------------

  /** `maxCapacity`: 256 * 256 bytes. */
  const MaxCapacity: nat := 0x1_0000

  /** The check before writing `n` bytes at `used`: nothing happens when they
      fit; otherwise growth must be enabled, the doubled capacity must stay
      within the ceiling, and the bytes must fit in the doubled buffer (the
      element writes or the block copy fail otherwise). The capacity after. */
  function Room(capacity: nat, used: nat, n: nat, expand: bool): Result<nat> {
    if used + n <= capacity then Ok(capacity)
    else if !expand then Fail(CapacityExceeded)
    else if capacity * 2 > MaxCapacity then Fail(CapacityExceeded)
    else if used + n > capacity * 2 then Fail(OutOfBounds)
    else Ok(capacity * 2)
  }

  /** The capacity after writing `chunks` at `used`, one check per chunk. */
  function Place(capacity: nat, used: nat, chunks: seq<seq<byte>>, expand: bool): Result<nat>
    decreases |chunks|
  {
    if chunks == [] then Ok(capacity)
    else
      var c :- Room(capacity, used, |chunks[0]|, expand);
      Place(c, used + |chunks[0]|, chunks[1..], expand)
  }

  // ---------------------------------------------------------------------
  // Reference tables
  // ---------------------------------------------------------------------

  /** A reference table whose indices are 0 .. size-1, one per entry. */
  ghost predicate Dense<K>(m: map<K, nat>) {
    && (forall k :: k in m ==> m[k] < |m|)
    && (forall a, b :: a in m && b in m && a != b ==> m[a] != m[b])
  }

  ghost predicate ValidTables(t: Tables) {
    Dense(t.strings) && Dense(t.objects)
  }

  // ---------------------------------------------------------------------
  // The writes
  // ---------------------------------------------------------------------

  /** `WriteLength(len)`: the handle `(len << 1) | 1` of an inline value. */
  function LengthBytes(len: nat): seq<byte> {
    U29.Encode(len * 2 + 1)
  }

  /** `WriteUTFBytes`. */
  function StringChunks(s: Str, t: Tables): Emit {
    if s == [] then Emit([[0x01]], t)
    else if s in t.strings then Emit([U29.Encode(t.strings[s] * 2)], t)
    else Emit([LengthBytes(Utf8.ByteCount(s))] + [Utf8.Encode(s)], t.(strings := t.strings[s := |t.strings|]))
  }

  /** `WriteReference` on a non-null value: whether it was found, and the write. */
  function Reference(key: Key, t: Tables): (bool, Emit) {
    if key in t.objects then (true, Emit([U29.Encode(t.objects[key] * 2)], t))
    else (false, Emit([], t.(objects := t.objects[key := |t.objects|])))
  }

  /** `WriteInt`. */
  function IntChunks(n: Int32): seq<seq<byte>> {
    if -0x1000_0000 <= n <= 0x0FFF_FFFF then [[Integer]] + [U29.Encode(n)]
    else [[Amf3Type.Number]] + [BigEndian.Bytes8(DoubleBits.OfInt32(n))]
  }

  /** `WriteValue`. */
  function EncValue(v: Input, t: Tables): (e: Emit)
    decreases v, 1
  {
    match v
    case Null => Emit([[Amf3Type.Null]], t)
    case Text(s) => Tagged(String, StringChunks(s, t))
    case Int(n) => Emit(IntChunks(n), t)
    case Number(w) => Emit([[Amf3Type.Number]] + [BigEndian.Bytes8(w)], t)
    case Bool(b) => Emit([[if b then BooleanTrue else BooleanFalse]], t)
    case Date(key, millis) => EncDate(key, millis, t)
    case External(items) => EncItems(v, 0, t)
    case Dict(key, entries) => EncObject(v, t)
    case Record(key, entries) => EncObject(v, t)
    case Bytes(key, data) => EncByteArray(key, data, t)
    case IntDict(key, ints) =>
      var (found, r) := Reference(key, t);
      if found then Tagged(Object, r)
      else
        var body := EncInts(ints, 0, r.tables);
        Emit([[Object]] + [[0x0b]] + [[0x01]] + body.chunks + [[0x01]], body.tables)
    case List(key, items) => EncArray(v, t)
    case Sequence(key, items) => EncArray(v, t)
  }

  /** `WriteDateTime`: tag 8, then a reference or 0x01 and the milliseconds. */
  function EncDate(key: Key, millis: Word64, t: Tables): Emit {
    var (found, r) := Reference(key, t);
    if found then Tagged(DateTime, r)
    else Emit([[DateTime]] + [[0x01]] + [BigEndian.Bytes8(millis)], r.tables)
  }

  /** `WriteAmf3ByteArray`: tag 12, then a reference or the length handle and the bytes. */
  function EncByteArray(key: Key, data: seq<byte>, t: Tables): Emit {
    var (found, r) := Reference(key, t);
    if found then Tagged(ByteArray, r)
    else Emit([[ByteArray]] + [LengthBytes(|data|)] + [data], r.tables)
  }

  /** A dictionary or reflected object: tag 10, then a reference or the
      anonymous dynamic trait `0x0b 0x01`, the key/value pairs and the empty
      key 0x01. */
  function EncObject(v: Input, t: Tables): Emit
    requires HasEntries(v)
    decreases v, 0
  {
    var (found, r) := Reference(v.key, t);
    if found then Tagged(Object, r)
    else
      var body := EncEntries(v, 0, r.tables);
      Emit([[Object]] + [[0x0b]] + [[0x01]] + (body.chunks + [[0x01]]), body.tables)
  }

  /** A list: tag 9, then a reference or the count handle, the empty key 0x01
      and the elements. */
  function EncArray(v: Input, t: Tables): Emit
    requires v.List? || v.Sequence?
    decreases v, 0
  {
    var (found, r) := Reference(v.key, t);
    if found then Tagged(Array, r)
    else
      var body := EncItems(v, 0, r.tables);
      Emit([[Array]] + ([LengthBytes(|v.items|)] + [[0x01]] + body.chunks), body.tables)
  }

  /** The items of `v` from the `i`-th on, one after the other. */
  function EncItems(v: Input, i: nat, t: Tables): Emit
    requires HasItems(v) && i <= |v.items|
    decreases v, 0, |v.items| - i
  {
    if i == |v.items| then Emit([], t)
    else
      var item := EncValue(v.items[i], t);
      var rest := EncItems(v, i + 1, item.tables);
      Emit(item.chunks + rest.chunks, rest.tables)
  }

  /** One key/value pair: the key by `WriteUTFBytes`, the value by `WriteValue`. */
  function EncEntry(entry: (Str, Input), t: Tables): Emit
    decreases entry.1, 2
  {
    var key := StringChunks(entry.0, t);
    var value := EncValue(entry.1, key.tables);
    Emit(key.chunks + value.chunks, value.tables)
  }

  /** The key/value pairs of `v` from the `i`-th on. */
  function EncEntries(v: Input, i: nat, t: Tables): Emit
    requires HasEntries(v) && i <= |v.entries|
    decreases v, 0, |v.entries| - i
  {
    if i == |v.entries| then Emit([], t)
    else
      var pair := EncEntry(v.entries[i], t);
      var rest := EncEntries(v, i + 1, pair.tables);
      Emit(pair.chunks + rest.chunks, rest.tables)
  }

  /** One pair of an `IDictionary<string, int>`: the key by `WriteUTFBytes`,
      the value by `WriteInt`. */
  function EncIntEntry(entry: (Str, Int32), t: Tables): Emit {
    var key := StringChunks(entry.0, t);
    Emit(key.chunks + IntChunks(entry.1), key.tables)
  }

  /** The pairs of an `IDictionary<string, int>` from the `i`-th on. */
  function EncInts(ints: seq<(Str, Int32)>, i: nat, t: Tables): Emit
    requires i <= |ints|
    decreases |ints| - i, 1
  {
    if i == |ints| then Emit([], t) else EncIntsAt(ints, i, t)
  }

  /** The `i`-th pair, then the pairs after it. */
  function EncIntsAt(ints: seq<(Str, Int32)>, i: nat, t: Tables): Emit
    requires i < |ints|
    decreases |ints| - i, 0
  {
    var pair := EncIntEntry(ints[i], t);
    var rest := EncInts(ints, i + 1, pair.tables);
    Emit(pair.chunks + rest.chunks, rest.tables)
  }

  /** `WriteAmf3AssociativeArray`: tag 9, then a reference or an empty dense
      part 0x01, the key/value pairs and the empty key 0x01. */
  function EncAssociative(v: Input, t: Tables): Emit
    requires v.Dict?
  {
    var (found, r) := Reference(v.key, t);
    if found then Tagged(Array, r)
    else
      var body := EncEntries(v, 0, r.tables);
      Emit([[Array]] + ([[0x01]] + (body.chunks + [[0x01]])), body.tables)
  }

  /** `WriteObject`: the string table is emptied first, the object table is kept. */
  function EncTopLevel(v: Input, t: Tables): Emit {
    EncValue(v, t.(strings := map[]))
  }
}

/** Laws of the chunked byte stream and of buffer growth. */
module Amf3EncodingProperties {
  import opened Wrappers
  import opened Amf3Type
  import opened Amf3Encoding

  /** Laying out two runs of chunks one after the other. */
  lemma {:induction false} FlattenAppend(a: seq<seq<byte>>, b: seq<seq<byte>>)
    ensures Flatten(a + b) == Flatten(a) + Flatten(b)
    decreases |a|
  {
    if a == [] {
      assert a + b == b;
    } else {
      assert (a + b)[0] == a[0] && (a + b)[1..] == a[1..] + b;
      FlattenAppend(a[1..], b);
      calc {
        Flatten(a + b);
        a[0] + Flatten(a[1..] + b);
        a[0] + (Flatten(a[1..]) + Flatten(b));
        (a[0] + Flatten(a[1..])) + Flatten(b);
        Flatten(a) + Flatten(b);
      }
    }
  }

  /** Growth for two runs of chunks: the second run starts from the capacity
      and the cursor the first leaves, and a failure in the first is final. */
  lemma {:induction false} PlaceAppend(capacity: nat, used: nat, a: seq<seq<byte>>, b: seq<seq<byte>>, expand: bool)
    ensures Place(capacity, used, a, expand).Fail? ==>
      Place(capacity, used, a + b, expand) == Place(capacity, used, a, expand)
    ensures Place(capacity, used, a, expand).Ok? ==>
      Place(capacity, used, a + b, expand) == Place(Place(capacity, used, a, expand).value, used + |Flatten(a)|, b, expand)
    decreases |a|
  {
    if a == [] {
      assert a + b == b;
    } else {
      assert (a + b)[0] == a[0] && (a + b)[1..] == a[1..] + b;
      assert |Flatten(a)| == |a[0]| + |Flatten(a[1..])|;
      match Room(capacity, used, |a[0]|, expand)
      case Fail(_) =>
      case Ok(c) => PlaceAppend(c, used + |a[0]|, a[1..], b, expand);
    }
  }

  /** A successful write leaves the written bytes inside the buffer; the
      capacity never shrinks, and it grows only when growth is enabled and
      never past the 64 KiB ceiling. */
  lemma {:induction false} PlaceBounds(capacity: nat, used: nat, chunks: seq<seq<byte>>, expand: bool)
    requires used <= capacity && Place(capacity, used, chunks, expand).Ok?
    ensures var c := Place(capacity, used, chunks, expand).value;
      && used + |Flatten(chunks)| <= c
      && capacity <= c
      && (c != capacity ==> expand && c <= MaxCapacity)
    decreases |chunks|
  {
    if chunks != [] {
      var c :| Room(capacity, used, |chunks[0]|, expand) == Ok(c);
      PlaceBounds(c, used + |chunks[0]|, chunks[1..], expand);
    }
  }

  /** Bytes that fit in the current buffer are written without any growth. */
  lemma {:induction false} PlaceWithinCapacity(capacity: nat, used: nat, chunks: seq<seq<byte>>, expand: bool)
    requires used + |Flatten(chunks)| <= capacity
    ensures Place(capacity, used, chunks, expand) == Ok(capacity)
    decreases |chunks|
  {
    if chunks != [] {
      PlaceWithinCapacity(capacity, used + |chunks[0]|, chunks[1..], expand);
    }
  }

  /** With growth disabled, a write succeeds exactly when all its bytes fit,
      and it never changes the capacity. */
  lemma FixedBuffer(capacity: nat, used: nat, chunks: seq<seq<byte>>)
    requires used <= capacity
    ensures Place(capacity, used, chunks, false).Ok? <==> used + |Flatten(chunks)| <= capacity
    ensures Place(capacity, used, chunks, false).Ok? ==> Place(capacity, used, chunks, false).value == capacity
  {
    if used + |Flatten(chunks)| <= capacity {
      PlaceWithinCapacity(capacity, used, chunks, false);
    } else if Place(capacity, used, chunks, false).Ok? {
      PlaceBounds(capacity, used, chunks, false);
    }
  }

  /** `Expand` doubles only once: a chunk longer than the room the doubled
      buffer leaves fails, although a buffer within the ceiling would hold it. */
  lemma DoublesOnlyOnce(capacity: nat, used: nat, chunk: seq<byte>)
    requires used + |chunk| > capacity * 2 && capacity * 2 <= MaxCapacity
    ensures Place(capacity, used, [chunk], true) == Fail(OutOfBounds)
  {
  }

  /** A writer created with size 0 can never write a byte: doubling an empty
      buffer leaves it empty. */
  lemma {:induction false} ZeroSizeNeverWrites(used: nat, chunks: seq<seq<byte>>, expand: bool)
    requires Place(0, used, chunks, expand).Ok?
    ensures Flatten(chunks) == []
    decreases |chunks|
  {
    if chunks != [] {
      assert Room(0, used, |chunks[0]|, expand) == Ok(0);
      assert |chunks[0]| == 0;
      ZeroSizeNeverWrites(used, chunks[1..], expand);
    }
  }

  /** A new key takes the next index: a dense table stays dense. */
  lemma AddKeepsDense<K>(m: map<K, nat>, k: K)
    requires Dense(m) && k !in m
    ensures Dense(m[k := |m|]) && |m[k := |m|]| == |m| + 1
  {
  }

  /** One chunk is one capacity check. */
  lemma PlaceOne(capacity: nat, used: nat, chunk: seq<byte>, expand: bool)
    ensures Place(capacity, used, [chunk], expand) == Room(capacity, used, |chunk|, expand)
    ensures Flatten([chunk]) == chunk
  {
    assert [chunk][1..] == [];
  }

  /** Growth continues from where a successful first run of chunks left it. */
  lemma Continue(capacity: nat, used: nat, a: seq<seq<byte>>, b: seq<seq<byte>>, expand: bool)
    requires Place(capacity, used, a, expand).Ok?
    ensures Place(capacity, used, a + b, expand) ==
      Place(Place(capacity, used, a, expand).value, used + |Flatten(a)|, b, expand)
    ensures Flatten(a + b) == Flatten(a) + Flatten(b)
  {
    PlaceAppend(capacity, used, a, b, expand);
    FlattenAppend(a, b);
  }

  /** Two writes in sequence: the outcome of the second, begun where the
      first ended, is the outcome of their chunks written together. */
  lemma Then(cap0: nat, used0: nat, out0: seq<byte>, a: seq<seq<byte>>, cap1: nat, out1: seq<byte>,
             b: seq<seq<byte>>, ok: bool, cap2: nat, out2: seq<byte>, expand: bool)
    requires |out0| == used0
    requires Place(cap0, used0, a, expand) == Ok(cap1) && out1 == out0 + Flatten(a)
    requires ok <==> Place(cap1, |out1|, b, expand).Ok?
    requires ok ==> cap2 == Place(cap1, |out1|, b, expand).value && out2 == out1 + Flatten(b)
    ensures ok <==> Place(cap0, used0, a + b, expand).Ok?
    ensures ok ==> cap2 == Place(cap0, used0, a + b, expand).value && out2 == out0 + Flatten(a + b)
  {
    Continue(cap0, used0, a, b, expand);
    if ok {
      Assoc(out0, Flatten(a), Flatten(b));
    }
  }

  /** Appending byte runs is associative. */
  lemma Assoc(x: seq<byte>, y: seq<byte>, z: seq<byte>)
    ensures x + y + z == x + (y + z)
  {
  }

  /** One more write after a successful run `done`: on success the run is
      extended by its chunks, on failure the whole write `done + b + rest`
      fails. */
  lemma Advance(cap0: nat, used0: nat, out0: seq<byte>, done: seq<seq<byte>>, cap1: nat, out1: seq<byte>,
                b: seq<seq<byte>>, rest: seq<seq<byte>>, ok: bool, cap2: nat, out2: seq<byte>, expand: bool)
    requires |out0| == used0
    requires Place(cap0, used0, done, expand) == Ok(cap1) && out1 == out0 + Flatten(done)
    requires ok <==> Place(cap1, |out1|, b, expand).Ok?
    requires ok ==> cap2 == Place(cap1, |out1|, b, expand).value && out2 == out1 + Flatten(b)
    ensures ok ==> Place(cap0, used0, done + b, expand) == Ok(cap2) && out2 == out0 + Flatten(done + b)
    ensures !ok ==> Place(cap0, used0, done + (b + rest), expand).Fail?
    ensures done + (b + rest) == done + b + rest
  {
    Continue(cap0, used0, done, b, expand);
    if ok {
      Assoc(out0, Flatten(done), Flatten(b));
    } else {
      Stop(cap0, used0, done + b, rest, expand);
    }
    assert done + (b + rest) == done + b + rest;
  }

  /** A write whose first chunks fail fails as a whole. */
  lemma Stop(capacity: nat, used: nat, a: seq<seq<byte>>, b: seq<seq<byte>>, expand: bool)
    requires Place(capacity, used, a, expand).Fail?
    ensures Place(capacity, used, a + b, expand).Fail?
  {
    PlaceAppend(capacity, used, a, b, expand);
  }
}

/** Every write keeps the writer's two reference tables densely numbered:
    each new string or object takes the next index, so the indices written
    in reference handles are exactly the positions the reader's tables
    will have. */
module Amf3TableProperties {
  import opened Amf3Type
  import opened Amf3Encoding
  import opened Amf3EncodingProperties

  lemma StringChunksDense(s: Str, t: Tables)
    requires ValidTables(t)
    ensures ValidTables(StringChunks(s, t).tables)
  {
    if s != [] && s !in t.strings {
      AddKeepsDense(t.strings, s);
    }
  }

  lemma ReferenceDense(key: Key, t: Tables)
    requires ValidTables(t)
    ensures ValidTables(Reference(key, t).1.tables)
  {
    if key !in t.objects {
      AddKeepsDense(t.objects, key);
    }
  }

  lemma {:induction false} EncValueDense(v: Input, t: Tables)
    requires ValidTables(t)
    ensures ValidTables(EncValue(v, t).tables)
    decreases v, 1
  {
    match v
    case Null =>
    case Text(s) => StringChunksDense(s, t);
    case Int(n) =>
    case Number(w) =>
    case Bool(b) =>
    case Date(key, millis) =>
      ReferenceDense(key, t);
      assert EncValue(v, t).tables == Reference(key, t).1.tables;
    case External(items) => EncItemsDense(v, 0, t);
    case Dict(key, entries) => EncObjectDense(v, t);
    case Record(key, entries) => EncObjectDense(v, t);
    case Bytes(key, data) =>
      ReferenceDense(key, t);
      assert EncValue(v, t).tables == Reference(key, t).1.tables;
    case IntDict(key, ints) =>
      ReferenceDense(key, t);
      var r := Reference(key, t).1;
      if key !in t.objects {
        EncIntsDense(ints, 0, r.tables);
        assert EncValue(v, t).tables == EncInts(ints, 0, r.tables).tables;
      } else {
        assert EncValue(v, t).tables == r.tables;
      }
    case List(key, items) => EncArrayDense(v, t);
    case Sequence(key, items) => EncArrayDense(v, t);
  }

  lemma {:induction false} EncObjectDense(v: Input, t: Tables)
    requires HasEntries(v) && ValidTables(t)
    ensures ValidTables(EncObject(v, t).tables)
    decreases v, 0
  {
    ReferenceDense(v.key, t);
    if v.key !in t.objects {
      EncEntriesDense(v, 0, Reference(v.key, t).1.tables);
    }
  }

  lemma {:induction false} EncArrayDense(v: Input, t: Tables)
    requires (v.List? || v.Sequence?) && ValidTables(t)
    ensures ValidTables(EncArray(v, t).tables)
    decreases v, 0
  {
    ReferenceDense(v.key, t);
    if v.key !in t.objects {
      EncItemsDense(v, 0, Reference(v.key, t).1.tables);
    }
  }

  lemma {:induction false} EncItemsDense(v: Input, i: nat, t: Tables)
    requires HasItems(v) && i <= |v.items| && ValidTables(t)
    ensures ValidTables(EncItems(v, i, t).tables)
    decreases v, 0, |v.items| - i
  {
    if i < |v.items| {
      EncValueDense(v.items[i], t);
      EncItemsDense(v, i + 1, EncValue(v.items[i], t).tables);
    }
  }

  lemma {:induction false} EncEntryDense(entry: (Str, Input), t: Tables)
    requires ValidTables(t)
    ensures ValidTables(EncEntry(entry, t).tables)
    decreases entry.1, 2
  {
    StringChunksDense(entry.0, t);
    EncValueDense(entry.1, StringChunks(entry.0, t).tables);
  }

  lemma {:induction false} EncEntriesDense(v: Input, i: nat, t: Tables)
    requires HasEntries(v) && i <= |v.entries| && ValidTables(t)
    ensures ValidTables(EncEntries(v, i, t).tables)
    decreases v, 0, |v.entries| - i
  {
    if i < |v.entries| {
      EncEntryDense(v.entries[i], t);
      EncEntriesDense(v, i + 1, EncEntry(v.entries[i], t).tables);
    }
  }

  lemma {:induction false} EncIntsDense(ints: seq<(Str, Int32)>, i: nat, t: Tables)
    requires i <= |ints| && ValidTables(t)
    ensures ValidTables(EncInts(ints, i, t).tables)
    decreases |ints| - i
  {
    if i < |ints| {
      StringChunksDense(ints[i].0, t);
      EncIntsDense(ints, i + 1, EncIntEntry(ints[i], t).tables);
    }
  }

  /** `WriteObject` empties the string table and keeps the object table, so
      a top-level write from dense tables leaves dense tables. */
  lemma TopLevelDense(v: Input, t: Tables)
    requires ValidTables(t)
    ensures ValidTables(EncTopLevel(v, t).tables)
  {
    EncValueDense(v, t.(strings := map[]));
  }
}
