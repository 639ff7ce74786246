/** Round trips of whole containers: a list written by `WriteAmf3Array`
    and a dictionary written by `WriteIDictionary` (either overload), holding
    scalars, read back by `ReadAmf3Data` into a new entry of the object table
    with the same elements or the same keys and values, in order. */
module Amf3CollectionProperties {
  import opened Wrappers
  import opened Amf3Type
  import opened ClassDefinitions
  import opened Amf3Decoding
  import E = Amf3Encoding
  import EP = Amf3EncodingProperties
  import opened Amf3DecodingProperties
  import Q = Amf3DecoderQuirks

  // ---------------------------------------------------------------------
  // One value, then more bytes
  // ---------------------------------------------------------------------

  /** `WriteUTFBytes` numbers at most one new string. */
  lemma StringTableGrowth(s: Str, t: E.Tables)
    ensures |E.StringChunks(s, t).tables.strings| <= |t.strings| + 1
  {
  }

  /** So does `WriteValue` on a scalar. */
  lemma ScalarTableGrowth(v: E.Input, t: E.Tables)
    requires IsScalar(v)
    ensures |E.EncValue(v, t).tables.strings| <= |t.strings| + 1
  {
    if v.Text? {
      StringTableGrowth(v.s, t);
    }
  }

  /** A scalar takes at least one byte, its tag. */
  lemma ScalarLength(v: E.Input, t: E.Tables)
    requires IsScalar(v)
    ensures |E.Flatten(E.EncValue(v, t).chunks)| >= 1
  {
    var c := E.EncValue(v, t).chunks;
    assert c != [] && |c[0]| == 1;
  }

  /** Bytes `e` followed by `rest` within the input: each part is in place
      and within the logical end. */
  lemma SplitAt(src: Source, i: int, e: seq<byte>, rest: seq<byte>)
    requires Holds(src.bin, i, e + rest) && i + |e + rest| <= src.maxIndex
    ensures Holds(src.bin, i, e) && Holds(src.bin, i + |e|, rest)
    ensures i + |e| <= src.maxIndex && i + |e| + |rest| == i + |e + rest|
  {
    HoldsSplit(src.bin, i, e, rest);
  }

  /** `ReadAmf3Data` on a scalar `WriteValue` wrote, followed by the bytes
      `rest`: the decoded scalar, and the cursor in front of `rest`. */
  lemma ScalarThen(src: Source, st: RState, v: E.Input, t: E.Tables, rest: seq<byte>) returns (st1: RState)
    requires IsScalar(v)
    requires StringsAgree(t.strings, st.strings) && |st.strings| < Limit
    requires Holds(src.bin, st.index, E.Flatten(E.EncValue(v, t).chunks) + rest)
    requires st.index + |E.Flatten(E.EncValue(v, t).chunks) + rest| <= src.maxIndex
    ensures ReadData(src, st) == Ok((Decoded(v), st1))
    ensures st1 == st.(index := st1.index, strings := st1.strings)
    ensures StringsAgree(E.EncValue(v, t).tables.strings, st1.strings) && |st1.strings| <= |st.strings| + 1
    ensures Holds(src.bin, st1.index, rest) && st1.index + |rest| <= src.maxIndex
    ensures st1.index + |rest| == st.index + |E.Flatten(E.EncValue(v, t).chunks) + rest|
  {
    SplitAt(src, st.index, E.Flatten(E.EncValue(v, t).chunks), rest);
    ScalarRoundTrip(src, st, v, t);
    ScalarTableGrowth(v, t);
    st1 := ReadData(src, st).value.1;
  }

  /** `ReadAmf3UTF8` on text `WriteUTFBytes` wrote, followed by the bytes
      `rest`: the text, and the cursor in front of `rest`. */
  lemma StringThen(src: Source, st: RState, s: Str, t: E.Tables, rest: seq<byte>) returns (st1: RState)
    requires Portable(s)
    requires StringsAgree(t.strings, st.strings) && |st.strings| < Limit
    requires Holds(src.bin, st.index, E.Flatten(E.StringChunks(s, t).chunks) + rest)
    requires st.index + |E.Flatten(E.StringChunks(s, t).chunks) + rest| <= src.maxIndex
    ensures ReadString(src, st) == Ok((s, st1))
    ensures st1 == st.(index := st1.index, strings := st1.strings)
    ensures StringsAgree(E.StringChunks(s, t).tables.strings, st1.strings) && |st1.strings| <= |st.strings| + 1
    ensures Holds(src.bin, st1.index, rest) && st1.index + |rest| <= src.maxIndex
    ensures st1.index + |rest| == st.index + |E.Flatten(E.StringChunks(s, t).chunks) + rest|
  {
    SplitAt(src, st.index, E.Flatten(E.StringChunks(s, t).chunks), rest);
    StringRoundTrip(src, st, s, t);
    StringTableGrowth(s, t);
    st1 := ReadString(src, st).value.1;
  }

  // ---------------------------------------------------------------------
  // Dense lists
  // ---------------------------------------------------------------------

  predicate AllScalar(items: seq<E.Input>) {
    forall k :: 0 <= k < |items| ==> IsScalar(items[k])
  }

  /** What the reader makes of the items from the `i`-th on. */
  function DecodedFrom(items: seq<E.Input>, i: nat): (r: seq<Value>)
    requires i <= |items| && AllScalar(items)
    ensures |r| == |items| - i
    decreases |items| - i
  {
    if i == |items| then [] else [Decoded(items[i])] + DecodedFrom(items, i + 1)
  }

  /** The bytes of the items from the `i`-th on: the `i`-th item, then the
      rest. */
  lemma ItemsLayout(v: E.Input, i: nat, t: E.Tables)
    requires E.HasItems(v) && i < |v.items|
    ensures var item := E.EncValue(v.items[i], t);
      var rest := E.EncItems(v, i + 1, item.tables);
      && E.Flatten(E.EncItems(v, i, t).chunks) == E.Flatten(item.chunks) + E.Flatten(rest.chunks)
      && E.EncItems(v, i, t).tables == rest.tables
  {
    var item := E.EncValue(v.items[i], t);
    var rest := E.EncItems(v, i + 1, item.tables);
    assert E.EncItems(v, i, t) == E.Emit(item.chunks + rest.chunks, rest.tables);
    EP.FlattenAppend(item.chunks, rest.chunks);
  }

  /** Every scalar takes at least one byte, so the items from the `i`-th on
      take at least as many bytes as there are items. */
  lemma {:induction false} ItemsLength(v: E.Input, i: nat, t: E.Tables)
    requires E.HasItems(v) && i <= |v.items| && AllScalar(v.items)
    ensures |E.Flatten(E.EncItems(v, i, t).chunks)| >= |v.items| - i
    decreases |v.items| - i
  {
    if i < |v.items| {
      var item := E.EncValue(v.items[i], t);
      ItemsLayout(v, i, t);
      ScalarLength(v.items[i], t);
      ItemsLength(v, i + 1, item.tables);
    }
  }

  /** The state of the dense element loop before element `i`: the object
      array at `at` has room for all items, the string tables agree, and the
      items `WriteValue` wrote from the `i`-th on lie under the cursor. */
  ghost predicate DenseLoop(src: Source, st: RState, at: nat, v: E.Input, i: nat, t: E.Tables) {
    && (v.List? || v.Sequence?) && i <= |v.items| && AllScalar(v.items)
    && StringsAgree(t.strings, st.strings) && |st.strings| + (|v.items| - i) < Limit
    && at < |st.objects| && st.objects[at].ObjectArray? && |st.objects[at].items| == |v.items|
    && Holds(src.bin, st.index, E.Flatten(E.EncItems(v, i, t).chunks))
    && st.index + |E.Flatten(E.EncItems(v, i, t).chunks)| <= src.maxIndex
  }

  /** One turn of the dense element loop: the element read is stored at
      position `i`. */
  lemma ReadDenseStep(src: Source, st: RState, at: nat, i: nat, n: nat, d: Value, st1: RState)
    requires 0 <= st.index <= |src.bin|
    requires at < |st.objects| && st.objects[at].ObjectArray? && |st.objects[at].items| == n && i < n
    requires ReadData(src, st) == Ok((d, st1)) && st1.objects == st.objects
    ensures ReadDense(src, st, at, i, n) == ReadDense(src, Put(st1, at, i, d), at, i + 1, n)
  {
  }

  /** One element of a dense array as `WriteValue` wrote it, followed by
      the bytes `rest`: read back and stored at position `i`. The loop goes
      on from the state `st2` returned, in front of `rest`. */
  lemma ElementStep(src: Source, st: RState, at: nat, i: nat, n: nat, item: E.Input, t: E.Tables, rest: seq<byte>)
    returns (st2: RState)
    requires IsScalar(item)
    requires StringsAgree(t.strings, st.strings) && |st.strings| < Limit
    requires at < |st.objects| && st.objects[at].ObjectArray? && |st.objects[at].items| == n && i < n
    requires Holds(src.bin, st.index, E.Flatten(E.EncValue(item, t).chunks) + rest)
    requires st.index + |E.Flatten(E.EncValue(item, t).chunks) + rest| <= src.maxIndex
    ensures StringsAgree(E.EncValue(item, t).tables.strings, st2.strings) && |st2.strings| <= |st.strings| + 1
    ensures Holds(src.bin, st2.index, rest) && st2.index + |rest| <= src.maxIndex
    ensures st2.index + |rest| == st.index + |E.Flatten(E.EncValue(item, t).chunks) + rest|
    ensures st2.objects == st.objects[at := ObjectArray(st.objects[at].items[i := Decoded(item)])]
    ensures st2.traits == st.traits
    ensures ReadDense(src, st, at, i, n) == ReadDense(src, st2, at, i + 1, n)
  {
    var st1 := ScalarThen(src, st, item, t, rest);
    ReadDenseStep(src, st, at, i, n, Decoded(item), st1);
    st2 := Put(st1, at, i, Decoded(item));
  }

  /** One turn of the dense element loop over what `WriteValue` wrote: the
      loop state holds again before the next element. */
  lemma ItemStep(src: Source, st: RState, at: nat, v: E.Input, i: nat, t: E.Tables) returns (st2: RState)
    requires DenseLoop(src, st, at, v, i, t) && i < |v.items|
    ensures var t2 := E.EncValue(v.items[i], t).tables;
      && DenseLoop(src, st2, at, v, i + 1, t2)
      && st2.index + |E.Flatten(E.EncItems(v, i + 1, t2).chunks)| == st.index + |E.Flatten(E.EncItems(v, i, t).chunks)|
      && E.EncItems(v, i + 1, t2).tables == E.EncItems(v, i, t).tables
    ensures st2.objects == st.objects[at := ObjectArray(st.objects[at].items[i := Decoded(v.items[i])])]
    ensures st2.traits == st.traits
    ensures ReadDense(src, st, at, i, |v.items|) == ReadDense(src, st2, at, i + 1, |v.items|)
  {
    var item := E.EncValue(v.items[i], t);
    ItemsLayout(v, i, t);
    st2 := ElementStep(src, st, at, i, |v.items|, v.items[i], t, E.Flatten(E.EncItems(v, i + 1, item.tables).chunks));
  }

  /** Storing the decoded `i`-th item, then the decoded items after it, is
      storing the decoded items from the `i`-th on. */
  lemma StoreItems(objects: seq<Obj>, at: nat, items: seq<E.Input>, i: nat)
    requires at < |objects| && objects[at].ObjectArray? && i < |objects[at].items| && i < |items| && AllScalar(items)
    ensures var old_items := objects[at].items;
      var once := objects[at := ObjectArray(old_items[i := Decoded(items[i])])];
      once[at := ObjectArray(once[at].items[..i + 1] + DecodedFrom(items, i + 1))]
        == objects[at := ObjectArray(old_items[..i] + DecodedFrom(items, i))]
  {
    var old_items := objects[at].items;
    assert old_items[i := Decoded(items[i])][..i + 1] + DecodedFrom(items, i + 1) == old_items[..i] + DecodedFrom(items, i);
  }

  /** Past the last item there is nothing left to store. */
  lemma ItemsDone(objects: seq<Obj>, at: nat, items: seq<E.Input>)
    requires at < |objects| && objects[at].ObjectArray? && |objects[at].items| == |items| && AllScalar(items)
    ensures objects[at := ObjectArray(objects[at].items[..|items|] + DecodedFrom(items, |items|))] == objects
  {
    assert objects[at].items[..|items|] + DecodedFrom(items, |items|) == objects[at].items;
  }

  /** The element loop of a dense array over the items `WriteValue` wrote
      from the `i`-th on: each is read back and stored at its position, the
      cursor ends right after them, and the string tables still agree. The
      state after the loop is returned. */
  lemma {:induction false} ItemsRoundTrip(src: Source, st: RState, at: nat, v: E.Input, i: nat, t: E.Tables) returns (st': RState)
    requires DenseLoop(src, st, at, v, i, t)
    ensures ReadDense(src, st, at, i, |v.items|) == Ok(st')
    ensures st'.index == st.index + |E.Flatten(E.EncItems(v, i, t).chunks)|
    ensures st'.objects == st.objects[at := ObjectArray(st.objects[at].items[..i] + DecodedFrom(v.items, i))]
    ensures st'.traits == st.traits
    ensures StringsAgree(E.EncItems(v, i, t).tables.strings, st'.strings)
    decreases |v.items| - i
  {
    if i == |v.items| {
      st' := st;
      ItemsDone(st.objects, at, v.items);
    } else {
      var st2 := ItemStep(src, st, at, v, i, t);
      st' := ItemsRoundTrip(src, st2, at, v, i + 1, E.EncValue(v.items[i], t).tables);
      StoreItems(st.objects, at, v.items, i);
    }
  }

  /** What `WriteAmf3Array` writes for a list not written before: the array
      tag, the count handle, the empty key and the items. */
  lemma ListLayout(v: E.Input, t: E.Tables)
    requires (v.List? || v.Sequence?) && v.key !in t.objects
    ensures var t' := t.(objects := t.objects[v.key := |t.objects|]);
      && E.Flatten(E.EncArray(v, t).chunks)
         == [Amf3Type.Array] + (E.LengthBytes(|v.items|) + ([0x01] + E.Flatten(E.EncItems(v, 0, t').chunks)))
      && E.EncArray(v, t).tables == E.EncItems(v, 0, t').tables
  {
    var t' := t.(objects := t.objects[v.key := |t.objects|]);
    var body := E.EncItems(v, 0, t');
    var lb := E.LengthBytes(|v.items|);
    assert E.EncArray(v, t).chunks == [[Amf3Type.Array]] + ([lb] + [[0x01]] + body.chunks);
    EP.FlattenAppend([[Amf3Type.Array]], [lb] + [[0x01]] + body.chunks);
    EP.FlattenAppend([lb] + [[0x01]], body.chunks);
    Flatten2(lb, [0x01]);
    Flatten1([Amf3Type.Array]);
  }

  /** `ReadAmf3Data` on the array tag, the count handle `lb` of `n` items,
      the empty key and `body`: a dense array of `n` nulls, interned, whose
      element loop then runs over `body`. */
  lemma ReadListHeader(src: Source, st: RState, n: nat, lb: seq<byte>, body: seq<byte>)
    requires n < Limit && lb == E.LengthBytes(n) && |body| >= n
    requires Holds(src.bin, st.index, [Amf3Type.Array] + (lb + ([0x01] + body)))
    requires st.index + |[Amf3Type.Array] + (lb + ([0x01] + body))| <= src.maxIndex
    ensures var st3 := st.(index := st.index + 2 + |lb|);
      && ReadData(src, st) == ReadDenseArray(src, st3, n)
      && Holds(src.bin, st3.index, body) && st3.index + |body| <= src.maxIndex
  {
    TagAt(src.bin, st.index, Amf3Type.Array, lb + ([0x01] + body));
    HoldsSplit(src.bin, st.index + 1, lb, [0x01] + body);
    var st1 := st.(index := st.index + 1);
    var st2 := st1.(index := st1.index + |lb|);
    var st3 := st.(index := st.index + 2 + |lb|);
    LengthRoundTrip(src, st1, n);
    TagAt(src.bin, st2.index, 0x01, body);
    assert ReadInt(src, st2) == Ok((1, st3));
    assert ReadString(src, st2) == Ok(([], st3));
    assert ReadInlineArray(src, st2, n * 2 + 1) == ReadDenseArray(src, st3, n);
    assert ReadArray(src, st1, false) == ReadInlineArray(src, st2, n * 2 + 1);
    assert ReadData(src, st) == ReadArray(src, st1, false);
  }

  /** A dense array of the items `WriteValue` wrote: `n` nulls interned,
      then overwritten by the decoded items. */
  lemma DenseArrayRoundTrip(src: Source, st: RState, v: E.Input, t: E.Tables) returns (st': RState)
    requires (v.List? || v.Sequence?) && AllScalar(v.items)
    requires StringsAgree(t.strings, st.strings) && |st.strings| + |v.items| < Limit
    requires Holds(src.bin, st.index, E.Flatten(E.EncItems(v, 0, t).chunks))
    requires st.index + |E.Flatten(E.EncItems(v, 0, t).chunks)| <= src.maxIndex
    ensures ReadDenseArray(src, st, |v.items|) == Ok((Ref(|st.objects|), st'))
    ensures st'.index == st.index + |E.Flatten(E.EncItems(v, 0, t).chunks)|
    ensures st'.objects == st.objects + [ObjectArray(DecodedFrom(v.items, 0))]
    ensures st'.traits == st.traits
    ensures StringsAgree(E.EncItems(v, 0, t).tables.strings, st'.strings)
  {
    var at := |st.objects|;
    var st1 := Intern(st, ObjectArray(seq(|v.items|, _ => Value.Null)));
    st' := ItemsRoundTrip(src, st1, at, v, 0, t);
    var filled := ObjectArray(DecodedFrom(v.items, 0));
    assert st1.objects[at].items[..0] + DecodedFrom(v.items, 0) == filled.items;
    assert st1.objects[at := filled] == st.objects + [filled];
  }

  /** `ReadAmf3Data` on the array tag, the count handle `lb`, the empty key
      and the items `WriteValue` wrote: the items' dense array. */
  lemma ListRead(src: Source, st: RState, v: E.Input, t: E.Tables, lb: seq<byte>, body: seq<byte>) returns (st': RState)
    requires (v.List? || v.Sequence?) && AllScalar(v.items)
    requires StringsAgree(t.strings, st.strings) && |st.strings| + |v.items| < Limit
    requires lb == E.LengthBytes(|v.items|) && body == E.Flatten(E.EncItems(v, 0, t).chunks) && |body| >= |v.items|
    requires Holds(src.bin, st.index, [Amf3Type.Array] + (lb + ([0x01] + body)))
    requires st.index + |[Amf3Type.Array] + (lb + ([0x01] + body))| <= src.maxIndex
    ensures ReadData(src, st) == Ok((Ref(|st.objects|), st'))
    ensures st'.index == st.index + |[Amf3Type.Array] + (lb + ([0x01] + body))|
    ensures st'.objects == st.objects + [ObjectArray(DecodedFrom(v.items, 0))]
    ensures st'.traits == st.traits
    ensures StringsAgree(E.EncItems(v, 0, t).tables.strings, st'.strings)
  {
    ReadListHeader(src, st, |v.items|, lb, body);
    st' := DenseArrayRoundTrip(src, st.(index := st.index + 2 + |lb|), v, t);
  }

  /** `WriteAmf3Array` of a list of scalars not written before, then
      `ReadAmf3Data`: a new object array holding the items in order,
      appended to the object table and referenced by its position; the
      cursor ends right after the array and the string tables still agree. */
  lemma ListRoundTrip(src: Source, st: RState, v: E.Input, t: E.Tables)
    requires (v.List? || v.Sequence?) && v.key !in t.objects && AllScalar(v.items)
    requires StringsAgree(t.strings, st.strings) && |st.strings| + |v.items| < Limit
    requires Holds(src.bin, st.index, E.Flatten(E.EncArray(v, t).chunks))
    requires st.index + |E.Flatten(E.EncArray(v, t).chunks)| <= src.maxIndex
    ensures ReadData(src, st).Ok?
    ensures var (r, st') := ReadData(src, st).value;
      && r == Ref(|st.objects|)
      && st'.index == st.index + |E.Flatten(E.EncArray(v, t).chunks)|
      && st'.objects == st.objects + [ObjectArray(DecodedFrom(v.items, 0))]
      && st'.traits == st.traits
      && StringsAgree(E.EncArray(v, t).tables.strings, st'.strings)
  {
    var t' := t.(objects := t.objects[v.key := |t.objects|]);
    ListLayout(v, t);
    ItemsLength(v, 0, t');
    var st' := ListRead(src, st, v, t', E.LengthBytes(|v.items|), E.Flatten(E.EncItems(v, 0, t').chunks));
  }

  // ---------------------------------------------------------------------
  // Dictionaries
  // ---------------------------------------------------------------------

  /** Entries the reader accepts back: scalar values under distinct,
      non-empty keys without surrogates. An empty key would end the key
      stream early, and a repeated one is refused by the dictionary. */
  predicate ReadableEntries(entries: seq<(Str, E.Input)>) {
    && (forall k :: 0 <= k < |entries| ==> entries[k].0 != [] && Portable(entries[k].0) && IsScalar(entries[k].1))
    && (forall j, k :: 0 <= j < k < |entries| ==> entries[j].0 != entries[k].0)
  }

  /** What the reader makes of the entries from the `i`-th on. */
  function DecodedEntries(entries: seq<(Str, E.Input)>, i: nat): (r: seq<(Str, Value)>)
    requires i <= |entries| && ReadableEntries(entries)
    ensures |r| == |entries| - i
    decreases |entries| - i
  {
    if i == |entries| then [] else [(entries[i].0, Decoded(entries[i].1))] + DecodedEntries(entries, i + 1)
  }

  /** The `while (key != "")` loop together with the key read before it:
      the key stream of a dynamic object, into the dictionary at `at`. */
  function ReadKeyStream(src: Source, st: RState, at: nat): Result<RState>
    requires 0 <= st.index <= |src.bin|
    requires at < |st.objects| && st.objects[at].Dictionary?
  {
    var (key, st1) :- ReadString(src, st);
    ReadPairs(src, st1, at, key)
  }

  /** A key is present after an append exactly when it was present before
      or is the appended one. */
  lemma HasKeyAppend(entries: seq<(Str, Value)>, e: (Str, Value), key: Str)
    ensures HasKey(entries + [e], key) <==> HasKey(entries, key) || e.0 == key
  {
    if HasKey(entries + [e], key) && e.0 != key {
      var k :| 0 <= k < |entries + [e]| && (entries + [e])[k].0 == key;
      assert entries[k].0 == key;
    }
    if HasKey(entries, key) {
      var k :| 0 <= k < |entries| && entries[k].0 == key;
      assert (entries + [e])[k].0 == key;
    }
    if e.0 == key {
      assert (entries + [e])[|entries|].0 == key;
    }
  }

  /** One turn of the key stream: the key `key` read, its value read and
      added, and the stream goes on from the state after the add. */
  lemma ReadKeyStreamStep(src: Source, st: RState, at: nat, key: Str, st1: RState, d: Value, st2: RState, st3: RState)
    requires 0 <= st.index <= |src.bin|
    requires at < |st.objects| && st.objects[at].Dictionary?
    requires ReadString(src, st) == Ok((key, st1)) && key != []
    requires ReadData(src, st1) == Ok((d, st2)) && st2.objects == st.objects
    requires Add(st2, at, key, d) == Ok(st3)
    ensures ReadKeyStream(src, st, at) == ReadKeyStream(src, st3, at)
  {
  }

  /** The bytes of one pair: the key, then the value. */
  lemma EntryLayout(entry: (Str, E.Input), t: E.Tables)
    ensures var key := E.StringChunks(entry.0, t);
      var value := E.EncValue(entry.1, key.tables);
      && E.Flatten(E.EncEntry(entry, t).chunks) == E.Flatten(key.chunks) + E.Flatten(value.chunks)
      && E.EncEntry(entry, t).tables == value.tables
  {
    var key := E.StringChunks(entry.0, t);
    var value := E.EncValue(entry.1, key.tables);
    assert E.EncEntry(entry, t) == E.Emit(key.chunks + value.chunks, value.tables);
    EP.FlattenAppend(key.chunks, value.chunks);
  }

  /** One pair as `WriteValue` wrote it, followed by the bytes `rest`: the
      key, then the value, read back, and the cursor in front of `rest`. */
  lemma PairRead(src: Source, st: RState, entry: (Str, E.Input), t: E.Tables, rest: seq<byte>)
    returns (st1: RState, st2: RState)
    requires Portable(entry.0) && IsScalar(entry.1)
    requires StringsAgree(t.strings, st.strings) && |st.strings| + 1 < Limit
    requires Holds(src.bin, st.index, E.Flatten(E.EncEntry(entry, t).chunks) + rest)
    requires st.index + |E.Flatten(E.EncEntry(entry, t).chunks) + rest| <= src.maxIndex
    ensures ReadString(src, st) == Ok((entry.0, st1))
    ensures ReadData(src, st1) == Ok((Decoded(entry.1), st2))
    ensures st2 == st.(index := st2.index, strings := st2.strings)
    ensures StringsAgree(E.EncEntry(entry, t).tables.strings, st2.strings) && |st2.strings| <= |st.strings| + 2
    ensures Holds(src.bin, st2.index, rest) && st2.index + |rest| <= src.maxIndex
    ensures st2.index + |rest| == st.index + |E.Flatten(E.EncEntry(entry, t).chunks) + rest|
  {
    var keyE := E.StringChunks(entry.0, t);
    var kb, vb := E.Flatten(keyE.chunks), E.Flatten(E.EncValue(entry.1, keyE.tables).chunks);
    EntryLayout(entry, t);
    assert kb + vb + rest == kb + (vb + rest);
    st1 := StringThen(src, st, entry.0, t, vb + rest);
    st2 := ScalarThen(src, st1, entry.1, keyE.tables, rest);
  }

  /** One pair of the key stream, as `WriteValue` wrote it, followed by the
      bytes `rest`: the key, then the value, added to the dictionary at
      `at`. The stream goes on from the state `st3` returned, in front of
      `rest`. */
  lemma PairStep(src: Source, st: RState, at: nat, entry: (Str, E.Input), t: E.Tables, rest: seq<byte>)
    returns (st3: RState)
    requires entry.0 != [] && Portable(entry.0) && IsScalar(entry.1)
    requires StringsAgree(t.strings, st.strings) && |st.strings| + 1 < Limit
    requires at < |st.objects| && st.objects[at].Dictionary? && !HasKey(st.objects[at].entries, entry.0)
    requires Holds(src.bin, st.index, E.Flatten(E.EncEntry(entry, t).chunks) + rest)
    requires st.index + |E.Flatten(E.EncEntry(entry, t).chunks) + rest| <= src.maxIndex
    ensures StringsAgree(E.EncEntry(entry, t).tables.strings, st3.strings) && |st3.strings| <= |st.strings| + 2
    ensures Holds(src.bin, st3.index, rest) && st3.index + |rest| <= src.maxIndex
    ensures st3.index + |rest| == st.index + |E.Flatten(E.EncEntry(entry, t).chunks) + rest|
    ensures st3.objects == st.objects[at := Dictionary(st.objects[at].entries + [(entry.0, Decoded(entry.1))])]
    ensures st3.traits == st.traits
    ensures ReadKeyStream(src, st, at) == ReadKeyStream(src, st3, at)
  {
    var st1, st2 := PairRead(src, st, entry, t, rest);
    var d := Decoded(entry.1);
    HasKeyAppend(st.objects[at].entries, (entry.0, d), entry.0);
    st3 := st2.(objects := st2.objects[at := Dictionary(st.objects[at].entries + [(entry.0, d)])]);
    assert Add(st2, at, entry.0, d) == Ok(st3);
    ReadKeyStreamStep(src, st, at, entry.0, st1, d, st2, st3);
  }

  /** The bytes of the pairs from the `i`-th on and the empty key: the
      `i`-th pair, then the rest. */
  lemma EntriesLayout(v: E.Input, i: nat, t: E.Tables)
    requires E.HasEntries(v) && i < |v.entries|
    ensures var pair := E.EncEntry(v.entries[i], t);
      var rest := E.EncEntries(v, i + 1, pair.tables);
      && E.Flatten(E.EncEntries(v, i, t).chunks) + [0x01] == E.Flatten(pair.chunks) + (E.Flatten(rest.chunks) + [0x01])
      && E.EncEntries(v, i, t).tables == rest.tables
  {
    var pair := E.EncEntry(v.entries[i], t);
    var rest := E.EncEntries(v, i + 1, pair.tables);
    assert E.EncEntries(v, i, t) == E.Emit(pair.chunks + rest.chunks, rest.tables);
    EP.FlattenAppend(pair.chunks, rest.chunks);
  }

  /** The keys after the `i`-th are still absent once the `i`-th is added. */
  lemma FreshKeysAfterAdd(old_entries: seq<(Str, Value)>, entries: seq<(Str, E.Input)>, i: nat, d: Value)
    requires i < |entries| && ReadableEntries(entries)
    requires forall k :: i <= k < |entries| ==> !HasKey(old_entries, entries[k].0)
    ensures forall k :: i + 1 <= k < |entries| ==> !HasKey(old_entries + [(entries[i].0, d)], entries[k].0)
  {
    forall k | i + 1 <= k < |entries|
      ensures !HasKey(old_entries + [(entries[i].0, d)], entries[k].0)
    {
      HasKeyAppend(old_entries, (entries[i].0, d), entries[k].0);
    }
  }

  /** The state of the key stream before pair `i`: the dictionary at `at`
      holds none of the keys still to come, the string tables agree, and
      the pairs `WriteValue` wrote from the `i`-th on and the empty key lie
      under the cursor. */
  ghost predicate KeyStreamLoop(src: Source, st: RState, at: nat, v: E.Input, i: nat, t: E.Tables) {
    && E.HasEntries(v) && i <= |v.entries| && ReadableEntries(v.entries)
    && StringsAgree(t.strings, st.strings) && |st.strings| + 2 * (|v.entries| - i) < Limit
    && at < |st.objects| && st.objects[at].Dictionary?
    && (forall k :: i <= k < |v.entries| ==> !HasKey(st.objects[at].entries, v.entries[k].0))
    && Holds(src.bin, st.index, E.Flatten(E.EncEntries(v, i, t).chunks) + [0x01])
    && st.index + |E.Flatten(E.EncEntries(v, i, t).chunks) + [0x01]| <= src.maxIndex
  }

  /** One turn of the key stream over what `WriteValue` wrote: the loop
      state holds again before the next pair. */
  lemma EntryStep(src: Source, st: RState, at: nat, v: E.Input, i: nat, t: E.Tables) returns (st3: RState)
    requires KeyStreamLoop(src, st, at, v, i, t) && i < |v.entries|
    ensures var t3 := E.EncEntry(v.entries[i], t).tables;
      && KeyStreamLoop(src, st3, at, v, i + 1, t3)
      && st3.index + |E.Flatten(E.EncEntries(v, i + 1, t3).chunks) + [0x01]|
         == st.index + |E.Flatten(E.EncEntries(v, i, t).chunks) + [0x01]|
      && E.EncEntries(v, i + 1, t3).tables == E.EncEntries(v, i, t).tables
    ensures st3.objects == st.objects[at := Dictionary(st.objects[at].entries + [(v.entries[i].0, Decoded(v.entries[i].1))])]
    ensures st3.traits == st.traits
    ensures ReadKeyStream(src, st, at) == ReadKeyStream(src, st3, at)
  {
    var pair := E.EncEntry(v.entries[i], t);
    EntriesLayout(v, i, t);
    st3 := PairStep(src, st, at, v.entries[i], t, E.Flatten(E.EncEntries(v, i + 1, pair.tables).chunks) + [0x01]);
    FreshKeysAfterAdd(st.objects[at].entries, v.entries, i, Decoded(v.entries[i].1));
  }

  /** Adding the decoded `i`-th pair, then the decoded pairs after it, is
      adding the decoded pairs from the `i`-th on. */
  lemma StoreEntries(objects: seq<Obj>, at: nat, entries: seq<(Str, E.Input)>, i: nat)
    requires at < |objects| && objects[at].Dictionary? && i < |entries| && ReadableEntries(entries)
    ensures var once := objects[at := Dictionary(objects[at].entries + [(entries[i].0, Decoded(entries[i].1))])];
      once[at := Dictionary(once[at].entries + DecodedEntries(entries, i + 1))]
        == objects[at := Dictionary(objects[at].entries + DecodedEntries(entries, i))]
  {
    var once := objects[at].entries + [(entries[i].0, Decoded(entries[i].1))];
    assert once + DecodedEntries(entries, i + 1) == objects[at].entries + DecodedEntries(entries, i);
  }

  /** The empty key that ends the key stream. */
  lemma EndOfKeyStream(src: Source, st: RState, at: nat)
    requires Holds(src.bin, st.index, [0x01]) && st.index + 1 <= src.maxIndex
    requires at < |st.objects| && st.objects[at].Dictionary?
    ensures ReadKeyStream(src, st, at) == Ok(st.(index := st.index + 1))
  {
    TagAt(src.bin, st.index, 0x01, []);
    assert ReadString(src, st) == Ok(([], st.(index := st.index + 1)));
  }

  /** Past the last pair only the empty key is left: the key stream ends
      there, and the dictionary is as it was. */
  lemma EntriesDone(src: Source, st: RState, at: nat, v: E.Input, t: E.Tables)
    requires E.HasEntries(v) && KeyStreamLoop(src, st, at, v, |v.entries|, t)
    ensures ReadKeyStream(src, st, at) == Ok(st.(index := st.index + 1))
    ensures |E.Flatten(E.EncEntries(v, |v.entries|, t).chunks) + [0x01]| == 1
    ensures E.EncEntries(v, |v.entries|, t).tables == t
    ensures st.objects[at := Dictionary(st.objects[at].entries + DecodedEntries(v.entries, |v.entries|))] == st.objects
  {
    var old_entries := st.objects[at].entries;
    assert E.EncEntries(v, |v.entries|, t) == E.Emit([], t);
    assert E.Flatten([]) + [0x01] == [0x01];
    EndOfKeyStream(src, st, at);
    assert old_entries + DecodedEntries(v.entries, |v.entries|) == old_entries;
  }

  /** The key stream over the pairs `WriteValue` wrote from the `i`-th on
      and the empty key after them: each value is added under its key, the
      cursor ends right after the empty key, and the string tables still
      agree. */
  lemma {:induction false} EntriesRoundTrip(src: Source, st: RState, at: nat, v: E.Input, i: nat, t: E.Tables) returns (st': RState)
    requires KeyStreamLoop(src, st, at, v, i, t)
    ensures ReadKeyStream(src, st, at) == Ok(st')
    ensures st'.index == st.index + |E.Flatten(E.EncEntries(v, i, t).chunks) + [0x01]|
    ensures st'.objects == st.objects[at := Dictionary(st.objects[at].entries + DecodedEntries(v.entries, i))]
    ensures st'.traits == st.traits
    ensures StringsAgree(E.EncEntries(v, i, t).tables.strings, st'.strings)
    decreases |v.entries| - i
  {
    if i == |v.entries| {
      st' := st.(index := st.index + 1);
      EntriesDone(src, st, at, v, t);
    } else {
      var st3 := EntryStep(src, st, at, v, i, t);
      st' := EntriesRoundTrip(src, st3, at, v, i + 1, E.EncEntry(v.entries[i], t).tables);
      StoreEntries(st.objects, at, v.entries, i);
    }
  }

  /** What `WriteIDictionary(IDictionary<string, object>)` writes for a
      dictionary not written before: the object tag, the anonymous dynamic
      trait `0x0b 0x01`, the pairs and the empty key. */
  lemma DictLayout(v: E.Input, t: E.Tables)
    requires E.HasEntries(v) && v.key !in t.objects
    ensures var t' := t.(objects := t.objects[v.key := |t.objects|]);
      && E.Flatten(E.EncObject(v, t).chunks)
         == [Object] + ([0x0b] + ([0x01] + (E.Flatten(E.EncEntries(v, 0, t').chunks) + [0x01])))
      && E.EncObject(v, t).tables == E.EncEntries(v, 0, t').tables
  {
    var t' := t.(objects := t.objects[v.key := |t.objects|]);
    var body := E.EncEntries(v, 0, t');
    var c3 := body.chunks + [[0x01]];
    var c2 := [[0x01]] + c3;
    var c1 := [[0x0b]] + c2;
    assert E.EncObject(v, t).chunks == [[Object]] + c1;
    EP.FlattenAppend(body.chunks, [[0x01]]);
    EP.FlattenAppend([[0x01]], c3);
    EP.FlattenAppend([[0x0b]], c2);
    EP.FlattenAppend([[Object]], c1);
    Flatten1([0x01]);
    Flatten1([0x0b]);
    Flatten1([Object]);
  }

  /** `ReadAmf3Data` on the object tag and the anonymous dynamic trait
      `0x0b 0x01`: the trait is added to the trait table, a new dictionary
      is interned, and the key stream fills it from what follows. */
  lemma ReadDictHeader(src: Source, st: RState, tail: seq<byte>)
    requires Holds(src.bin, st.index, [Object] + ([0x0b] + ([0x01] + tail)))
    requires st.index + 3 <= src.maxIndex
    ensures var tr := DecodedTrait([], [], false, true);
      var st4 := Intern(st.(index := st.index + 3, traits := st.traits + [tr]), Dictionary([]));
      && ReadData(src, st) == Built(ReadKeyStream(src, st4, |st.objects|), |st.objects|)
      && Holds(src.bin, st4.index, tail)
  {
    var i := st.index;
    TagAt(src.bin, i, Object, [0x0b] + ([0x01] + tail));
    TagAt(src.bin, i + 1, 0x0b, [0x01] + tail);
    TagAt(src.bin, i + 2, 0x01, tail);
    var st1 := st.(index := i + 1);
    Q.AnonymousDynamicHeader(src, st1);
    var tr := DecodedTrait([], [], false, true);
    var st3 := st.(index := i + 3, traits := st.traits + [tr]);
    var st4 := Intern(st3, Dictionary([]));
    assert ReadDynamic(src, st3) == Built(ReadKeyStream(src, st4, |st.objects|), |st.objects|);
    assert ReadObject(src, st1, false) == ReadDynamic(src, st3);
    assert ReadData(src, st) == ReadObject(src, st1, false);
  }

  /** The key stream starts into the empty dictionary just interned. */
  lemma KeyStreamStart(src: Source, st: RState, v: E.Input, t: E.Tables)
    requires E.HasEntries(v) && ReadableEntries(v.entries)
    requires StringsAgree(t.strings, st.strings) && |st.strings| + 2 * |v.entries| < Limit
    requires st.objects != [] && st.objects[|st.objects| - 1] == Dictionary([])
    requires Holds(src.bin, st.index, E.Flatten(E.EncEntries(v, 0, t).chunks) + [0x01])
    requires st.index + |E.Flatten(E.EncEntries(v, 0, t).chunks) + [0x01]| <= src.maxIndex
    ensures KeyStreamLoop(src, st, |st.objects| - 1, v, 0, t)
  {
  }

  /** `ReadAmf3Data` on the object tag, the anonymous dynamic trait, the
      pairs `WriteValue` wrote and the empty key: a dictionary of the
      decoded pairs. */
  lemma DictRead(src: Source, st: RState, v: E.Input, t: E.Tables, body: seq<byte>) returns (st': RState)
    requires E.HasEntries(v) && ReadableEntries(v.entries)
    requires StringsAgree(t.strings, st.strings) && |st.strings| + 2 * |v.entries| < Limit
    requires body == E.Flatten(E.EncEntries(v, 0, t).chunks)
    requires Holds(src.bin, st.index, [Object] + ([0x0b] + ([0x01] + (body + [0x01]))))
    requires st.index + |[Object] + ([0x0b] + ([0x01] + (body + [0x01])))| <= src.maxIndex
    ensures ReadData(src, st) == Ok((Ref(|st.objects|), st'))
    ensures st'.index == st.index + |[Object] + ([0x0b] + ([0x01] + (body + [0x01])))|
    ensures st'.objects == st.objects + [Dictionary(DecodedEntries(v.entries, 0))]
    ensures st'.traits == st.traits + [DecodedTrait([], [], false, true)]
    ensures StringsAgree(E.EncEntries(v, 0, t).tables.strings, st'.strings)
  {
    ReadDictHeader(src, st, body + [0x01]);
    var at := |st.objects|;
    var st4 := Intern(st.(index := st.index + 3, traits := st.traits + [DecodedTrait([], [], false, true)]), Dictionary([]));
    KeyStreamStart(src, st4, v, t);
    st' := EntriesRoundTrip(src, st4, at, v, 0, t);
    assert [] + DecodedEntries(v.entries, 0) == DecodedEntries(v.entries, 0);
  }

  /** `WriteIDictionary(IDictionary<string, object>)` of a dictionary of
      scalars not written before, then `ReadAmf3Data`: a new dictionary
      holding the same keys and the decoded values in order, appended to the
      object table and referenced by its position; the anonymous dynamic
      trait is appended to the trait table, the cursor ends right after the
      empty key and the string tables still agree. */
  lemma DictRoundTrip(src: Source, st: RState, v: E.Input, t: E.Tables)
    requires E.HasEntries(v) && v.key !in t.objects && ReadableEntries(v.entries)
    requires StringsAgree(t.strings, st.strings) && |st.strings| + 2 * |v.entries| < Limit
    requires Holds(src.bin, st.index, E.Flatten(E.EncObject(v, t).chunks))
    requires st.index + |E.Flatten(E.EncObject(v, t).chunks)| <= src.maxIndex
    ensures ReadData(src, st).Ok?
    ensures var (r, st') := ReadData(src, st).value;
      && r == Ref(|st.objects|)
      && st'.index == st.index + |E.Flatten(E.EncObject(v, t).chunks)|
      && st'.objects == st.objects + [Dictionary(DecodedEntries(v.entries, 0))]
      && st'.traits == st.traits + [DecodedTrait([], [], false, true)]
      && StringsAgree(E.EncObject(v, t).tables.strings, st'.strings)
  {
    var t' := t.(objects := t.objects[v.key := |t.objects|]);
    DictLayout(v, t);
    var st' := DictRead(src, st, v, t', E.Flatten(E.EncEntries(v, 0, t').chunks));
  }

  // ---------------------------------------------------------------------
  // Dictionaries of integers
  // ---------------------------------------------------------------------

  /** The pairs of an `IDictionary<string, int>` as boxed values. */
  function IntEntries(ints: seq<(Str, E.Int32)>): (r: seq<(Str, E.Input)>)
    ensures |r| == |ints|
    ensures forall k :: 0 <= k < |ints| ==> r[k] == (ints[k].0, E.Int(ints[k].1))
  {
    seq(|ints|, k requires 0 <= k < |ints| => (ints[k].0, E.Int(ints[k].1)))
  }

  /** The pairs `WriteIDictionary(IDictionary<string, int>)` writes are the
      pairs `WriteValue` writes for the boxed integers. */
  lemma {:induction false} IntsAsEntries(key: E.Key, ints: seq<(Str, E.Int32)>, i: nat, t: E.Tables)
    requires i <= |ints|
    ensures E.EncInts(ints, i, t) == E.EncEntries(E.Dict(key, IntEntries(ints)), i, t)
    decreases |ints| - i
  {
    if i < |ints| {
      var pair := E.EncIntEntry(ints[i], t);
      IntsAsEntries(key, ints, i + 1, pair.tables);
      assert E.EncEntry(IntEntries(ints)[i], t) == pair;
      assert E.EncInts(ints, i, t) == E.EncIntsAt(ints, i, t);
    }
  }

  /** `WriteIDictionary(IDictionary<string, int>)` writes exactly what
      `WriteIDictionary(IDictionary<string, object>)` writes for the same
      dictionary with its integers boxed. */
  lemma IntDictAsDict(key: E.Key, ints: seq<(Str, E.Int32)>, t: E.Tables)
    ensures E.EncValue(E.IntDict(key, ints), t) == E.EncObject(E.Dict(key, IntEntries(ints)), t)
  {
    var (found, r) := E.Reference(key, t);
    if !found {
      IntsAsEntries(key, ints, 0, r.tables);
      var body := E.EncInts(ints, 0, r.tables);
      assert [[Object]] + [[0x0b]] + [[0x01]] + body.chunks + [[0x01]]
          == [[Object]] + [[0x0b]] + [[0x01]] + (body.chunks + [[0x01]]);
    }
  }

  /** `WriteIDictionary(IDictionary<string, int>)` of a dictionary not
      written before, then `ReadAmf3Data`: a new dictionary holding the same
      keys and the decoded integers in order. */
  lemma IntDictRoundTrip(src: Source, st: RState, key: E.Key, ints: seq<(Str, E.Int32)>, t: E.Tables)
    requires key !in t.objects && ReadableEntries(IntEntries(ints))
    requires StringsAgree(t.strings, st.strings) && |st.strings| + 2 * |ints| < Limit
    requires Holds(src.bin, st.index, E.Flatten(E.EncValue(E.IntDict(key, ints), t).chunks))
    requires st.index + |E.Flatten(E.EncValue(E.IntDict(key, ints), t).chunks)| <= src.maxIndex
    ensures ReadData(src, st).Ok?
    ensures var (r, st') := ReadData(src, st).value;
      && r == Ref(|st.objects|)
      && st'.index == st.index + |E.Flatten(E.EncValue(E.IntDict(key, ints), t).chunks)|
      && st'.objects == st.objects + [Dictionary(DecodedEntries(IntEntries(ints), 0))]
      && st'.traits == st.traits + [DecodedTrait([], [], false, true)]
  {
    IntDictAsDict(key, ints, t);
    DictRoundTrip(src, st, E.Dict(key, IntEntries(ints)), t);
  }
}
