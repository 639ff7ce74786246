# FastAmf3: a verified model of the AMF3 codec

FastAmf3 serialises .NET values to AMF3 (Action Message Format, version 3)
and back. The format is compact and self-describing. The core is a pair of
classes:

- `Amf3Writer` appends tagged values to a growable byte buffer. The buffer
  doubles at most once per write and never grows past 64 KiB. The writer
  numbers every string and every container it writes, so a later
  occurrence of either goes out as a back-reference.
- `Amf3Reader<T>` walks a window of a byte array with a cursor. It decodes
  values and appends to three reference tables (objects, strings and
  traits), so back-references resolve to what was read earlier.

Shared vocabulary:

- **Trait** (`ClassDefinition`): the shape of a record. It holds a class
  name, member names and two flags, *externalizable* and *dynamic*.
- **U29**: the 29-bit variable-length integer. Lengths, references and
  small integers are written as U29.
- **Handle**: a U29 whose low bit says whether it is an index into a
  reference table or an inline length.

## How the model is built

Each side has a specification and an imperative class proved against it.

**Writer specification.** The pure functions of `Amf3Encoding`
(encoding.dfy) give, for a value and the writer's two tables:
- the bytes written, cut into the chunks the writer checks its capacity
  for;
- the tables left behind.

`Place` states the buffer growth rules.

**Writer class.** `Encoder.Amf3Writer` (amf3_writer.dfy) keeps the source's
fields: an `array<byte>` buffer, a cursor, a capacity, and the string and
object tables as maps. Every write method ensures `Wrote(...)`, which
means:
- the write succeeds exactly when the growth rules let its chunks in;
- on success the buffer holds the old contents followed by exactly the
  specified bytes;
- the tables and the capacity are the specified ones.

**Reader specification.** The functions of `Amf3Decoding` (decoding.dfy)
give, for the input and the reader's state (cursor and three tables):
- the decoded value, or the error;
- the state the read leaves.

Decoded containers live in the object table and are referred to by
position (`Ref`). A container is interned before its children are read,
so a child can refer to its parent.

**Reader class.** `Decoder.Amf3Reader` (amf3_reader.dfy) keeps the source's
cursor and three `List` tables as fields. Every read method ensures
`Agrees(...)`, which means:
- it returns the specified value;
- it leaves the specified state;
- it fails exactly when, and with the error, the specification says.

**Properties.**
- Round trips tie the two specifications together: U29, lengths, UTF-8
  text, strings and string references, integers, doubles, dates, byte
  arrays, lists of scalars, and dictionaries of scalars, including the
  integer-valued ones.
- Further lemmas cover the growth rules, the dense numbering of the
  writer's tables, and the decoder's behaviour at its edges.

C# exceptions become `Result`/`Outcome` failures carrying an error kind.
An `IndexOutOfRangeException` from an array access is `OutOfBounds`. The
`AmfException` messages are `Malformed`, `Unsupported` and, from `Expand`,
`CapacityExceeded`. The `ArgumentOutOfRangeException` of a reference-table
lookup is `BadReference`, and the `DecoderFallbackException` of the strict
UTF-8 decoder is `InvalidUtf8`. The remaining kinds are `InvalidCast`,
`DuplicateKey` and `Overflow`.

### Behaviour kept as written

The model follows the code at these points, including where it departs
from what the AMF3 design intends:

- `WriteObject` empties only the string table. The object table survives
  from one top-level value to the next, while `ReadNextObject` empties
  all three tables. A container written again at top level therefore goes
  out as a reference the reader cannot resolve
  (`RepeatedTopLevelObjectUnresolved`).
- `Expand` doubles the capacity only once. A write larger than the
  doubled buffer fails with an out-of-bounds error rather than
  `CapacityExceeded` (`DoublesOnlyOnce`). A writer created with size 0
  can never write a byte (`ZeroSizeNeverWrites`).
- `ReadAmf3ByteArray(true)` checks for the array tag 9, not the byte-array
  tag 12 (`TypedByteArrayChecksArrayTag`).
- An empty dictionary written by `WriteAmf3AssociativeArray` reads back as
  an empty object array (`EmptyAssociativeReadsAsArray`). That method is
  private and nothing calls it (FastAmf3/Amf3Writer.cs:703), so this
  concerns the method alone.
- `WriteFloat` writes the double tag 5 followed by only four bytes.
- Reads check the array bounds, not the logical end of the input. Only
  `GetLength` checks the logical end.
- `ReadByte` and `ReadAmf3Double` fail with `OutOfBounds` on a truncated
  input, not with a decoding error.

## Model

| member | source | states |
|---|---|---|
| Amf3Type.TagsDistinct | FastAmf3/Amf3Type.cs:22-75 | the fourteen tags are pairwise distinct, and a byte is a tag exactly when it is 0..12 or 17 |
| Amf3Type.TypeNameIsDollarType | FastAmf3/Amf3Type.cs:17 | the class-name key is the five code units of "$type" |
| ClassDefinitions.ClassDefinition.MemberCount | FastAmf3/ClassDefinition.cs:34-42 | 0 when the member array is missing, its length otherwise; positive only when the array exists |
| ClassDefinitions.ClassDefinition.MemberName | FastAmf3/ClassDefinition.cs:46 | below `MemberCount` the member array exists and the name is that member's name |
| ClassDefinitions.DecodedTrait | FastAmf3/ClassDefinition.cs:19-25 | a trait built from a name and member names has exactly those members in order, keeps both flags, and is typed exactly when the name is non-empty |
| ClassDefinitions.EmptyMembersCountZero | FastAmf3/ClassDefinition.cs:17 | the shared empty member array is empty, and a trait with it or with no array counts no members |
| U29.Masked | FastAmf3/Amf3Writer.cs:303 | the result is below 2^29, equal to the value on 0..2^29-1 and to value + 2^29 on the negative half of the signed range |
| U29.Size | FastAmf3/Amf3Writer.cs:304-341 | a U29 takes 1 to 4 bytes |
| U29.Encode | FastAmf3/Amf3Writer.cs:300-342 | the encoding has `Size` bytes, every byte but the last has its high bit set, and a short encoding ends in a byte below 0x80 |
| U29.ReadAcc | FastAmf3/Amf3Reader.cs:150-170 | a successful read consumes 1 to 4 bytes inside the array and yields a value below 2^29; the only failure is a read past the array |
| U29.SignExtend | FastAmf3/Amf3Reader.cs:171 | the result lies in the signed 29-bit range and masks back to the accumulator |
| U29.Read | FastAmf3/Amf3Reader.cs:148-174 | a successful read yields a value of the signed 29-bit range and consumes 1 to 4 bytes; the only failure is a read past the array |
| U29Properties.ReadAccOfEncode | FastAmf3/Amf3Reader.cs:148-171 | the accumulator read from the bytes of `Encode(v)` is the masked value, and the read stops right after them |
| U29Properties.RoundTrip | FastAmf3/Amf3Reader.cs:148-174 | every value of the signed 29-bit range written by `WriteU29` is read back unchanged, consuming exactly its bytes |
| U29Properties.EncodeDependsOnLow29Bits | FastAmf3/Amf3Writer.cs:303 | two arguments give the same bytes exactly when they agree modulo 2^29 |
| U29Properties.EncodeSize | FastAmf3/Amf3Writer.cs:304-341 | 1, 2, 3 or 4 bytes for masked values below 0x80, 0x4000, 0x200000 and above |
| U29Properties.ReadAcc2 | FastAmf3/Amf3Reader.cs:155-158 | two bytes with one continuation bit reassemble a value below 2^14 |
| U29Properties.ReadAcc3 | FastAmf3/Amf3Reader.cs:161-164 | three bytes reassemble a value below 2^21 |
| U29Properties.ReadAcc4 | FastAmf3/Amf3Reader.cs:167-169 | four bytes, the last carrying eight bits, reassemble a value below 2^29 |
| Utf8.UnitSize | FastAmf3/Amf3Writer.cs:776-787 | one code unit takes 1 to 3 bytes |
| Utf8.UnitBytes | FastAmf3/Amf3Writer.cs:746-765 | a unit's bytes number `UnitSize`, the first is ASCII exactly for units below 0x80, and the others are continuation bytes |
| Utf8.DecodeFirst | FastAmf3/Amf3Reader.cs:15 | a well-formed sequence yields one or two code units and consumes 1 to all of the bytes |
| Utf8Properties.EncodeAppend | FastAmf3/Amf3Writer.cs:743-767 | encoding distributes over concatenation |
| Utf8Properties.ByteCountIsEncodedLength | FastAmf3/Amf3Writer.cs:770-791 | `GetByteCount` is exactly the number of bytes `GetBytes` writes |
| Utf8Properties.DecodeFirstOfUnit | FastAmf3/Amf3Reader.cs:126 | the strict decoder recovers a non-surrogate unit from the writer's bytes, whatever follows |
| Utf8Properties.DecodeFirstOfPair | FastAmf3/Amf3Writer.cs:750-754 | a unit from U+0080 to U+07FF is recovered from its two bytes |
| Utf8Properties.DecodeFirstOfTriple | FastAmf3/Amf3Writer.cs:760-765 | a non-surrogate unit from U+0800 on is recovered from its three bytes |
| Utf8Properties.DecodeEncode | FastAmf3/Amf3Reader.cs:126 | text without surrogates survives the writer's encoding and the strict decoding unchanged |
| Utf8Properties.LoneSurrogateRejected | FastAmf3/Amf3Writer.cs:756-765 | the writer's bytes for a surrogate unit are rejected by the strict decoder |
| BigEndian.Bytes8 | FastAmf3/Amf3Writer.cs:570-581 | eight bytes, the most significant byte of the pattern first |
| BigEndian.Bytes4 | FastAmf3/Amf3Writer.cs:557-568 | four bytes, the most significant byte of the pattern first |
| BigEndian.Read8 | FastAmf3/Amf3Reader.cs:185-194 | succeeds exactly when eight bytes lie inside the array, and moves the cursor by eight |
| BigEndian.LittleEndianOfReversed | FastAmf3/Amf3Reader.cs:187-193 | reversing the bytes and reading them little-endian gives the big-endian pattern; this is the `BitConverter` path of `ReadAmf3Double` on a little-endian host |
| BigEndian.Read8OfBytes8 | FastAmf3/Amf3Reader.cs:185-194 | the reader reassembles exactly the double pattern the writer emitted, consuming its eight bytes |
| DoubleBits.Log2 | FastAmf3/Amf3Writer.cs:216 | the exponent of a positive number: 2^e <= m < 2^(e+1) |
| DoubleBits.Fraction | FastAmf3/Amf3Writer.cs:216 | the fraction field of the converted double fits in 52 bits |
| DoubleBits.Log2Int32 | FastAmf3/Amf3Writer.cs:216 | the exponent of an int32's magnitude is at most 31, so the conversion is exact |
| DoubleBits.Pow2Add | FastAmf3/Amf3Writer.cs:216 | 2^(a+b) = 2^a * 2^b |
| Amf3EncodingProperties.FlattenAppend | FastAmf3/Amf3Writer.cs:154-161 | two runs of chunks lay out as the first run's bytes followed by the second's |
| Amf3EncodingProperties.PlaceAppend | FastAmf3/Amf3Writer.cs:75-93 | growth over two runs is growth over the second from where the first left it, and a failure in the first is final |
| Amf3EncodingProperties.PlaceBounds | FastAmf3/Amf3Writer.cs:75-93 | after a successful write the bytes fit in the buffer, the capacity never shrinks, and it grows only with growth enabled and up to 64 KiB |
| Amf3EncodingProperties.PlaceWithinCapacity | FastAmf3/Amf3Writer.cs:156-159 | bytes that fit are written without growth |
| Amf3EncodingProperties.FixedBuffer | FastAmf3/Amf3Writer.cs:77-80 | with growth disabled a write succeeds exactly when its bytes fit, and the capacity stays |
| Amf3EncodingProperties.DoublesOnlyOnce | FastAmf3/Amf3Writer.cs:81-92 | a chunk longer than the doubled buffer leaves room for fails out of bounds |
| Amf3EncodingProperties.ZeroSizeNeverWrites | FastAmf3/Amf3Writer.cs:63-69 | a writer created with size 0 can only succeed in writing nothing |
| Amf3EncodingProperties.AddKeepsDense | FastAmf3/Amf3Writer.cs:359 | adding a new key at the next index keeps a table numbered 0..n-1 and grows it by one |
| Amf3TableProperties.StringChunksDense | FastAmf3/Amf3Writer.cs:261-276 | `WriteUTFBytes` keeps the string table densely numbered |
| Amf3TableProperties.ReferenceDense | FastAmf3/Amf3Writer.cs:349-362 | `WriteReference` keeps the object table densely numbered |
| Amf3TableProperties.EncValueDense | FastAmf3/Amf3Writer.cs:369-446 | every `WriteValue` keeps both tables densely numbered, so reference indices match the reader's positions |
| Amf3TableProperties.EncObjectDense | FastAmf3/Amf3Writer.cs:474-505 | a dynamic object's write keeps both tables dense |
| Amf3TableProperties.EncArrayDense | FastAmf3/Amf3Writer.cs:668-701 | an array's write keeps both tables dense |
| Amf3TableProperties.EncItemsDense | FastAmf3/Amf3Writer.cs:677-680 | the element loop keeps both tables dense |
| Amf3TableProperties.EncEntryDense | FastAmf3/Amf3Writer.cs:501-502 | one key/value pair keeps both tables dense |
| Amf3TableProperties.EncEntriesDense | FastAmf3/Amf3Writer.cs:499-503 | the pair loop keeps both tables dense |
| Amf3TableProperties.EncIntsDense | FastAmf3/Amf3Writer.cs:530-534 | the pair loop of an int dictionary keeps both tables dense |
| Amf3TableProperties.TopLevelDense | FastAmf3/Amf3Writer.cs:226-230 | `WriteObject` from dense tables leaves dense tables |
| Encoder.Amf3Writer.constructor | FastAmf3/Amf3Writer.cs:63-69 | a new writer is empty, over a fresh buffer of the given size that is also its reset buffer, with empty tables |
| Encoder.Amf3Writer.Expand | FastAmf3/Amf3Writer.cs:75-93 | succeeds exactly when growth is enabled and the request fits or the doubled capacity stays within 64 KiB; doubles once only when needed; keeps the bytes and tables |
| Encoder.Amf3Writer.Reset | FastAmf3/Amf3Writer.cs:98-122 | back to the original buffer and its capacity, empty, with both tables empty |
| Encoder.Amf3Writer.TrySkip | FastAmf3/Amf3Writer.cs:129-138 | moves the cursor exactly when the new position is within the capacity, and changes nothing else |
| Encoder.Amf3Writer.Reserve | FastAmf3/Amf3Writer.cs:156-159 | the capacity check before a write: succeeds exactly when `Room` allows `n` bytes, and then they fit |
| Encoder.Amf3Writer.WriteByte | FastAmf3/Amf3Writer.cs:154-161 | appends the byte; fails exactly when the buffer cannot grow for it |
| Encoder.Amf3Writer.WriteBytes | FastAmf3/Amf3Writer.cs:169-180 | appends the requested slice, or nothing for a null array; fails exactly on a bad range or a buffer that cannot hold it after one doubling |
| Encoder.Amf3Writer.WriteBoolean | FastAmf3/Amf3Writer.cs:145-148 | appends tag 3 for true and 2 for false |
| Encoder.Amf3Writer.WriteNull | FastAmf3/Amf3Writer.cs:295-298 | appends tag 1 |
| Encoder.Amf3Writer.WriteUndefined | FastAmf3/Amf3Writer.cs:287-290 | appends tag 0 |
| Encoder.Amf3Writer.WriteEmptyString | FastAmf3/Amf3Writer.cs:252-255 | writes exactly what `WriteUTFBytes("")` writes |
| Encoder.Amf3Writer.Append | FastAmf3/Amf3Writer.cs:304-311 | one capacity check for the whole chunk, then its bytes appended in order |
| Encoder.Amf3Writer.CopyIn | FastAmf3/Amf3Writer.cs:732-733 | a block copy appends the bytes and changes nothing else |
| Encoder.Amf3Writer.EncodeIn | FastAmf3/Amf3Writer.cs:594-595 | appends the UTF-8 bytes of the text and changes nothing else |
| Encoder.Amf3Writer.WriteU29 | FastAmf3/Amf3Writer.cs:300-342 | appends `U29.Encode(value)` in one capacity check |
| Encoder.Amf3Writer.WriteBigEndian | FastAmf3/Amf3Writer.cs:570-581 | appends the 8-byte pattern, most significant byte first |
| Encoder.Amf3Writer.WriteBigEndianSingle | FastAmf3/Amf3Writer.cs:557-568 | appends the 4-byte pattern, most significant byte first |
| Encoder.Amf3Writer.WriteDouble | FastAmf3/Amf3Writer.cs:186-190 | appends tag 5 and the 8-byte pattern |
| Encoder.Amf3Writer.WriteFloat | FastAmf3/Amf3Writer.cs:196-200 | appends tag 5 and only the 4-byte single pattern |
| Encoder.Amf3Writer.WriteInt | FastAmf3/Amf3Writer.cs:206-218 | tag 4 and the U29 inside the signed 29-bit range, otherwise tag 5 and the bits of the equal double |
| Encoder.Amf3Writer.WriteLength | FastAmf3/Amf3Writer.cs:638-645 | appends the inline handle `len * 2 + 1` |
| Encoder.Amf3Writer.WriteUtf8String | FastAmf3/Amf3Writer.cs:583-597 | appends the byte-length handle, then the UTF-8 bytes after one capacity check |
| Encoder.Amf3Writer.WriteUTFBytes | FastAmf3/Amf3Writer.cs:261-276 | "" as 0x01 with the table unchanged; a numbered string as its index handle; a new string numbered next and written inline |
| Encoder.Amf3Writer.WriteKey | FastAmf3/Amf3Writer.cs:278-281 | a key is written exactly as `WriteUTFBytes` writes it |
| Encoder.Amf3Writer.WriteUTF | FastAmf3/Amf3Writer.cs:236-247 | null as tag 1; otherwise tag 6 and what `WriteUTFBytes` writes |
| Encoder.Amf3Writer.WriteReference | FastAmf3/Amf3Writer.cs:349-362 | null changes nothing and reports false; a known identity writes its index handle and reports true; a new one is numbered next, nothing is written, and it reports false |
| Encoder.Amf3Writer.TagReference | FastAmf3/Amf3Writer.cs:545-549 | a type tag, then `WriteReference`; reports whether a reference ended the write |
| Encoder.Amf3Writer.WriteDateTime | FastAmf3/Amf3Writer.cs:543-553 | tag 8, then a reference, or 0x01 and the 8-byte milliseconds with the date numbered |
| Encoder.Amf3Writer.WriteAmf3ByteArray | FastAmf3/Amf3Writer.cs:719-734 | tag 12, then a reference, or the length handle and the bytes with the array numbered |
| Encoder.Amf3Writer.WriteBlock | FastAmf3/Amf3Writer.cs:728-733 | one capacity check for the whole payload, then one block copy |
| Encoder.Amf3Writer.WriteValue | FastAmf3/Amf3Writer.cs:369-446 | writes exactly `EncValue`, the branch of the first type test the value passes, and leaves the tables it specifies |
| Encoder.Amf3Writer.WriteObject | FastAmf3/Amf3Writer.cs:226-230 | empties the string table, keeps the object table, then writes the value |
| Encoder.Amf3Writer.WriteItems | FastAmf3/Amf3Writer.cs:677-680 | writes every element in order by `WriteValue`; a failing element fails the whole |
| Encoder.Amf3Writer.ItemsStep | FastAmf3/Amf3Writer.cs:679 | one element, written after the ones before it |
| Encoder.Amf3Writer.WriteEntry | FastAmf3/Amf3Writer.cs:501-502 | the key by `WriteUTFBytes`, then the value by `WriteValue` |
| Encoder.Amf3Writer.WriteEntries | FastAmf3/Amf3Writer.cs:499-503 | writes every pair in enumeration order |
| Encoder.Amf3Writer.EntriesStep | FastAmf3/Amf3Writer.cs:501-502 | one pair, written after the ones before it |
| Encoder.Amf3Writer.ObjectHeader | FastAmf3/Amf3Writer.cs:482-497 | tag 10, then a reference that ends the write, or the anonymous dynamic trait 0x0b 0x01 |
| Encoder.Amf3Writer.ObjectBody | FastAmf3/Amf3Writer.cs:499-504 | the pairs, then the closing empty key 0x01 |
| Encoder.Amf3Writer.WriteDynamic | FastAmf3/Amf3Writer.cs:482-505 | tag 10, a reference or the anonymous trait, the pairs and the closing 0x01 |
| Encoder.Amf3Writer.WriteClass | FastAmf3/Amf3Writer.cs:448-467 | an object of no other kind is written as a dynamic object of its readable members |
| Encoder.Amf3Writer.WriteIDictionary | FastAmf3/Amf3Writer.cs:474-505 | null as tag 1, otherwise a dynamic object of its pairs |
| Encoder.Amf3Writer.WriteIntEntry | FastAmf3/Amf3Writer.cs:532-533 | the key by `WriteUTFBytes`, then the value by `WriteInt` |
| Encoder.Amf3Writer.WriteInts | FastAmf3/Amf3Writer.cs:530-534 | writes every pair of an int dictionary in order |
| Encoder.Amf3Writer.IntsStep | FastAmf3/Amf3Writer.cs:532-533 | one pair, written after the ones before it |
| Encoder.Amf3Writer.WriteIntDictionary | FastAmf3/Amf3Writer.cs:513-536 | null as tag 1, otherwise a dynamic object whose values go out by `WriteInt` |
| Encoder.Amf3Writer.DenseHeader | FastAmf3/Amf3Writer.cs:675-676 | the count handle and the empty key of the associative part |
| Encoder.Amf3Writer.ArrayBody | FastAmf3/Amf3Writer.cs:675-680 | the count handle, the empty key and the elements |
| Encoder.Amf3Writer.WriteAmf3Array | FastAmf3/Amf3Writer.cs:668-681 | tag 9, then a reference, or the count, the empty key and the elements with the list numbered |
| Encoder.Amf3Writer.WriteAmf3Enumerable | FastAmf3/Amf3Writer.cs:683-701 | the same bytes as for a list, after a first pass that counts the elements |
| Encoder.Amf3Writer.WriteDense | FastAmf3/Amf3Writer.cs:668-701 | tag 9, a reference or the body of a dense array, whether the count is given or computed |
| Encoder.Amf3Writer.WriteAmf3AssociativeArray | FastAmf3/Amf3Writer.cs:703-717 | tag 9, then a reference, or an empty dense part, the pairs and the closing 0x01 |
| Encoder.Amf3Writer.AssociativeBody | FastAmf3/Amf3Writer.cs:710-716 | the empty dense part, the pairs and the closing 0x01 |
| Encoder.GetByteCount | FastAmf3/Amf3Writer.cs:770-791 | the loop total is the number of bytes of the encoding |
| Encoder.PutUnit | FastAmf3/Amf3Writer.cs:745-765 | one unit's 1 to 3 bytes at the offset, the rest of the buffer untouched |
| Encoder.GetBytes | FastAmf3/Amf3Writer.cs:739-768 | the UTF-8 bytes of the text at the offset, the rest of the buffer untouched |
| Amf3Decoding.Lookup | FastAmf3/Amf3Reader.cs:136 | an index inside the table yields its entry; any other index fails as a bad reference |
| Amf3Decoding.Add | FastAmf3/Amf3Reader.cs:248 | adding to a dictionary fails exactly when the key is present; otherwise the pair is appended and nothing else changes |
| Amf3Decoding.Decimal | FastAmf3/Amf3Reader.cs:372 | `i.ToString()` is a non-empty run of decimal digits |
| Amf3Decoding.ReadByte | FastAmf3/Amf3Reader.cs:108-111 | succeeds exactly inside the array, yielding the byte under the cursor and moving it by one |
| Amf3Decoding.TryReadType | FastAmf3/Amf3Reader.cs:113-121 | succeeds exactly when the byte under the cursor is the tag, and then consumes it |
| Amf3Decoding.ReadInt | FastAmf3/Amf3Reader.cs:148-174 | a successful read moves only the cursor, by 1 to 4 bytes |
| Amf3Decoding.ReadDouble | FastAmf3/Amf3Reader.cs:185-194 | a successful read moves only the cursor, by 8 bytes inside the array |
| Amf3Decoding.GetLength | FastAmf3/Amf3Reader.cs:431-439 | an accepted length fits before the logical end; a refusal is a decoding error |
| Amf3Decoding.ReadUtf8 | FastAmf3/Amf3Reader.cs:123-129 | a successful read moves only the cursor, by the length, inside the array |
| Amf3Decoding.ReadString | FastAmf3/Amf3Reader.cs:131-146 | a successful read consumes bytes, leaves objects and traits alone, and either keeps the string table or appends the string read |
| Amf3Decoding.ReadTrait | FastAmf3/Amf3Reader.cs:203-228 | a reference handle succeeds exactly for a known trait and returns it unchanged; an inline one appends the trait read; objects are never touched |
| Amf3Decoding.ReadNames | FastAmf3/Amf3Reader.cs:219-224 | the loop reads exactly `count` names, extending those read so far |
| Amf3Decoding.ReadBool | FastAmf3/Amf3Reader.cs:282-296 | accepts exactly the two boolean tags, true for tag 3, and consumes the byte |
| Amf3Decoding.Expect | FastAmf3/Amf3Reader.cs:318 | the optional tag check moves only the cursor |
| Amf3Decoding.RefTo | FastAmf3/Amf3Reader.cs:339 | a reference resolves exactly inside the object table, to its position |
| Amf3Decoding.ReadDate | FastAmf3/Amf3Reader.cs:316-330 | a successful read consumes bytes and only appends to the tables |
| Amf3Decoding.ReadXml | FastAmf3/Amf3Reader.cs:378-406 | a successful read consumes bytes and only appends to the tables; what it returns is stated by `ReadXmlKind`, `ReadXmlReference` and `ReadInlineXml` |
| Amf3Decoding.ReadByteArray | FastAmf3/Amf3Reader.cs:441-456 | a successful read consumes bytes and only appends to the tables |
| Amf3Decoding.ReadData | FastAmf3/Amf3Reader.cs:458-494 | a successful read consumes at least the tag and only appends to the tables |
| Amf3Decoding.ReadTagged | FastAmf3/Amf3Reader.cs:461-493 | each branch only appends to the tables and never moves the cursor back |
| Amf3Decoding.ReadArray | FastAmf3/Amf3Reader.cs:332-376 | a successful read consumes bytes and only appends to the tables |
| Amf3Decoding.ReadInlineArray | FastAmf3/Amf3Reader.cs:342-376 | a successful read consumes bytes and only appends to the tables |
| Amf3Decoding.ReadDenseArray | FastAmf3/Amf3Reader.cs:357-366 | the result refers to a new object array of exactly `length` elements |
| Amf3Decoding.ReadAssociative | FastAmf3/Amf3Reader.cs:347-355 | the result refers to a new dictionary interned at the first key; its keys are stated by `ReadAssociativeKeys` |
| Amf3Decoding.FinishAssociative | FastAmf3/Amf3Reader.cs:367-375 | the numbered elements fill only the dictionary; a failed key stream fails with its error; the keys are stated by `FinishAssociativeKeys` |
| Amf3Decoding.ReadDense | FastAmf3/Amf3Reader.cs:361-364 | the element loop fills only the array, which keeps its length |
| Amf3Decoding.ReadPairs | FastAmf3/Amf3Reader.cs:345-355 | the key stream fills only its dictionary |
| Amf3Decoding.ReadNumbered | FastAmf3/Amf3Reader.cs:369-373 | the numbered loop fills only its dictionary; its keys are stated by `ReadNumberedKeys` |
| Amf3Decoding.ReadObject | FastAmf3/Amf3Reader.cs:408-429 | a successful read consumes bytes and only appends to the tables |
| Amf3Decoding.ReadDynamic | FastAmf3/Amf3Reader.cs:267-279 | the result refers to a new dictionary |
| Amf3Decoding.SealedHeader | FastAmf3/Amf3Reader.cs:237-241 | a new object starts with the single entry "$type" holding the class name exactly when the name is non-empty, and empty otherwise |
| Amf3Decoding.ReadSealed | FastAmf3/Amf3Reader.cs:235-261 | the result refers to a new dictionary; its entries are stated by `ReadSealedKeys` |
| Amf3Decoding.ReadMembers | FastAmf3/Amf3Reader.cs:244-259 | the member loop fills only its dictionary; its keys are stated by `ReadMembersKeys` |
| Amf3Decoding.ReadNextObject | FastAmf3/Amf3Reader.cs:500-506 | a successful read consumes at least one byte |
| Decoder.Amf3Reader.constructor | FastAmf3/Amf3Reader.cs:71-78 | the cursor starts at the offset, the input ends `size` bytes later, and the tables are empty |
| Decoder.Amf3Reader.FromSegment | FastAmf3/Amf3Reader.cs:84-91 | the same over the segment's window, which lies inside the array |
| Decoder.Amf3Reader.Unfinished | FastAmf3/Amf3Reader.cs:55-58 | input remains exactly when fewer bytes were consumed than the input holds |
| Decoder.Amf3Reader.TrySkip | FastAmf3/Amf3Reader.cs:98-106 | moves exactly when the cursor stays strictly before the end, so a skip never finishes the input; the tables stay |
| Decoder.Amf3Reader.ReadByte | FastAmf3/Amf3Reader.cs:108-111 | returns and leaves what `Amf3Decoding.ReadByte` specifies |
| Decoder.Amf3Reader.TryReadType | FastAmf3/Amf3Reader.cs:113-121 | passes, and leaves the state, exactly as `Amf3Decoding.TryReadType` specifies |
| Decoder.Amf3Reader.ReadUTF8 | FastAmf3/Amf3Reader.cs:123-129 | agrees with `ReadUtf8` |
| Decoder.Amf3Reader.ReadAmf3UTF8 | FastAmf3/Amf3Reader.cs:131-146 | agrees with `ReadString` |
| Decoder.Amf3Reader.ReadAmf3Int | FastAmf3/Amf3Reader.cs:148-174 | agrees with `ReadInt` |
| Decoder.Amf3Reader.ReadAmf3Double | FastAmf3/Amf3Reader.cs:185-194 | agrees with `ReadDouble` |
| Decoder.Amf3Reader.AddEntry | FastAmf3/Amf3Reader.cs:248 | agrees with `Add` |
| Decoder.Amf3Reader.ReadClassDefinition | FastAmf3/Amf3Reader.cs:203-228 | agrees with `ReadTrait`; the member loop follows `ReadNames` |
| Decoder.Amf3Reader.ReadAmf3Bool | FastAmf3/Amf3Reader.cs:282-296 | agrees with `ReadBool` |
| Decoder.Amf3Reader.ReadAmf3Integer | FastAmf3/Amf3Reader.cs:298-302 | agrees with `ReadInteger`: tag 4, then a U29 |
| Decoder.Amf3Reader.ReadAmf3Number | FastAmf3/Amf3Reader.cs:304-308 | agrees with `ReadNumber`: tag 5, then eight bytes |
| Decoder.Amf3Reader.ReadAmf3String | FastAmf3/Amf3Reader.cs:310-314 | agrees with `ReadText`: tag 6, then a string |
| Decoder.Amf3Reader.ReadAmf3DateTime | FastAmf3/Amf3Reader.cs:316-330 | agrees with `ReadDate` |
| Decoder.Amf3Reader.ReadAmf3XmlDocument | FastAmf3/Amf3Reader.cs:378-406 | agrees with `ReadXml`, whose results `ReadXmlKind`, `ReadXmlReference` and `ReadInlineXml` describe |
| Decoder.Amf3Reader.ReadAmf3ByteArray | FastAmf3/Amf3Reader.cs:441-456 | agrees with `ReadByteArray` |
| Decoder.Amf3Reader.ReadAmf3Data | FastAmf3/Amf3Reader.cs:458-494 | agrees with `ReadData` |
| Decoder.Amf3Reader.ReadAmf3Array | FastAmf3/Amf3Reader.cs:332-376 | agrees with `ReadArray` |
| Decoder.Amf3Reader.ReadInlineArray | FastAmf3/Amf3Reader.cs:342-376 | agrees with `Amf3Decoding.ReadInlineArray`; the key loop creates the dictionary at the first key |
| Decoder.Amf3Reader.ReadDenseArray | FastAmf3/Amf3Reader.cs:357-366 | agrees with `Amf3Decoding.ReadDenseArray` |
| Decoder.Amf3Reader.FinishAssociative | FastAmf3/Amf3Reader.cs:367-375 | agrees with `Amf3Decoding.FinishAssociative`, so the numbered elements go under "0" .. "length-1" after the keyed entries (`FinishAssociativeKeys`) |
| Decoder.Amf3Reader.ReadAmf3Object | FastAmf3/Amf3Reader.cs:408-429 | agrees with `ReadObject` |
| Decoder.Amf3Reader.ReadEntry | FastAmf3/Amf3Reader.cs:272-277 | one turn of the key loop leaves what remains of `ReadPairs` unchanged, or fails with its error |
| Decoder.Amf3Reader.ReadAmf3Dynamic | FastAmf3/Amf3Reader.cs:267-279 | agrees with `ReadDynamic` |
| Decoder.Amf3Reader.ReadMember | FastAmf3/Amf3Reader.cs:244-249 | one turn of the member loop leaves what remains of `ReadMembers` unchanged, or fails with its error |
| Decoder.Amf3Reader.ReadAmf3ObjectOf | FastAmf3/Amf3Reader.cs:235-261 | agrees with `ReadSealed`, so the new object holds "$type" exactly for a named class, then the members under their names in order, and key-stream entries only for a dynamic trait (`ReadSealedKeys`) |
| Decoder.Amf3Reader.ReadNextObject | FastAmf3/Amf3Reader.cs:500-506 | agrees with `Amf3Decoding.ReadNextObject` |
| Amf3DecodingProperties.ReadIntOf | FastAmf3/Amf3Reader.cs:148-174 | `ReadAmf3Int` on a U29 `WriteU29` wrote yields the value and consumes exactly its bytes |
| Amf3DecodingProperties.LengthRoundTrip | FastAmf3/Amf3Reader.cs:431-439 | a length below 2^27 written by `WriteLength` reads back as its handle, and `GetLength` accepts it when it fits |
| Amf3DecodingProperties.LongLengthRefused | FastAmf3/Amf3Writer.cs:638-645 | a length of 2^27 or more, which the writer still writes, reads back as a negative handle that `GetLength` refuses |
| Amf3DecodingProperties.ReadUtf8Of | FastAmf3/Amf3Reader.cs:123-129 | `ReadUTF8` of `GetByteCount(s)` bytes of the writer's encoding yields `s` |
| Amf3DecodingProperties.StringReferenceRoundTrip | FastAmf3/Amf3Reader.cs:134-137 | a string reference handle reads back as the same string when both tables agree |
| Amf3DecodingProperties.NewStringRoundTrip | FastAmf3/Amf3Reader.cs:138-145 | new text reads back as itself and is appended to the string table |
| Amf3DecodingProperties.StringsAgreeAppend | FastAmf3/Amf3Writer.cs:274 | numbering a new string on both sides keeps the two tables in agreement |
| Amf3DecodingProperties.StringRoundTrip | FastAmf3/Amf3Writer.cs:261-276 | whatever `WriteUTFBytes` wrote (empty, reference or new text) reads back as the string, consuming exactly its bytes, with the tables still in agreement |
| Amf3DecodingProperties.IntRoundTrip | FastAmf3/Amf3Writer.cs:206-218 | a written int32 reads back as the integer inside the 29-bit range and as the equal double outside it |
| Amf3DecodingProperties.ReadSmallInt | FastAmf3/Amf3Reader.cs:471-472 | tag 4 and a U29 read back as the integer |
| Amf3DecodingProperties.NumberRoundTrip | FastAmf3/Amf3Writer.cs:186-190 | a written double reads back bit for bit, consuming nine bytes |
| Amf3DecodingProperties.TextRoundTrip | FastAmf3/Amf3Writer.cs:236-247 | a written string reads back as text, with the tables still in agreement |
| Amf3DecodingProperties.ReadDataText | FastAmf3/Amf3Reader.cs:475-476 | tag 6 hands over to `ReadAmf3UTF8` |
| Amf3DecodingProperties.ScalarRoundTrip | FastAmf3/Amf3Writer.cs:371-398 | every scalar `WriteValue` writes (null, boolean, int, number, surrogate-free text) reads back as its decoded value, consuming exactly its bytes, with objects and traits untouched |
| Amf3DecodingProperties.DateRoundTrip | FastAmf3/Amf3Writer.cs:543-553 | a new date takes ten bytes and reads back with the same milliseconds, boxed and appended to the object table |
| Amf3DecodingProperties.DateLayout | FastAmf3/Amf3Writer.cs:543-553 | a new date is tag 8, 0x01 and the 8-byte pattern |
| Amf3DecodingProperties.ReadNewDate | FastAmf3/Amf3Reader.cs:316-330 | those bytes read back as the date, boxed and interned |
| Amf3DecodingProperties.ReadInlineDate | FastAmf3/Amf3Reader.cs:320-329 | an inline handle and eight bytes read back as the boxed date, appended to the object table after nine bytes |
| Amf3DecodingProperties.ReadByteArrayInline | FastAmf3/Amf3Reader.cs:449-455 | an inline handle copies exactly `length` bytes and interns the copy |
| Amf3DecodingProperties.ByteArrayLayout | FastAmf3/Amf3Writer.cs:719-734 | a new byte array is tag 12, the length handle and the bytes |
| Amf3DecodingProperties.ReadNewByteArray | FastAmf3/Amf3Reader.cs:441-456 | those bytes read back as a reference to a copy appended to the object table |
| Amf3DecodingProperties.ReadInlineBytes | FastAmf3/Amf3Reader.cs:444-455 | the length handle and the bytes read back as an interned copy |
| Amf3DecodingProperties.ReadDataByteArray | FastAmf3/Amf3Reader.cs:486-487 | tag 12 hands over to `ReadAmf3ByteArray(false)` |
| Amf3DecodingProperties.ByteArrayRoundTrip | FastAmf3/Amf3Writer.cs:719-734 | a new byte array reads back as a reference to an equal copy, appended to the object table, consuming exactly its bytes |
| Amf3DecodingProperties.ReadXmlKind | FastAmf3/Amf3Reader.cs:378-406 | a successful read yields `null` or a reference to an XML document of the object table |
| Amf3DecodingProperties.ReadXmlReference | FastAmf3/Amf3Reader.cs:389-394 | an even handle 2i succeeds exactly when i is a position of the object table, and yields the document there, or `null` for an entry of another kind; otherwise it fails with `BadReference` |
| Amf3DecodingProperties.ReadXmlInline | FastAmf3/Amf3Reader.cs:396-405 | an odd handle, its length and the text read (none for length 0) give a reference to a new document appended to the object table |
| Amf3DecodingProperties.ReadXmlText | FastAmf3/Amf3Reader.cs:396-405 | the length handle of n bytes decoding to a text reads back as a new document holding the text, after exactly those bytes |
| Amf3DecodingProperties.InlineText | FastAmf3/Amf3Reader.cs:397 | the length handle and UTF-8 bytes of surrogate-free text decode back to the text, and only empty text has length 0 |
| Amf3DecodingProperties.ReadInlineXml | FastAmf3/Amf3Reader.cs:396-405 | the length handle and UTF-8 bytes of surrogate-free text read back as a reference to a new document holding that text, appended to the object table |
| Amf3DecodingProperties.ReadDataXml | FastAmf3/Amf3Reader.cs:483-485 | tags 7 and 11 both hand over to `ReadAmf3XmlDocument(false)` |
| Amf3ContainerContents.ReadPairsKeys | FastAmf3/Amf3Reader.cs:271-277 | the key loop keeps the entries already there and adds one entry per non-empty key, the first under the first key; an empty first key adds nothing |
| Amf3ContainerContents.ReadNumberedKeys | FastAmf3/Amf3Reader.cs:369-373 | the numbered loop adds exactly one entry per element, under `i.ToString()` in order, after the entries already there |
| Amf3ContainerContents.FinishAssociativeKeys | FastAmf3/Amf3Reader.cs:367-375 | the `length` numbered elements follow the keyed entries, under "0" .. "length-1" |
| Amf3ContainerContents.ReadAssociativeKeys | FastAmf3/Amf3Reader.cs:343-375 | an associative array is the keyed pairs under non-empty keys, starting with the first key, followed by exactly `length` entries under "0" .. "length-1" |
| Amf3ContainerContents.ReadMembersKeys | FastAmf3/Amf3Reader.cs:244-259 | one entry per remaining declared member, under its name in member order; further entries only for a dynamic trait, under non-empty keys |
| Amf3ContainerContents.ReadSealedKeys | FastAmf3/Amf3Reader.cs:235-261 | the new object holds "$type" exactly when the class name is non-empty, then exactly `MemberCount` entries under the member names in order, and nothing more for a trait that is not dynamic |
| Amf3DecoderQuirks.InlineTraitFlags | FastAmf3/Amf3Reader.cs:209-218 | an inline trait handle carries the externalizable flag, then the dynamic flag, then the member count, and the trait read has exactly those |
| Amf3DecoderQuirks.NegativeMemberCountRefused | FastAmf3/Amf3Reader.cs:218 | a negative member count makes the trait read fail |
| Amf3DecoderQuirks.ExternalizableRefused | FastAmf3/Amf3Reader.cs:419-422 | an object with an inline externalizable trait is refused, whatever follows |
| Amf3DecoderQuirks.AnonymousDynamicHeader | FastAmf3/Amf3Reader.cs:203-228 | the writer's header 0x0b 0x01 is an inline dynamic trait with no name and no members, appended to the trait table |
| Amf3DecoderQuirks.TagDispatch | FastAmf3/Amf3Reader.cs:458-494 | a byte that is no tag is refused, and tag 17 is skipped before the value after it |
| Amf3DecoderQuirks.TypedByteArrayChecksArrayTag | FastAmf3/Amf3Reader.cs:443 | with the tag check on, the byte-array tag is refused and the array tag accepted |
| Amf3DecoderQuirks.EmptyXmlInterned | FastAmf3/Amf3Reader.cs:396-405 | empty inline XML is still interned as a document and referenced by position |
| Amf3DecoderQuirks.DigitsValue | FastAmf3/Amf3Reader.cs:372 | the number a digit string spells is non-negative |
| Amf3DecoderQuirks.DecimalValue | FastAmf3/Amf3Reader.cs:372 | `i.ToString()` spells `i` |
| Amf3DecoderQuirks.DecimalInjective | FastAmf3/Amf3Reader.cs:369-373 | the numbered keys are pairwise distinct, so the element loop never hits a duplicate of its own |
| Amf3DecoderQuirks.EmptyAssociativeReadsAsArray | FastAmf3/Amf3Writer.cs:703-717 | an empty associative array is the bytes 9 0x01 0x01 and reads back as an empty object array |
| Amf3DecoderQuirks.RepeatedTopLevelObjectUnresolved | FastAmf3/Amf3Writer.cs:226-230 | a container written again at top level is a reference that `ReadNextObject` cannot resolve |
| Amf3DecoderQuirks.TopLevelReferenceLayout | FastAmf3/Amf3Writer.cs:482-487 | a container written before goes out as tag 10 and its reference handle |
| Amf3DecoderQuirks.ReadObjectReferenceAfterReset | FastAmf3/Amf3Reader.cs:500-506 | with the tables just emptied, no object reference resolves |
| Amf3CollectionProperties.ScalarThen | FastAmf3/Amf3Reader.cs:458-494 | a scalar followed by more bytes reads back and leaves the cursor in front of them |
| Amf3CollectionProperties.DecodedFrom | FastAmf3/Amf3Reader.cs:361-364 | the decoded items from position `i` on number as many as the items |
| Amf3CollectionProperties.ItemsLength | FastAmf3/Amf3Writer.cs:677-680 | the elements take at least one byte each |
| Amf3CollectionProperties.ItemsRoundTrip | FastAmf3/Amf3Reader.cs:361-364 | the dense element loop over what `WriteValue` wrote stores each decoded item at its position and stops right after them |
| Amf3CollectionProperties.ListLayout | FastAmf3/Amf3Writer.cs:668-681 | a new list is tag 9, the count handle, the empty key and the elements |
| Amf3CollectionProperties.ReadListHeader | FastAmf3/Amf3Reader.cs:336-360 | tag 9, a count handle and the empty key start a dense array of that many slots |
| Amf3CollectionProperties.DenseArrayRoundTrip | FastAmf3/Amf3Reader.cs:357-366 | the dense array holds the decoded items and is appended to the object table |
| Amf3CollectionProperties.ListRead | FastAmf3/Amf3Reader.cs:332-366 | the whole array reads back as a reference to the decoded items |
| Amf3CollectionProperties.ListRoundTrip | FastAmf3/Amf3Writer.cs:668-681 | a new list of scalars reads back as a new object array of the decoded items in order, referenced by position, consuming exactly its bytes |
| Amf3CollectionProperties.DecodedEntries | FastAmf3/Amf3Reader.cs:272-277 | the decoded pairs from position `i` on number as many as the pairs |
| Amf3CollectionProperties.HasKeyAppend | FastAmf3/Amf3Reader.cs:275 | a key is present after an append exactly when it was before or is the appended one |
| Amf3CollectionProperties.PairRead | FastAmf3/Amf3Reader.cs:274-276 | a written pair reads back as its key, then its decoded value |
| Amf3CollectionProperties.PairStep | FastAmf3/Amf3Reader.cs:272-277 | one pair of the key stream is added to the dictionary, and the stream goes on in front of the rest |
| Amf3CollectionProperties.FreshKeysAfterAdd | FastAmf3/Amf3Reader.cs:275 | the keys still to come stay absent after a distinct key is added |
| Amf3CollectionProperties.EntriesRoundTrip | FastAmf3/Amf3Reader.cs:271-277 | the key stream over the written pairs adds every decoded pair in order and stops after the empty key |
| Amf3CollectionProperties.DictLayout | FastAmf3/Amf3Writer.cs:482-505 | a new dictionary is tag 10, 0x0b 0x01, the pairs and the empty key |
| Amf3CollectionProperties.ReadDictHeader | FastAmf3/Amf3Reader.cs:408-426 | tag 10 and 0x0b 0x01 add the anonymous trait and start a new dictionary |
| Amf3CollectionProperties.DictRead | FastAmf3/Amf3Reader.cs:267-279 | the whole object reads back as a reference to the decoded pairs |
| Amf3CollectionProperties.DictRoundTrip | FastAmf3/Amf3Writer.cs:474-505 | a new dictionary of scalars under distinct keys reads back as a new dictionary with the same keys and decoded values in order, consuming exactly its bytes |
| Amf3CollectionProperties.IntEntries | FastAmf3/Amf3Writer.cs:530-534 | the int pairs, boxed, keep their keys and order |
| Amf3CollectionProperties.IntsAsEntries | FastAmf3/Amf3Writer.cs:530-534 | the int pair loop writes what the object pair loop writes for the boxed values |
| Amf3CollectionProperties.IntDictAsDict | FastAmf3/Amf3Writer.cs:513-536 | an int dictionary is written exactly as the same dictionary with its integers boxed |
| Amf3CollectionProperties.IntDictRoundTrip | FastAmf3/Amf3Writer.cs:513-536 | a new int dictionary reads back as a new dictionary with the same keys and the decoded integers in order |

## Left out

- Reflection: `WriteClass` is given the readable members of the object as
  a sequence of pairs. The getter enumeration of FastAmf3/JSON_196.cs is
  not part of this model, and neither is the console demo
  FastAmf3/Program.cs.
- `IExternalizable`: an externalizable value is modelled as the sequence
  of values its `WriteExternal` writes, each by `WriteValue`. The callback
  itself is foreign code.
- Floating point is not modelled:
  - doubles and singles are opaque bit patterns;
  - the `Int64`, `UInt64`, `Single` and `Decimal` to double conversions
    are left out, since the writer receives the double's bits;
  - the conversions between `DateTime` ticks and milliseconds are left
    out, since both sides carry the bit pattern of the milliseconds.

  Only `(double)int` in `WriteInt` is computed, exactly.
- XML: `LoadXml` and `OuterXml` are library calls, so a document is the
  text it was loaded from. `WriteXmlDocument` is private and never called,
  so it is not modelled.
- Text with surrogate code units: the writer encodes each surrogate on
  its own, which the strict decoder rejects (`LoneSurrogateRejected`). The
  string round trips cover only text without surrogates.
- The `#else` branches of the writer (FastAmf3/Amf3Writer.cs:598-636) are
  dead code, because `unsafe` is defined.
- Runtime type tests: `WriteValue`'s chain of `is` tests is modelled as
  the constructors of the `Input` datatype, one per branch. The unboxing
  `(Int32)data` of a `Byte`, `SByte`, `Int16`, `UInt16`, `Char` or
  `UInt32`, which throws `InvalidCastException` in .NET
  (FastAmf3/Amf3Writer.cs:382-384), is not modelled: the integer branch
  takes an int32.
- Dictionary enumeration order is given as a sequence of pairs.
- Object identity is modelled as a key (`Key`): reference identity for
  containers, and value equality for boxed dates. The reader's `m_bin`
  is an immutable sequence, because the reader never writes it.
- The reader's state after a failure is not specified beyond the error
  itself. The C# tables may be left half-filled.
- Encoder.Amf3Writer.WriteValue: after a failed write only the class
  invariant is promised; the partial bytes and tables are not described.
- Encoder.Amf3Writer.Reset: the replacement of a table holding more than
  five entries by a new dictionary is not observable, so it is modelled as
  emptying the table.
- 32-bit overflow of `m_index + length` and of `len << 1` is not
  modelled: positions and lengths are unbounded integers.
- Amf3DecodingProperties.StringRoundTrip: it covers only strings whose
  UTF-8 length is below 2^27. `LongLengthRefused` shows what happens
  beyond that.
- Amf3CollectionProperties.ListRoundTrip: it covers lists of scalars
  only. Nested containers and shared references are not covered.
- Amf3CollectionProperties.DictRoundTrip: it covers only scalars under
  distinct, non-empty, surrogate-free keys. An empty key ends the key
  stream early, and a repeated key is refused by the dictionary.
- Encoder.Amf3Writer: the class invariant does not track that the tables
  are densely numbered. Density is proved on the specification functions
  instead (`Amf3TableProperties`).
- Encoder.Amf3Writer.constructor: the size is a `nat`, so a negative
  size, for which `new byte[size]` throws `OverflowException`
  (FastAmf3/Amf3Writer.cs:65), is not modelled.
- Encoder.Amf3Writer.TrySkip: the cursor is a `nat`, so the requires
  excludes a negative skip past the start of the buffer. The C# method
  accepts it (FastAmf3/Amf3Writer.cs:129-138), and the next write then
  throws `IndexOutOfRangeException`.
- The `Count`, `Capacity`, `Array` and `Offset` getters are plain field
  reads and carry no contract.
