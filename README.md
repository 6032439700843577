# Apache Ignite: binary objects, the near update response and the DHT update future

This project models three pieces of Apache Ignite's cache internals in Dafny and proves properties of them.

- **`BinaryObjectImpl`** (modules `BinaryPrimitives` and `BinaryObjects`). A binary object is a view `(arr, start)` onto an encoded object inside a byte array.
  - The model covers the header reads (total length, type id, hash code, schema id, flags and footer offset) and `detached`, `detach`, `valueBytes` and `prepareForCache`.
  - It also covers `fieldByOrder`: the footer-slot arithmetic and the dispatch on the field's type tag.
  - The object's two serialised forms are modelled too: the direct message (`writeTo`/`readFrom`) and the `Externalizable` form (`writeExternal`/`readExternal`).
- **`GridNearAtomicSingleUpdateResponse`** (module `NearUpdateResponses`). This is the answer the primary node sends for a single-key atomic update. It holds:
  - one failed key and one remap key;
  - an error that gathers causes as suppressed exceptions;
  - parallel lists of near-value indexes and values;
  - skipped indexes;
  - TTL and expire-time side lists, created lazily and back-filled with -1.

  It travels as a 14-field direct message: the supertype's fields are states 0..2 and its own are states 3..13.
- **`GridDhtAtomicAbstractUpdateFuture`** (module `DhtUpdateFutures`). This is the primary node's coordinator of the backup updates.
  - It lazily maps one update request to each backup or near-reader node, never mapping the local node as a backup, and sends the requests.
  - It counts each mapped node once, whether through an ack, a node-left event or a failed send, using the request's one-shot flag.
  - It completes when the count reaches the number of mappings.
  - It runs its completion side effects once.

`DirectMessage` models the resumable `MessageWriter`/`MessageReader` protocol that both messages use. A `writeTo`/`readFrom` call is a fall-through switch on the writer's or reader's state. A field either fits completely in the current buffer or the call returns false without progress, and the next call resumes at that field.

How each part is written:
- Stateful parts are classes: `BinaryObject`, `NearUpdateResponse`, `DhtUpdateFuture`, `MessageWriter` and `MessageReader`. Their methods change fields in place, loop where the source loops, and state the new state through a specification function (`Snapshot()`/`Data()`).
- The properties are lemmas about those functions.
- The future is verified over arbitrary sequences of events (`Run`), not over threads.

Byte order is little-endian throughout. Header positions, flags and type tags are Ignite's.

## Model

| member | source | states |
|---|---|---|
| Common.Wrap32 | modules/core/src/main/java/org/apache/ignite/internal/binary/BinaryObjectImpl.java:263 | Java `int` addition wraps: the result is in the int range, congruent to the exact sum mod 2^32, and equal to it when no overflow occurs |
| BinaryPrimitives.UnsignedOfLittleEndian | modules/core/src/main/java/org/apache/ignite/internal/binary/BinaryObjectImpl.java:155-157 | reading back the n little-endian bytes of a value below 256^n gives that value |
| BinaryPrimitives.ReadIntStored | modules/core/src/main/java/org/apache/ignite/internal/binary/BinaryObjectImpl.java:224-226 | an int stored at a position is exactly what `readInt` returns there |
| BinaryPrimitives.ReadLongStored | modules/core/src/main/java/org/apache/ignite/internal/binary/BinaryObjectImpl.java:283-286 | a long stored at a position is exactly what `readLong` returns there |
| BinaryObjects.CopyIsDetached | modules/core/src/main/java/org/apache/ignite/internal/binary/BinaryObjectImpl.java:162-180 | the `length()` bytes copied from `start` form a well-formed, detached object whose own bytes are the whole copy, with the same type id, hash code, schema id, flags and footer offset |
| BinaryObjects.TotalLength | modules/core/src/main/java/org/apache/ignite/internal/binary/BinaryObjectImpl.java:155-157 | `length()`: the int at TOTAL_LEN_POS after start, always in the Java int range; `ReadIntStored` states it is the int stored there |
| BinaryObjects.TypeId | modules/core/src/main/java/org/apache/ignite/internal/binary/BinaryObjectImpl.java:224-226 | `typeId()`: the int at TYPE_ID_POS after start, in the int range |
| BinaryObjects.HashCode | modules/core/src/main/java/org/apache/ignite/internal/binary/BinaryObjectImpl.java:417-419 | `hashCode()`: the int at HASH_CODE_POS after start, in the int range |
| BinaryObjects.SchemaId | modules/core/src/main/java/org/apache/ignite/internal/binary/BinaryObjectImpl.java:422-424 | `schemaId()`: the int at SCHEMA_ID_POS after start, in the int range |
| BinaryObjects.SchemaOffset | modules/core/src/main/java/org/apache/ignite/internal/binary/BinaryObjectImpl.java:256 | the footer offset at SCHEMA_OR_RAW_OFF_POS, in the int range; `FieldPosFromFooter` states where it leads |
| BinaryObjects.Flags | modules/core/src/main/java/org/apache/ignite/internal/binary/BinaryObjectImpl.java:258 | the header flags short; its compact-footer and offset-width bits are read by `IsCompactFooter`, `FieldOffsetLength` and `FieldIdLength`, and `FieldPosFromFooter` states the field position they yield |
| BinaryObjects.IsDetached | modules/core/src/main/java/org/apache/ignite/internal/binary/BinaryObjectImpl.java:178-180 | `detached()` is `start == 0 && length() == arr.length`; on a well-formed object that means its bytes are exactly the whole array |
| BinaryObjects.FieldOffsetPos | modules/core/src/main/java/org/apache/ignite/internal/binary/BinaryObjectImpl.java:263 | the footer slot position of field `order`, computed with Java `int` wrap-around, so always in the int range |
| BinaryObjects.FieldPos | modules/core/src/main/java/org/apache/ignite/internal/binary/BinaryObjectImpl.java:265-273 | no position exactly when the footer slot lies outside the array, a read the source makes without a bounds check and the model turns into `Failed(OutOfBounds)`; otherwise an int, and within 64 KiB after start when offsets are 1 or 2 bytes wide |
| BinaryObjects.DecodeField | modules/core/src/main/java/org/apache/ignite/internal/binary/BinaryObjectImpl.java:275-378 | a found value was read at an in-range tag; the default case reports the position it was given; `DecodeEncodedField` and `DecodedIsEncodable` relate it to the encoder |
| BinaryObjects.DecodedIsEncodable | modules/core/src/main/java/org/apache/ignite/internal/binary/BinaryObjectImpl.java:275-378 | every value the decoder yields is one the encoder can write, or the opaque default; in particular a decoded DECIMAL never has a negative scale |
| BinaryObjects.FieldByOrder | modules/core/src/main/java/org/apache/ignite/internal/binary/BinaryObjectImpl.java:252-387 | a found value comes from an existing footer slot and is encodable or the opaque default |
| BinaryObjects.FieldByOrderFindsEncoded | modules/core/src/main/java/org/apache/ignite/internal/binary/BinaryObjectImpl.java:252-387 | when footer slot `order` holds offset off and a field is encoded at start + off, `fieldByOrder(order)` returns exactly that field |
| BinaryObjects.BinaryObject.Length | modules/core/src/main/java/org/apache/ignite/internal/binary/BinaryObjectImpl.java:155-157 | the object's `length()` header field, in the int range |
| BinaryObjects.BinaryObject.Detached | modules/core/src/main/java/org/apache/ignite/internal/binary/BinaryObjectImpl.java:178-180 | when true on a well-formed object, the object's bytes are its whole array |
| BinaryObjects.BinaryObject.TypeIdField | modules/core/src/main/java/org/apache/ignite/internal/binary/BinaryObjectImpl.java:224-226 | the object's type id header field, in the int range |
| BinaryObjects.BinaryObject.HashCodeField | modules/core/src/main/java/org/apache/ignite/internal/binary/BinaryObjectImpl.java:417-419 | the object's hash code header field, in the int range |
| BinaryObjects.BinaryObject.SchemaIdField | modules/core/src/main/java/org/apache/ignite/internal/binary/BinaryObjectImpl.java:422-424 | the object's schema id header field, in the int range |
| BinaryObjects.BinaryObject.Field | modules/core/src/main/java/org/apache/ignite/internal/binary/BinaryObjectImpl.java:252-387 | `fieldByOrder` on the object's array and start: a found value is encodable or the opaque default |
| BinaryObjects.BinaryObject.constructor | modules/core/src/main/java/org/apache/ignite/internal/binary/BinaryObjectImpl.java:87-94 | the object views the given array from the given start; detaching is not allowed yet |
| BinaryObjects.BinaryObject.Empty | modules/core/src/main/java/org/apache/ignite/internal/binary/BinaryObjectImpl.java:78-80 | the no-argument object has no array |
| BinaryObjects.BinaryObject.SetDetachAllowed | modules/core/src/main/java/org/apache/ignite/internal/binary/BinaryObjectImpl.java:185-187 | only the flag changes |
| BinaryObjects.CopyOut | modules/core/src/main/java/org/apache/ignite/internal/binary/BinaryObjectImpl.java:166-170 | a new array holding exactly `len` bytes of the source from `from` |
| BinaryObjects.BinaryObject.Detach | modules/core/src/main/java/org/apache/ignite/internal/binary/BinaryObjectImpl.java:162-173 | the same object when detaching is not allowed (whatever its bytes) or it is already detached; otherwise a new detached object over a new array holding exactly the object's bytes at start 0 |
| BinaryObjects.BinaryObject.ValueBytes | modules/core/src/main/java/org/apache/ignite/internal/binary/BinaryObjectImpl.java:123-134 | the object's bytes: its own array when detached, a new array otherwise |
| BinaryObjects.BinaryObject.PrepareForCache | modules/core/src/main/java/org/apache/ignite/internal/binary/BinaryObjectImpl.java:137-142 | this object itself when it is detached or detaching is not allowed; for a well-formed object, one with the same bytes that is detached iff this one is or detaching is allowed |
| BinaryObjects.ClearSignBit | modules/core/src/main/java/org/apache/ignite/internal/binary/BinaryObjectImpl.java:364-365 | `scale & 0x7FFFFFFF` of a negative scale is scale + 2^31, and a non-negative scale is kept |
| BinaryObjects.FieldPosFromFooter | modules/core/src/main/java/org/apache/ignite/internal/binary/BinaryObjectImpl.java:255-273 | when the footer slot of field `order` (after the id when the footer is not compact, 1, 2 or 4 bytes wide by the flags) holds offset `off`, the field is found at start + off |
| BinaryObjects.DecodeEncodedField | modules/core/src/main/java/org/apache/ignite/internal/binary/BinaryObjectImpl.java:275-378 | every field value of the fast-path tags, encoded at a position, is decoded back to itself by the tag dispatch |
| BinaryObjects.DecodeEncodedWide | modules/core/src/main/java/org/apache/ignite/internal/binary/BinaryObjectImpl.java:278-297 | round trip for INT, LONG, BOOLEAN and SHORT fields |
| BinaryObjects.DecodeEncodedNarrow | modules/core/src/main/java/org/apache/ignite/internal/binary/BinaryObjectImpl.java:298-317 | round trip for BYTE, CHAR, FLOAT and DOUBLE fields (floating point as raw bits) |
| BinaryObjects.DecodeEncodedComposite | modules/core/src/main/java/org/apache/ignite/internal/binary/BinaryObjectImpl.java:318-355 | round trip for STRING, DATE, TIMESTAMP and UUID fields |
| BinaryObjects.DecodeEncodedDecimal | modules/core/src/main/java/org/apache/ignite/internal/binary/BinaryObjectImpl.java:356-378 | round trip for DECIMAL (sign carried in the scale's sign bit) and NULL fields |
| BinaryObjects.DecimalPartsStored | modules/core/src/main/java/org/apache/ignite/internal/binary/BinaryObjectImpl.java:356-363 | the stored scale, the magnitude length and the magnitude bytes of an encoded DECIMAL read back as written |
| BinaryObjects.DecimalSignConvention | modules/core/src/main/java/org/apache/ignite/internal/binary/BinaryObjectImpl.java:356-373 | a DECIMAL with a negative stored scale decodes as a negated magnitude with scale stored + 2^31; otherwise as a positive magnitude with the stored scale |
| BinaryObjects.WireFormAddressesSameObject | modules/core/src/main/java/org/apache/ignite/internal/binary/BinaryObjectImpl.java:474-488 | the two fields written (array, start) address a well-formed object with the same bytes, type id and hash code, detached when detaching is allowed |
| BinaryObjects.BinaryObject.WriteTo | modules/core/src/main/java/org/apache/ignite/internal/binary/BinaryObjectImpl.java:464-493 | the writer ends as one resumable call over header (113, 3) and fields [array slice or whole array, 0 or start] leaves it |
| BinaryObjects.BinaryObject.ReadFrom | modules/core/src/main/java/org/apache/ignite/internal/binary/BinaryObjectImpl.java:496-522 | the reader and the object's (arr, start) end as one resumable read call of kinds [byte array, int] leaves them |
| BinaryObjects.BinaryObject.WriteExternal | modules/core/src/main/java/org/apache/ignite/internal/binary/BinaryObjectImpl.java:437-450 | appends the external form: big-endian length, the bytes, big-endian start; only the object's own bytes and start 0 when detaching is allowed, else the whole array and the start |
| BinaryObjects.BinaryObject.ReadExternal | modules/core/src/main/java/org/apache/ignite/internal/binary/BinaryObjectImpl.java:453-461 | the result is the parse of the stream; on success the object holds a fresh array with exactly the bytes read and the start read; a negative length leaves the object alone; a stream cut short leaves a fresh array of the announced length holding the bytes that arrived, then zeros, and the old start |
| BinaryObjects.ExternalRoundTrip | modules/core/src/main/java/org/apache/ignite/internal/binary/BinaryObjectImpl.java:437-461 | `readExternal` of `writeExternal`'s output, whatever follows it in the stream, succeeds, leaves the rest unread, and restores a well-formed object with the same bytes: detached when detaching was allowed, else the very same array and start |
| DirectMessage.FieldsFromWrites | modules/core/src/main/java/org/apache/ignite/internal/processors/cache/distributed/dht/atomic/GridNearAtomicSingleUpdateResponse.java:382-449 | the fall-through switch from the current state writes the following fields in order, stops at the first that does not fit, advances the state past exactly the fields written, and reports completion iff it reached the end |
| DirectMessage.WriteCallResumes | modules/core/src/main/java/org/apache/ignite/internal/binary/BinaryObjectImpl.java:464-493 | a `writeTo` call keeps the output a prefix of header + fields, only extends it, and reports completion iff everything is written |
| DirectMessage.FieldsFromCompletes | modules/core/src/main/java/org/apache/ignite/internal/binary/BinaryObjectImpl.java:473-490 | a buffer with room for all remaining fields completes the call |
| DirectMessage.ChunkedWriteEqualsOneShot | modules/core/src/main/java/org/apache/ignite/internal/processors/cache/distributed/dht/atomic/GridNearAtomicSingleUpdateResponse.java:369-452 | however the output is cut into buffers, a completed write has produced exactly the header followed by all fields, the same as one large enough buffer |
| DirectMessage.ReadFromReads | modules/core/src/main/java/org/apache/ignite/internal/processors/cache/distributed/dht/atomic/GridNearAtomicSingleUpdateResponse.java:464-553 | the read switch assigns the incoming fields in state order, advances past exactly the fields read, and completes iff all are read |
| DirectMessage.ReadCallResumes | modules/core/src/main/java/org/apache/ignite/internal/binary/BinaryObjectImpl.java:496-522 | a `readFrom` call keeps the read prefix consistent with the incoming fields, never moves the state back, and on completion holds exactly the fields sent |
| DirectMessage.ChunkedReadDecodes | modules/core/src/main/java/org/apache/ignite/internal/processors/cache/distributed/dht/atomic/GridNearAtomicSingleUpdateResponse.java:455-556 | however the input is cut into buffers, a completed read holds exactly the fields sent |
| DirectMessage.WriteCase | modules/core/src/main/java/org/apache/ignite/internal/processors/cache/distributed/dht/atomic/GridNearAtomicSingleUpdateResponse.java:383-387 | one switch case: the field is written and the state incremented, or the call ends with false and no progress |
| DirectMessage.ReadCase | modules/core/src/main/java/org/apache/ignite/internal/processors/cache/distributed/dht/atomic/GridNearAtomicSingleUpdateResponse.java:465-471 | one switch case: the field of the expected kind is read and, when complete, the state incremented; otherwise the call ends with false |
| NearUpdateResponses.FailedKeysCount | modules/core/src/main/java/org/apache/ignite/internal/processors/cache/distributed/dht/atomic/GridNearAtomicSingleUpdateResponse.java:148-150 | the count is 0 or 1, and 1 exactly when a failed key is set |
| NearUpdateResponses.RemapKeysCount | modules/core/src/main/java/org/apache/ignite/internal/processors/cache/distributed/dht/atomic/GridNearAtomicSingleUpdateResponse.java:188-190 | the count is 0 or 1, and 1 exactly when a remap key is set |
| NearUpdateResponses.FailedKey | modules/core/src/main/java/org/apache/ignite/internal/processors/cache/distributed/dht/atomic/GridNearAtomicSingleUpdateResponse.java:153-157 | `failedKey(0)` is present exactly when `failedKeysCount()` is 1 |
| NearUpdateResponses.RemapKey | modules/core/src/main/java/org/apache/ignite/internal/processors/cache/distributed/dht/atomic/GridNearAtomicSingleUpdateResponse.java:181-185 | `remapKey(0)` is present exactly when `remapKeysCount()` is 1 |
| NearUpdateResponses.FailedKeyRecorded | modules/core/src/main/java/org/apache/ignite/internal/processors/cache/distributed/dht/atomic/GridNearAtomicSingleUpdateResponse.java:291-295 | after `addFailedKey` the key is the failed key, an error exists with its original message (or the fixed one when new), the cause is appended after the earlier ones, and nothing else changes |
| NearUpdateResponses.FailuresAccumulate | modules/core/src/main/java/org/apache/ignite/internal/processors/cache/distributed/dht/atomic/GridNearAtomicSingleUpdateResponse.java:322-327 | over any number of failures the error is created once and keeps every cause in order, and the last key is the failed key |
| NearUpdateResponses.NearUpdateResponse.constructor | modules/core/src/main/java/org/apache/ignite/internal/processors/cache/distributed/dht/atomic/GridNearAtomicSingleUpdateResponse.java:113-120 | node id and future version set, every other field null |
| NearUpdateResponses.NearUpdateResponse.RemapKeys | modules/core/src/main/java/org/apache/ignite/internal/processors/cache/distributed/dht/atomic/GridNearAtomicSingleUpdateResponse.java:174-178 | only the remap key changes, to the request's key |
| NearUpdateResponses.NearUpdateResponse.SetFailedKeysError | modules/core/src/main/java/org/apache/ignite/internal/processors/cache/distributed/dht/atomic/GridNearAtomicSingleUpdateResponse.java:322-327 | the response becomes `WithFailedKeysError` of the old one |
| NearUpdateResponses.NearUpdateResponse.AddFailedKey | modules/core/src/main/java/org/apache/ignite/internal/processors/cache/distributed/dht/atomic/GridNearAtomicSingleUpdateResponse.java:291-295 | the response becomes `WithFailedKey` of the old one |
| NearUpdateResponses.NearUpdateResponse.AddFailedKeys | modules/core/src/main/java/org/apache/ignite/internal/processors/cache/distributed/dht/atomic/GridNearAtomicSingleUpdateResponse.java:298-306 | a null collection leaves the key alone, a one-key collection sets it; the cause is recorded either way |
| NearUpdateResponses.NearUpdateResponse.AddFailedKeysOfRequest | modules/core/src/main/java/org/apache/ignite/internal/processors/cache/distributed/dht/atomic/GridNearAtomicSingleUpdateResponse.java:309-315 | the request's key becomes the failed key and the cause is recorded |
| NearUpdateResponses.NewPaddedList | modules/core/src/main/java/org/apache/ignite/internal/processors/cache/distributed/dht/atomic/GridNearAtomicSingleUpdateResponse.java:212-213 | keyIdx copies of -1 (none for a non-positive keyIdx) |
| NearUpdateResponses.NearUpdateResponse.AddNearTtl | modules/core/src/main/java/org/apache/ignite/internal/processors/cache/distributed/dht/atomic/GridNearAtomicSingleUpdateResponse.java:207-231 | the response becomes `WithNearTtl` of the old one |
| NearUpdateResponses.SideListAddRecords | modules/core/src/main/java/org/apache/ignite/internal/processors/cache/distributed/dht/atomic/GridNearAtomicSingleUpdateResponse.java:207-231 | one more call for the next key index keeps a side list equal to -1 before the first non-negative value and the passed values from then on |
| NearUpdateResponses.WithNearTtlsRecords | modules/core/src/main/java/org/apache/ignite/internal/processors/cache/distributed/dht/atomic/GridNearAtomicSingleUpdateResponse.java:207-231 | any run of calls for consecutive key indexes keeps both side lists recorded that way |
| NearUpdateResponses.ConsecutiveNearTtls | modules/core/src/main/java/org/apache/ignite/internal/processors/cache/distributed/dht/atomic/GridNearAtomicSingleUpdateResponse.java:234-253 | after calls for key indexes 0..n-1, each created list has length n, and `nearTtl(i)`/`nearExpireTime(i)` return the value passed for i, or -1 when i preceded the list's creation or the list was never created |
| NearUpdateResponses.NearTtl | modules/core/src/main/java/org/apache/ignite/internal/processors/cache/distributed/dht/atomic/GridNearAtomicSingleUpdateResponse.java:245-253 | -1 when the TTL list was never created; `ConsecutiveNearTtls` states what it returns after `addNearTtl` calls |
| NearUpdateResponses.NearExpireTime | modules/core/src/main/java/org/apache/ignite/internal/processors/cache/distributed/dht/atomic/GridNearAtomicSingleUpdateResponse.java:234-242 | -1 when the expire-time list was never created; `ConsecutiveNearTtls` states what it returns after `addNearTtl` calls |
| NearUpdateResponses.IsNearValueIndex | modules/core/src/main/java/org/apache/ignite/internal/processors/cache/distributed/dht/atomic/GridNearAtomicSingleUpdateResponse.java:281-283 | `isNearValueIndex`; `NearValueAdded` states that an added index is reported and earlier ones stay reported |
| NearUpdateResponses.NearValue | modules/core/src/main/java/org/apache/ignite/internal/processors/cache/distributed/dht/atomic/GridNearAtomicSingleUpdateResponse.java:286-288 | `nearValue(idx)`; `NearValueAdded` states it returns the value added at that position |
| NearUpdateResponses.NearValueAdded | modules/core/src/main/java/org/apache/ignite/internal/processors/cache/distributed/dht/atomic/GridNearAtomicSingleUpdateResponse.java:193-203 | the index and value lists stay in lockstep, the new pair sits at the same position, the index becomes (and earlier ones stay) near-value indexes, and the TTLs are recorded as `addNearTtl` does |
| NearUpdateResponses.NearUpdateResponse.AddNearValue | modules/core/src/main/java/org/apache/ignite/internal/processors/cache/distributed/dht/atomic/GridNearAtomicSingleUpdateResponse.java:193-203 | the response becomes `WithNearValue` of the old one |
| NearUpdateResponses.IsNearSkippedIndex | modules/core/src/main/java/org/apache/ignite/internal/processors/cache/distributed/dht/atomic/GridNearAtomicSingleUpdateResponse.java:276-278 | `isNearSkippedIndex`; `SkippedIndexAdded` states that an added index is reported and earlier ones stay reported |
| NearUpdateResponses.SkippedIndexAdded | modules/core/src/main/java/org/apache/ignite/internal/processors/cache/distributed/dht/atomic/GridNearAtomicSingleUpdateResponse.java:266-278 | the index becomes (and earlier ones stay) skipped, no side list is created, and the TTL and expire time for it read -1 |
| NearUpdateResponses.NearUpdateResponse.AddSkippedIndex | modules/core/src/main/java/org/apache/ignite/internal/processors/cache/distributed/dht/atomic/GridNearAtomicSingleUpdateResponse.java:266-273 | the response becomes `WithSkippedIndex` of the old one |
| NearUpdateResponses.MarshalGuards | modules/core/src/main/java/org/apache/ignite/internal/processors/cache/distributed/dht/atomic/GridNearAtomicSingleUpdateResponse.java:331-353 | both guarded steps are idempotent, never overwrite a value already there, and produce bytes (or an error) exactly when one of the two is present |
| NearUpdateResponses.NearUpdateResponse.PrepareMarshal | modules/core/src/main/java/org/apache/ignite/internal/processors/cache/distributed/dht/atomic/GridNearAtomicSingleUpdateResponse.java:334-335 | the response becomes `Prepared` of the old one |
| NearUpdateResponses.NearUpdateResponse.FinishUnmarshal | modules/core/src/main/java/org/apache/ignite/internal/processors/cache/distributed/dht/atomic/GridNearAtomicSingleUpdateResponse.java:352-353 | the response becomes `Finished` of the old one |
| NearUpdateResponses.WithViewOfView | modules/core/src/main/java/org/apache/ignite/internal/processors/cache/distributed/dht/atomic/GridNearAtomicSingleUpdateResponse.java:465-553 | assigning the 14 wire fields of a response gives that response, except for the transient node id and error |
| NearUpdateResponses.ViewWellKinded | modules/core/src/main/java/org/apache/ignite/internal/processors/cache/distributed/dht/atomic/GridNearAtomicSingleUpdateResponse.java:382-449 | each written field has the kind its state reads |
| NearUpdateResponses.ResponseRoundTrip | modules/core/src/main/java/org/apache/ignite/internal/processors/cache/distributed/dht/atomic/GridNearAtomicSingleUpdateResponse.java:331-556 | however the fields are cut into buffers, a completed read gives the sender's response except for the receiver's node id, and after `finishUnmarshal` the receiver's error is the unmarshalled bytes of the sender's |
| NearUpdateResponses.NearUpdateResponse.SuperWriteTo | modules/core/src/main/java/org/apache/ignite/internal/processors/cache/distributed/dht/atomic/GridNearAtomicSingleUpdateResponse.java:370-372 | the supertype's part of `writeTo` advances the one-call write spec through states 0..2 |
| NearUpdateResponses.NearUpdateResponse.WriteTo | modules/core/src/main/java/org/apache/ignite/internal/processors/cache/distributed/dht/atomic/GridNearAtomicSingleUpdateResponse.java:369-452 | the writer ends as one resumable call over header (41, 14) and the 14 fields in state order leaves it |
| NearUpdateResponses.NearUpdateResponse.SuperReadFrom | modules/core/src/main/java/org/apache/ignite/internal/processors/cache/distributed/dht/atomic/GridNearAtomicSingleUpdateResponse.java:455-461 | the supertype's part of `readFrom` advances the one-call read spec through states 0..2 and assigns what it read |
| NearUpdateResponses.NearUpdateResponse.AssignField | modules/core/src/main/java/org/apache/ignite/internal/processors/cache/distributed/dht/atomic/GridNearAtomicSingleUpdateResponse.java:464-553 | the assignment of one switch case: field k of the response takes the value read and nothing else changes |
| NearUpdateResponses.NearUpdateResponse.ReadField | modules/core/src/main/java/org/apache/ignite/internal/processors/cache/distributed/dht/atomic/GridNearAtomicSingleUpdateResponse.java:464-553 | one switch case: the field is assigned what was read, and the read spec advances one state or stops |
| NearUpdateResponses.NearUpdateResponse.ReadFrom | modules/core/src/main/java/org/apache/ignite/internal/processors/cache/distributed/dht/atomic/GridNearAtomicSingleUpdateResponse.java:455-556 | the reader and every wire field of the response end as one resumable read call of the 14 kinds leaves them; the node id and error are untouched |
| DhtUpdateFutures.WaitForExchange | modules/core/src/main/java/org/apache/ignite/internal/processors/cache/distributed/dht/atomic/GridDhtAtomicAbstractUpdateFuture.java:129 | the constructor's `waitForExchange` flag; `CompleteFuture` and `CompleteFutureMonotone` state what it decides |
| DhtUpdateFutures.CompleteFuture | modules/core/src/main/java/org/apache/ignite/internal/processors/cache/distributed/dht/atomic/GridDhtAtomicAbstractUpdateFuture.java:276-281 | an exchange never waits for the future when the topology was locked, when the request is a server fast-map one, or when the exchange's version is not newer than the request's; `CompleteFutureMonotone` adds that waiting is monotone in the version |
| DhtUpdateFutures.CompleteFutureMonotone | modules/core/src/main/java/org/apache/ignite/internal/processors/cache/distributed/dht/atomic/GridDhtAtomicAbstractUpdateFuture.java:276-281 | no wait for a version not newer than the request's or on a locked topology; a wait at one version is a wait at every later one |
| DhtUpdateFutures.OnResponseOnce | modules/core/src/main/java/org/apache/ignite/internal/processors/cache/distributed/dht/atomic/GridDhtAtomicAbstractUpdateFuture.java:493 | the one-shot flag reports true only the first time and changes nothing but itself |
| DhtUpdateFutures.AddEntryToAllKeeps | modules/core/src/main/java/org/apache/ignite/internal/processors/cache/distributed/dht/atomic/GridDhtAtomicAbstractUpdateFuture.java:162-252 | adding entries never removes a mapping or changes a response flag; new requests have not responded |
| DhtUpdateFutures.AddEntryToAllMaps | modules/core/src/main/java/org/apache/ignite/internal/processors/cache/distributed/dht/atomic/GridDhtAtomicAbstractUpdateFuture.java:162-252 | for distinct nodes, exactly the eligible nodes end up mapped, each with the entry appended to its request (a new one when missing), and all other mappings are unchanged |
| DhtUpdateFutures.WriteEntryNeverMapsLocal | modules/core/src/main/java/org/apache/ignite/internal/processors/cache/distributed/dht/atomic/GridDhtAtomicAbstractUpdateFuture.java:162-199 | `addWriteEntry` never creates a mapping for the local node |
| DhtUpdateFutures.Finish | modules/core/src/main/java/org/apache/ignite/internal/processors/cache/distributed/dht/atomic/GridDhtAtomicAbstractUpdateFuture.java:376-397 | takes effect exactly on a future not yet done and leaves it done; an ineffective call changes nothing; an effective one records the error and keeps the mappings and the counter |
| DhtUpdateFutures.Register | modules/core/src/main/java/org/apache/ignite/internal/processors/cache/distributed/dht/atomic/GridDhtAtomicAbstractUpdateFuture.java:486-511 | counts exactly a mapped node not yet counted, raising the counter by one; otherwise changes nothing; keeps the mapped nodes, the send log and the failures; a done future stays done |
| DhtUpdateFutures.Send | modules/core/src/main/java/org/apache/ignite/internal/processors/cache/distributed/dht/atomic/GridDhtAtomicAbstractUpdateFuture.java:461-480 | the node is appended to the send log and the mapped nodes are kept; a successful send changes nothing else; a done future stays done |
| DhtUpdateFutures.SendAll | modules/core/src/main/java/org/apache/ignite/internal/processors/cache/distributed/dht/atomic/GridDhtAtomicAbstractUpdateFuture.java:358-361 | the send log grows by the listed nodes in order; the mapped nodes are kept; a done future stays done |
| DhtUpdateFutures.MapRequests | modules/core/src/main/java/org/apache/ignite/internal/processors/cache/distributed/dht/atomic/GridDhtAtomicAbstractUpdateFuture.java:343-353 | keeps the mapped nodes; with no mapping the future is done and nothing is sent, otherwise every listed node is sent to in order |
| DhtUpdateFutures.RecordResult | modules/core/src/main/java/org/apache/ignite/internal/processors/cache/distributed/dht/atomic/GridDhtAtomicAbstractUpdateFuture.java:298-326 | a response with an error appends its failed keys and error to the near response's failures; the counter rises by one exactly for a mapped node not yet counted |
| DhtUpdateFutures.DhtUpdateFuture.constructor | modules/core/src/main/java/org/apache/ignite/internal/processors/cache/distributed/dht/atomic/GridDhtAtomicAbstractUpdateFuture.java:112-132 | no mapping, counter 0, not done |
| DhtUpdateFutures.DhtUpdateFuture.AddToMappings | modules/core/src/main/java/org/apache/ignite/internal/processors/cache/distributed/dht/atomic/GridDhtAtomicAbstractUpdateFuture.java:218-252 | the loop over nodes leaves exactly the mappings of `AddEntryToAll`, and nothing else changes |
| DhtUpdateFutures.DhtUpdateFuture.AddWriteEntry | modules/core/src/main/java/org/apache/ignite/internal/processors/cache/distributed/dht/atomic/GridDhtAtomicAbstractUpdateFuture.java:146-200 | the state becomes the `AddWrite` step of the old one |
| DhtUpdateFutures.DhtUpdateFuture.AddNearWriteEntries | modules/core/src/main/java/org/apache/ignite/internal/processors/cache/distributed/dht/atomic/GridDhtAtomicAbstractUpdateFuture.java:210-253 | the state becomes the `AddNear` step of the old one |
| DhtUpdateFutures.DhtUpdateFuture.AddContinuousQueryClosure | modules/core/src/main/java/org/apache/ignite/internal/processors/cache/distributed/dht/atomic/GridDhtAtomicAbstractUpdateFuture.java:366-373 | on a future not done, the closure is appended |
| DhtUpdateFutures.DhtUpdateFuture.RunClosures | modules/core/src/main/java/org/apache/ignite/internal/processors/cache/distributed/dht/atomic/GridDhtAtomicAbstractUpdateFuture.java:385-388 | each registered closure is applied to the success flag once, in order, and nothing else changes |
| DhtUpdateFutures.DhtUpdateFuture.OnDone | modules/core/src/main/java/org/apache/ignite/internal/processors/cache/distributed/dht/atomic/GridDhtAtomicAbstractUpdateFuture.java:376-397 | state and result are those of `Finish` |
| DhtUpdateFutures.DhtUpdateFuture.RegisterResponse | modules/core/src/main/java/org/apache/ignite/internal/processors/cache/distributed/dht/atomic/GridDhtAtomicAbstractUpdateFuture.java:486-511 | state and result are those of `Register` |
| DhtUpdateFutures.DhtUpdateFuture.SendRequest | modules/core/src/main/java/org/apache/ignite/internal/processors/cache/distributed/dht/atomic/GridDhtAtomicAbstractUpdateFuture.java:461-480 | the state becomes `Send` of the old one |
| DhtUpdateFutures.DhtUpdateFuture.Map | modules/core/src/main/java/org/apache/ignite/internal/processors/cache/distributed/dht/atomic/GridDhtAtomicAbstractUpdateFuture.java:343-361 | given the map's iteration order (each mapped node once), the state becomes the `MapEvent` step of the old one |
| DhtUpdateFutures.DhtUpdateFuture.OnResult | modules/core/src/main/java/org/apache/ignite/internal/processors/cache/distributed/dht/atomic/GridDhtAtomicAbstractUpdateFuture.java:298-326 | the state becomes the `Result` step of the old one |
| DhtUpdateFutures.DhtUpdateFuture.OnDeferredResult | modules/core/src/main/java/org/apache/ignite/internal/processors/cache/distributed/dht/atomic/GridDhtAtomicAbstractUpdateFuture.java:333-338 | the state becomes the `DeferredResult` step of the old one |
| DhtUpdateFutures.DhtUpdateFuture.OnNodeLeft | modules/core/src/main/java/org/apache/ignite/internal/processors/cache/distributed/dht/atomic/GridDhtAtomicAbstractUpdateFuture.java:284-289 | the state becomes the `NodeLeft` step, and the result says whether the node was counted |
| DhtUpdateFutures.CounterBounded | modules/core/src/main/java/org/apache/ignite/internal/processors/cache/distributed/dht/atomic/GridDhtAtomicAbstractUpdateFuture.java:491-505 | the counter is between 0 and the number of mappings |
| DhtUpdateFutures.FinishOnce | modules/core/src/main/java/org/apache/ignite/internal/processors/cache/distributed/dht/atomic/GridDhtAtomicAbstractUpdateFuture.java:376-397 | the first `onDone` records the outcome, marks all keys failed only on error, runs every closure once with the success flag, and applies the callback once under FULL_SYNC; every later call returns false and changes nothing |
| DhtUpdateFutures.RegisterOnce | modules/core/src/main/java/org/apache/ignite/internal/processors/cache/distributed/dht/atomic/GridDhtAtomicAbstractUpdateFuture.java:486-511 | true exactly for a mapped node not yet counted, raising the counter by one; false leaves the state unchanged; a second registration of the same node is false |
| DhtUpdateFutures.RegisterCompletes | modules/core/src/main/java/org/apache/ignite/internal/processors/cache/distributed/dht/atomic/GridDhtAtomicAbstractUpdateFuture.java:504-505 | on a future not done, a counted registration completes it successfully exactly when the counter reaches the number of mappings |
| DhtUpdateFutures.SendKeeps | modules/core/src/main/java/org/apache/ignite/internal/processors/cache/distributed/dht/atomic/GridDhtAtomicAbstractUpdateFuture.java:461-480 | one send keeps the invariant and the mapped nodes, and hands exactly that request to the transport |
| DhtUpdateFutures.SendAllKeeps | modules/core/src/main/java/org/apache/ignite/internal/processors/cache/distributed/dht/atomic/GridDhtAtomicAbstractUpdateFuture.java:358-361 | sending all keeps the invariant and the mapped nodes, and hands each listed request to the transport once, in order |
| DhtUpdateFutures.SendAllCountsFailures | modules/core/src/main/java/org/apache/ignite/internal/processors/cache/distributed/dht/atomic/GridDhtAtomicAbstractUpdateFuture.java:468-479 | a mapped node whose send failed has been counted afterwards |
| DhtUpdateFutures.MapSendsOrCompletes | modules/core/src/main/java/org/apache/ignite/internal/processors/cache/distributed/dht/atomic/GridDhtAtomicAbstractUpdateFuture.java:343-353 | with no mapping `map()` completes the future (successfully if it was not done) and sends nothing; otherwise it sends every listed request; outside FULL_SYNC it applies the callback once |
| DhtUpdateFutures.AllSendsFailing | modules/core/src/main/java/org/apache/ignite/internal/processors/cache/distributed/dht/atomic/GridDhtAtomicAbstractUpdateFuture.java:343-361 | when every send fails, `map()` itself completes the future |
| DhtUpdateFutures.AddEntryKeepsInv | modules/core/src/main/java/org/apache/ignite/internal/processors/cache/distributed/dht/atomic/GridDhtAtomicAbstractUpdateFuture.java:146-253 | adding entries keeps the invariant |
| DhtUpdateFutures.RegisterKeeps | modules/core/src/main/java/org/apache/ignite/internal/processors/cache/distributed/dht/atomic/GridDhtAtomicAbstractUpdateFuture.java:486-511 | a registration keeps the invariant and, outside FULL_SYNC, the callback count |
| DhtUpdateFutures.RecordResultKeeps | modules/core/src/main/java/org/apache/ignite/internal/processors/cache/distributed/dht/atomic/GridDhtAtomicAbstractUpdateFuture.java:298-326 | a backup's result keeps the invariant and, outside FULL_SYNC, the callback count |
| DhtUpdateFutures.StepKeeps | modules/core/src/main/java/org/apache/ignite/internal/processors/cache/distributed/dht/atomic/GridDhtAtomicAbstractUpdateFuture.java:284-511 | every event keeps the invariant; outside FULL_SYNC only `map()` changes the callback count, by one |
| DhtUpdateFutures.RunKeeps | modules/core/src/main/java/org/apache/ignite/internal/processors/cache/distributed/dht/atomic/GridDhtAtomicAbstractUpdateFuture.java:343-511 | over any sequence of events the invariant holds, and outside FULL_SYNC the callback fired once per `map()` |
| DhtUpdateFutures.CallbackOnce | modules/core/src/main/java/org/apache/ignite/internal/processors/cache/distributed/dht/atomic/GridDhtAtomicAbstractUpdateFuture.java:349-391 | with at most one `map()` the callback fires at most once: at `map()` outside FULL_SYNC, and exactly when the future is done under FULL_SYNC |
| DhtUpdateFutures.CountedAtMostOnce | modules/core/src/main/java/org/apache/ignite/internal/processors/cache/distributed/dht/atomic/GridDhtAtomicAbstractUpdateFuture.java:486-505 | in any run the counter is the number of distinct mapped nodes counted, at most the number of mappings, and reaching it means done |
| DhtUpdateFutures.ResultRecordsFailures | modules/core/src/main/java/org/apache/ignite/internal/processors/cache/distributed/dht/atomic/GridDhtAtomicAbstractUpdateFuture.java:302-309 | a backup error hands all its failed keys with the error to the near response, and the node is counted as for any ack |
| DhtUpdateFutures.RegisterKeepsCountedDone | modules/core/src/main/java/org/apache/ignite/internal/processors/cache/distributed/dht/atomic/GridDhtAtomicAbstractUpdateFuture.java:486-511 | a registration completes the future only by counting the last mapped node, with no error; a future completed that way is not counted again |
| DhtUpdateFutures.SendAllKeepsCountedDone | modules/core/src/main/java/org/apache/ignite/internal/processors/cache/distributed/dht/atomic/GridDhtAtomicAbstractUpdateFuture.java:358-361 | sending every request completes the future only by counting the last mapped node, with no error |
| DhtUpdateFutures.StepCompletesOnlyWhenCounted | modules/core/src/main/java/org/apache/ignite/internal/processors/cache/distributed/dht/atomic/GridDhtAtomicAbstractUpdateFuture.java:284-511 | an event completes a future only if it is `onDone`, a `map()` with no request, or the count reaching the number of mappings with no error |
| DhtUpdateFutures.CompletionCause | modules/core/src/main/java/org/apache/ignite/internal/processors/cache/distributed/dht/atomic/GridDhtAtomicAbstractUpdateFuture.java:343-511 | in any run, the event that completes the future is `onDone`, a `map()` with no request, or the registration that brings the counter to the number of mappings, with no error |
| DhtUpdateFutures.RunStaysDone | modules/core/src/main/java/org/apache/ignite/internal/processors/cache/distributed/dht/atomic/GridDhtAtomicAbstractUpdateFuture.java:377-397 | completion is final: once a prefix of a run has completed the future, the whole run has |

## Left out

- Floating point: FLOAT and DOUBLE fields are decoded to their raw bit patterns, not to IEEE values.
- Field decoding of composite values:
  - STRING is kept as its UTF-8 bytes.
  - DATE and TIMESTAMP are kept as raw (millis, nanos) pairs.
  - DECIMAL is kept as sign, magnitude bytes and scale; no `BigInteger`/`BigDecimal` is built.
- The default case of `fieldByOrder` is an opaque `Unmarshalled(pos)` result. It needs the full binary reader, which is not part of this model.
- Other binary-reader features are not part of this model either:
  - name-based lookup (`field(String)`, `hasField`);
  - `deserialize`, `value`, `type`/`rawType`;
  - the binary context and the cached deserialised object.
- `BinaryObjects.BinaryObject.ReadFrom`: `beforeMessageRead` is taken to succeed.
- `NearUpdateResponses.NearUpdateResponse.ReadFrom`: `beforeMessageRead` and `afterMessageRead` are taken to succeed.
- `MessageWriter`/`MessageReader` are modelled at the granularity of whole fields. A field fits in the current buffer entirely or not at all, and byte sizes are nominal. Partial writes of one large array across buffers are not modelled.
- The supertype's three message fields are carried as opaque wire values. Nested messages (keys, versions, the return value) count as one field each.
- The marshaller is a function parameter. Only the null guards of `prepareMarshal`/`finishUnmarshal` are modelled. The marshalling of keys, near values and the return value is foreign.
- `BinaryObjects.DecodeEncodedDecimal`: the round trip covers DECIMAL scales 0..2^31-1 only. A `BigDecimal` with a negative scale cannot be read back: `writeDecimal` stores the value's sign in the scale's sign bit, and `scale & 0x7FFFFFFF` never yields a negative scale. `DecodedIsEncodable` states that the decoder never produces one.
- `BinaryObjects.BinaryObject.ValueBytes`, `BinaryObjects.BinaryObject.WriteTo` and `BinaryObjects.BinaryObject.WriteExternal` require a well-formed object (an array whose header fits and whose `length()` bytes lie inside it). The source's exceptions on a malformed or truncated array are not modelled. `Detach` and `PrepareForCache` require it only when they copy.
- `BinaryObjects.BinaryObject.ReadExternal`: a stream cut short leaves the partly filled array in place, as `readFully` does; the `EOFException` itself is the result, not a thrown exception.
- `NearUpdateResponses.FailedKey` and `NearUpdateResponses.RemapKey` require index 0, as the source asserts.
- `NearUpdateResponses.NearTtl` and `NearUpdateResponses.NearExpireTime` require an index inside an existing list, as the source asserts; with assertions disabled Java would throw `IndexOutOfBoundsException`, which is not modelled.
- `NearUpdateResponses.NearValue` requires an existing value list and an index inside it; the `NullPointerException` and `IndexOutOfBoundsException` the source would throw otherwise are not modelled.
- `DhtUpdateFutures.Step`: a closure offered to a future that is already done is dropped. The source asserts against it; with assertions disabled it would append a closure that never runs, which changes no observable outcome.
- `NearUpdateResponses.NearUpdateResponse.AddFailedKeys` requires a one-key collection, as the source asserts.
- `NearUpdateResponses.NearUpdateResponse.AddNearValue` requires the index and value lists to exist together. The source creates them together, and a response where only one exists would throw.
- Header positions, footer flags, type tags and the little-endian byte order come from `GridBinaryMarshaller`, `BinaryUtils` and `BinaryPrimitives`. Those classes are not part of this model; their values are written out as constants.
- Foreign calls in the future are inputs or logs:
  - transport sends become a set of failing nodes;
  - discovery becomes the set of live readers;
  - affinity nodes become the list passed in;
  - `markAllKeysFailed` and `addFailedKeys` on the near response are recorded as calls;
  - the completion callback is counted.
- `removeAtomicFuture`, `versions().next`, `addKey` and `nearReaderEntry` are not part of this model. Neither is logging.
- Near-reader eviction in `onResult` (`removeReader` on cache entries) is not part of this model.
- Threads, `volatile` and `synchronized` are not modelled. The future is verified over arbitrary sequences of events.
- `DhtUpdateFutures.DhtUpdateFuture.Map` takes the map's iteration order as a parameter that lists each mapped node once.
- Only the fields of a future request that travel are kept; the entry processor is dropped.
- Integers are unbounded except where Java's 32-bit arithmetic matters: the field position and the DECIMAL scale.
