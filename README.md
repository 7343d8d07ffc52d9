# Cammie core in Dafny

Cammie is an editor for the camera animations of Super Mario Galaxy. This
project models three parts of its core:

- **The JMP table** (`LJmpIO`). The game's table format has a 16-byte header
  (entry count, field count, start of the records, record size). A directory
  of 12-byte field records follows: name hash, bit mask, start offset, shift,
  type. Then come fixed-size records, which are read and written as big-endian
  32-bit words. Field names are found by a rolling hash.
- **Keyframe tracks** (`CTrackCommon`). A track is loaded from a CANM or CKAN
  camera file. It has a 12-byte (CKAN) or 8-byte (CANM) header: key count,
  index of the first sample, slope flags. Its samples are frame, value,
  in-slope and out-slope. They go into a map keyed by the frame converted to
  an unsigned integer. The first sample wins for each key. The sorted keys
  are then appended to the track's key list.
- **The editor context** (`UCammieContext`). It holds eight tracks (X, Y, Z
  position; X, Y, Z target; twist; field of view) and the playhead. The model
  covers:
  - how the neighbouring keyframes of the playhead are chosen;
  - the Space key, which captures the camera position into the three position
    tracks;
  - the playback step, Play, Stop and "Set Camera to Keyframe";
  - how the deletion filter chooses the frames to delete;
  - loading a whole camera file.

One quirk is modelled exactly as written: when the current frame is already
a key, the Space key stores the camera's X coordinate in the Z position track
(`src/UCammieContext.cpp:115`). `CammieContext.Context.CaptureKeyframe` states
this in its contract.

Modules, in dependency order:

| module | file | contents |
|---|---|---|
| `Wrappers` | `wrappers.dfy` | `Option` |
| `Bits` | `bits.dfy` | 16- and 32-bit words; signed and unsigned conversions; big-endian words |
| `BStream` | `bstream.dfy` | the `Stream` class (a big-endian byte stream) |
| `FrameMap` | `frame_map.dfy` | `std::map<uint32_t, V>` as a strictly key-sorted sequence of entries |
| `JmpFormat` | `jmp_format.dfy` | the JMP header and directory decoders; Load's bounds check; name hash; field lookup; record size; string fields |
| `BitFields` | `bit_fields.dfy` | packing and unpacking of masked, shifted bit fields |
| `JmpIO` | `jmp_io.dfy` | the `Table` class (`LJmpIO`) |
| `KeyframeIO` | `keyframe_io.dfy` | track decoding and the `Track` class (`CTrackCommon`) |
| `CammieContext` | `cammie_context.dfy` | key selection, capture, playback, deletion, and the `Context` class |

## Model

| member | source | states |
|---|---|---|
| Bits.ToI32 | src/io/KeyframeIO.cpp:39 | Reading an unsigned 32-bit word as `int32_t` keeps values up to 2^31-1 and makes larger ones negative. |
| Bits.ToU32 | src/UCammieContext.cpp:48 | Casting an `int32_t` to `uint32_t` keeps non-negative values, and converting back gives the original value. |
| Bits.ToU32ToI32 | src/io/KeyframeIO.cpp:39 | Converting unsigned to signed and back is the identity on every 32-bit word. |
| Bits.BeWordOfBytes | src/io/JmpIO.cpp:126-131 | The big-endian word assembled from a word's four bytes is that word. |
| Bits.BytesOfBeWord | src/io/JmpIO.cpp:155-158 | Splitting a big-endian word gives back the four bytes it was built from, in order. |
| BStream.Stream.constructor | src/UCammieContext.cpp:388 | A stream starts over the given bytes at the given position. |
| BStream.Stream.Seek | src/io/KeyframeIO.cpp:18 | `seek` sets the position. |
| BStream.Stream.ReadWord | src/io/JmpIO.cpp:10-13 | A 32-bit read returns the big-endian word at the position and advances it by 4. |
| BStream.Stream.ReadU16 | src/io/JmpIO.cpp:32 | A 16-bit read returns the big-endian value at the position and advances it by 2. |
| BStream.Stream.ReadU8 | src/io/JmpIO.cpp:33-34 | A byte read returns the byte at the position and advances it by 1. |
| BStream.Stream.ReadBytes | src/UCammieContext.cpp:390-392 | `readString(n)` returns the next n bytes and advances the position by n. |
| FrameMap.Lookup | src/UCammieContext.cpp:192 | A key is found exactly when it is in the map's key set. A found value is stored under that key. |
| FrameMap.LookupAt | src/UCammieContext.cpp:63-65 | In a sorted map, looking up an entry's key yields that entry's value. |
| FrameMap.Insert | src/io/KeyframeIO.cpp:32 | `insert` keeps the map strictly sorted by key. |
| FrameMap.InsertKeys | src/io/KeyframeIO.cpp:32 | After `insert`, the key set is the old key set plus the new key. |
| FrameMap.InsertLength | src/UCammieContext.cpp:99 | `insert` grows the map by one exactly when the key was absent. |
| FrameMap.InsertLookup | src/io/KeyframeIO.cpp:32 | After `insert`, an absent key maps to the new value. A key already present keeps its old value, and other keys are unchanged. |
| FrameMap.Assign | src/UCammieContext.cpp:101 | `at(k).value = v` keeps the map sorted, leaves every entry's key in its place and keeps the key set. |
| FrameMap.AssignLookup | src/UCammieContext.cpp:101 | After `at(k) = v`, a present key maps to the new value and every other key is unchanged. |
| JmpFormat.DecodeHeader | src/io/JmpIO.cpp:10-13 | The header is the four big-endian words at the position: entry count and field count as `int32_t`, start offset and record size as `uint32_t`. |
| JmpFormat.DecodeHeaderWords | src/io/JmpIO.cpp:10-13 | Each header value keeps exactly the bits of its word, at offsets 0, 4, 8 and 12. |
| JmpFormat.Rejects | src/io/JmpIO.cpp:15-16 | The exact rejection test: record size 0, or a record block that ends past the stream. |
| JmpFormat.RejectsAsWritten | src/io/JmpIO.cpp:15-16 | The rejection test as the source computes it, with the block end reduced modulo 2^32. |
| JmpFormat.DecodeFields | src/io/JmpIO.cpp:27-37 | The directory has one record per field. Record i is decoded from the 12 bytes at 12*i past the header. |
| JmpFormat.AsWrittenAgreesWithoutWrap | src/io/JmpIO.cpp:15-16 | When the record block's end fits in 32 bits, the source's bounds check and the exact check agree. |
| JmpFormat.AsWrittenAcceptsWrappedTable | src/io/JmpIO.cpp:15-22 | Counterexample: entry count 0x10001, record size 0x10000, start 16, stream of 0x10010 bytes. The source's check passes, because the block length wraps to 0x10000, while the exact check rejects it. |
| JmpFormat.AsWrittenAdmitsOverrun | src/io/JmpIO.cpp:15-16 | Counterexample: entry count -1, record size 1, start 1, stream of 16 bytes. The source's check passes, but the block would end past the stream. |
| JmpFormat.AcceptedBlockFits | src/io/JmpIO.cpp:15-22 | A header the exact check accepts has its record block inside the stream. The block length does not wrap, and the source's check accepts it too. |
| JmpFormat.SignedChar | src/io/JmpIO.cpp:80-82 | A `char` is taken as signed, as on x86 compilers: bytes below 0x80 keep their value, and the others become negative. |
| JmpFormat.HashStep | src/io/JmpIO.cpp:82 | One hash step is below the prime. |
| JmpFormat.NameHash | src/io/JmpIO.cpp:76-86 | The empty name hashes to 0, and any other name to a value below the prime. |
| JmpFormat.NameHashIsRollingHash | src/io/JmpIO.cpp:78-85 | For ASCII names and primes up to 2^24, the 32-bit hash equals the mathematical rolling hash `(h*256 + c) mod prime`. |
| JmpFormat.LargePrimeHashWraps | src/io/JmpIO.cpp:82 | Counterexample: under the prime 2^32 - 5 the name [1, 0, 0, 0, 0] hashes to 0, because `hash << 8` wraps, while the rolling hash gives 5. |
| JmpFormat.SignedCharHazard | src/io/JmpIO.cpp:82 | For a byte of 0x80 or more, the hash differs from the unsigned rolling hash because `char` is taken as signed. |
| JmpFormat.FindField | src/io/JmpIO.cpp:105-119 | Lookup by hash finds the first field with that hash, or reports that no field has it. |
| JmpFormat.LaterDuplicateShadowed | src/io/JmpIO.cpp:93-100 | Of two fields with the same hash, lookup never reaches the later one. |
| JmpFormat.EntrySizeFor | src/io/JmpIO.cpp:254-271 | The record size is the largest field end: start plus 32 for strings, plus 4 otherwise. It is 0 without fields. |
| JmpFormat.EntrySizeForStep | src/io/JmpIO.cpp:258-268 | Adding one field takes the maximum of the previous size and that field's end. |
| JmpFormat.WriteWord | src/io/JmpIO.cpp:150-161 | Writing a word stores it big-endian at the offset and leaves every other byte alone. |
| JmpFormat.CString | src/io/JmpIO.cpp:247-251 | A C string is the longest prefix without a 0 byte, stopped by a 0 when shorter than the buffer. |
| JmpFormat.StringCopyLength | src/io/JmpIO.cpp:342 | `SetString` copies `min(31, length)` bytes. |
| JmpFormat.StringWrittenAsIs | src/io/JmpIO.cpp:342 | As written, `SetString` copies the prefix of the value and leaves the rest of the 32-byte slot unchanged. No terminator is written. |
| JmpFormat.ShorterStringKeepsOldTail | src/io/JmpIO.cpp:342 | Counterexample: writing "ab" over "xyz" with the copy as written reads back as "abz". |
| JmpFormat.StringWrittenAsIsReadsBack | src/io/JmpIO.cpp:333-345 | As written, a value of up to 31 non-zero bytes reads back exactly when the old slot already had a 0 right after it; any other byte there shows through. |
| JmpFormat.StringWritten | src/io/JmpIO.cpp:342 | Corrected store: the copied prefix, then a 0, then the rest of the old 32-byte slot. |
| JmpFormat.StringWrittenRoundTrip | src/io/JmpIO.cpp:237-252 | With the terminator, a value of up to 31 non-zero bytes reads back unchanged through `GetString`. |
| JmpFormat.CStringTerminated | src/io/JmpIO.cpp:247-251 | A buffer with a 0 at n and no earlier 0 reads as its first n bytes. |
| BitFields.InsertedTakesInside | src/io/JmpIO.cpp:286 | The combined word carries the packed value in the mask's bits. |
| BitFields.ExtractOfInserted | src/io/JmpIO.cpp:190 | Extracting from a word that holds a packed value yields that value shifted down. |
| BitFields.PackedInside | src/io/JmpIO.cpp:284 | A packed value lies inside the mask. |
| BitFields.InsertKeepsOutside | src/io/JmpIO.cpp:286 | Setting a bit field leaves every bit outside the mask unchanged. |
| BitFields.ExtractAfterInsert | src/io/JmpIO.cpp:179-191 | Reading a field back after setting it yields the packed value shifted down. |
| BitFields.ExtractAfterInsertExact | src/io/JmpIO.cpp:273-287 | When the value fits the field, reading it back after setting it yields the value itself. |
| BitFields.ExtractFits | src/io/JmpIO.cpp:190 | An extracted value lies within the mask shifted down. |
| JmpIO.Table.constructor | src/io/JmpIO.cpp:3-6 | A new table is empty: no fields, no records, zero counts and sizes (see the line on it below). |
| JmpIO.Table.Load | src/io/JmpIO.cpp:8-40 | Stores the four header values whatever the outcome. The result is true exactly when the (exact) bounds check passes. On success it copies exactly the record block and decodes the whole field directory. On failure the records and fields are unchanged. |
| JmpIO.Table.ReadHeader | src/io/JmpIO.cpp:10-13 | Reads the four header words in order and advances 16 bytes. |
| JmpIO.Table.CopyBlock | src/io/JmpIO.cpp:18-22 | A fresh buffer holds exactly the bytes of the record block. |
| JmpIO.Table.ReadFieldRecords | src/io/JmpIO.cpp:24-37 | Reads the directory's records in order, advancing 12 bytes each. |
| JmpIO.Table.LoadTemplate | src/io/JmpIO.cpp:42-74 | Installs the given fields and count. The records start right after the directory. The record size comes from the fields. The result is false exactly when the size is 0, that is when there are no fields. |
| JmpIO.Table.CalculateNewEntrySize | src/io/JmpIO.cpp:254-271 | The loop computes the largest field end (`EntrySizeFor`). |
| JmpIO.Table.HashFieldName | src/io/JmpIO.cpp:76-86 | The loop computes the name hash (`NameHash`). |
| JmpIO.Table.FetchFieldByHash | src/io/JmpIO.cpp:105-119 | The loop returns the first field with the hash, or none. |
| JmpIO.Table.FetchFieldByName | src/io/JmpIO.cpp:88-103 | Returns the first field whose hash is the name's hash, or none. |
| JmpIO.Table.PeekU32 | src/io/JmpIO.cpp:121-132 | 0 when the offset is at or past `entryCount * entrySize`. Otherwise the word whose big-endian bytes are the four bytes at the offset. |
| JmpIO.Table.PeekS32 | src/io/JmpIO.cpp:134-137 | The word at the offset read as `int32_t`: its `uint32_t` conversion is `PeekU32`. |
| JmpIO.Table.PokeU32 | src/io/JmpIO.cpp:150-161 | Succeeds exactly when the offset is inside `entryCount * entrySize`. It then stores the word so that `PeekU32` reads it back. Otherwise nothing changes. |
| JmpIO.Table.PokeS32 | src/io/JmpIO.cpp:163-166 | Same as PokeU32 for the word's bits, so that `PeekS32` reads back the signed value. |
| JmpIO.Table.GetUnsignedInt | src/io/JmpIO.cpp:179-191 | An unknown name gives 0. Otherwise the result is the masked, shifted field of the entry's word, and it fits in the shifted mask. |
| JmpIO.Table.GetSignedInt | src/io/JmpIO.cpp:193-204 | An unknown name gives 0. Otherwise the result is the entry's whole word as a signed value. |
| JmpIO.Table.GetSignedIntByHash | src/io/JmpIO.cpp:206-217 | Same as GetSignedInt, with the field found by hash. |
| JmpIO.Table.GetFloat | src/io/JmpIO.cpp:219-230 | An unknown name gives 0 (the bits of 0.0f). Otherwise the result is the entry's word. |
| JmpIO.Table.GetBoolean | src/io/JmpIO.cpp:232-235 | True exactly when the name is known and its bit field is non-zero. |
| JmpIO.Table.GetString | src/io/JmpIO.cpp:237-252 | An unknown name gives "". Otherwise the result is the C string in the field's 32 bytes, with at most 32 bytes and no 0 byte. |
| JmpIO.Table.StringCheckMissing | src/io/JmpIO.cpp:237-252 | Counterexample: one 4-byte record and a field at its start. At entry 1 Peek and Poke refuse the offset, but the string slot lies outside the buffer and outside the records. |
| JmpIO.Table.GetStringInRange | src/io/JmpIO.cpp:237-252 | Corrected read: "" for an unknown name or a slot not inside the records; otherwise the C string of the slot. |
| JmpIO.Table.SetUnsignedInt | src/io/JmpIO.cpp:273-287 | Succeeds exactly when the name is known and the offset is inside the records. On success only the field's bits change and GetUnsignedInt reads back the packed value. Otherwise nothing changes. |
| JmpIO.Table.SetSignedInt | src/io/JmpIO.cpp:289-300 | Same success condition. On success the word is stored and reads back as the signed value. |
| JmpIO.Table.SetSignedIntByHash | src/io/JmpIO.cpp:302-313 | Same as SetSignedInt, with the field found by hash. |
| JmpIO.Table.SetFloat | src/io/JmpIO.cpp:315-326 | Same success condition. On success the float's bits are stored and read back. |
| JmpIO.Table.SetBoolean | src/io/JmpIO.cpp:328-331 | Exactly `SetUnsignedInt` of 1 or 0: same success condition, the read-modify-write word stored, bits outside the mask kept, and the field reads back as the packed 1 or 0. |
| JmpIO.Table.SetString | src/io/JmpIO.cpp:333-345 | Succeeds exactly when the name is known. It copies `min(31, length)` bytes over the start of the field and leaves every other byte alone, including the one after the copy. The 32-byte slot becomes `StringWrittenAsIs` of the old one. A short value without 0 bytes reads back exactly when the old slot had a 0 after it. |
| JmpIO.Table.SetTerminatedString | src/io/JmpIO.cpp:342 | Corrected store: copies the same bytes, writes a 0 after them and changes nothing else. The slot becomes `StringWritten` of the old one, and a value of up to 31 non-zero bytes reads back through `GetString`. |
| JmpIO.Table.SetStringInRange | src/io/JmpIO.cpp:333-345 | Corrected write: succeeds exactly when the name is known and its slot is inside the records. It then copies as `SetString` does; otherwise nothing changes. |
| JmpIO.Table.CopyString | src/io/JmpIO.cpp:342 | The `memcpy` stores the value's prefix and changes nothing else, so the slot is `StringWrittenAsIs` of the old one. A short value reads back exactly when the old slot had a 0 after it. |
| JmpIO.Table.CopyTerminated | src/io/JmpIO.cpp:342 | Corrected copy: the value's first `min(31, length)` bytes, then a 0, and no other byte changes. The slot becomes `StringWritten` of the old one and a short 0-free value reads back. |
| JmpIO.Table.CopyBytes | src/io/JmpIO.cpp:342 | The byte loop stores the first `min(31, length)` bytes of the value at the offset and changes no other byte. |
| JmpIO.StringStoredAsIs | src/io/JmpIO.cpp:342 | A buffer changed only by the copied bytes holds `StringWrittenAsIs` of the old slot, and a short value reads back exactly when the old slot had a 0 after the copy. |
| JmpIO.StringStored | src/io/JmpIO.cpp:342 | Bytes stored with the terminator are the corrected 32-byte slot, and they read back as the value. |
| KeyframeIO.DecodeTrackHeader | src/io/KeyframeIO.cpp:8-14 | A CANM header has no slope-flags word, so its flags are 0xFFFF. |
| KeyframeIO.SampleBytes | src/io/KeyframeIO.cpp:24-30 | A sample takes 8 bytes (CANM), 12 (CKAN with zero slope flags) or 16 (CKAN otherwise). |
| KeyframeIO.DecodeSamples | src/io/KeyframeIO.cpp:19-33 | `keyCount` samples, sample i at i sample sizes past the start. |
| KeyframeIO.InsertAll | src/io/KeyframeIO.cpp:19-33 | Inserting the samples in order keeps the map strictly sorted by key. |
| KeyframeIO.FirstSample | src/io/KeyframeIO.cpp:32 | For a key, the earliest sample with that frame key, if any. |
| KeyframeIO.InsertAllKeys | src/io/KeyframeIO.cpp:19-33 | The loaded map's keys are the old keys plus every sample's frame key. |
| KeyframeIO.InsertAllLookup | src/io/KeyframeIO.cpp:19-33 | After loading, a key already in the map keeps its value. Any other key maps to its first sample. |
| KeyframeIO.InsertAllLength | src/io/KeyframeIO.cpp:19-33 | Loading adds at most one entry per sample. |
| KeyframeIO.InsertAllStep | src/io/KeyframeIO.cpp:32 | Loading one more sample is one more `insert`. |
| KeyframeIO.SampleKeysSnoc | src/io/KeyframeIO.cpp:32 | One more sample adds its frame key to the key set. |
| KeyframeIO.SignedKeys | src/io/KeyframeIO.cpp:37-40 | The key list gains one signed key per map entry, in map order. |
| KeyframeIO.SignedKeysAscending | src/io/KeyframeIO.cpp:37-40 | When every key is at most 2^31-1, the appended keys are strictly ascending. |
| KeyframeIO.LargeKeyBreaksOrder | src/io/KeyframeIO.cpp:37-40 | A key of 2^31 or more turns negative in the key list and breaks the ascending order. |
| KeyframeIO.LoadedIntoEmpty | src/io/KeyframeIO.cpp:4-42 | An empty track loaded from samples has exactly the samples' keys, with each key's first sample, and at most one key per sample. Its keys are ascending when every frame key is at most 2^31-1. |
| KeyframeIO.KeptValid | src/io/KeyframeIO.cpp:32-40 | Loading keeps every listed key in the map and lists every map key. |
| KeyframeIO.Track.constructor | src/io/KeyframeIO.cpp:4-6 | A new track has no keys and no frames. |
| KeyframeIO.Track.LoadTrack | src/io/KeyframeIO.cpp:4-42 | Sets the type and reads the header. It inserts the samples from `keyframeDataOffset + 4 + 4*beginIndex` into the map. It seeks back after the header and appends the map's keys to the key list. Keys and map stay consistent. |
| KeyframeIO.Track.ReadTrackHeader | src/io/KeyframeIO.cpp:8-14 | Reads the count and the first index (and the CKAN slope flags) as 32-bit words truncated to 16 bits. |
| KeyframeIO.Track.ReadSamples | src/io/KeyframeIO.cpp:19-33 | The loop inserts the decoded samples into the map, leaving the key list alone. |
| KeyframeIO.Track.ReadSample | src/io/KeyframeIO.cpp:22-30 | Reads frame and value, plus the in-slope for CKAN and the out-slope when the slope flags are non-zero. |
| KeyframeIO.Track.AppendKeys | src/io/KeyframeIO.cpp:37-40 | The loop appends every map key, in map order, as a signed key. |
| KeyframeIO.Track.SaveTrack | src/io/KeyframeIO.cpp:44-46 | Saving is empty: the streams and the track are unchanged. |
| CammieContext.FrameAt | src/UCammieContext.cpp:63-65 | `mFrames[key]`: the keyframe stored under the key, or a zero keyframe when the key is absent. |
| CammieContext.FirstGreater | src/UCammieContext.cpp:62-68 | The loop stops at the first key greater than the playhead. Every earlier key is at most the playhead. |
| CammieContext.FirstGreaterAt | src/UCammieContext.cpp:62-68 | The stopping point is the only index with that property. |
| CammieContext.SelectKeyframes | src/UCammieContext.cpp:59-67 | The previous keyframe is the one before the stopping point and the next is the one at it. Each is absent when no such key exists. |
| CammieContext.SelectionBracketsPlayhead | src/UCammieContext.cpp:59-67 | With ascending keys, the previous key is the greatest key at or before the playhead and the next is the least key after it. Each exists exactly when some such key exists. |
| CammieContext.UnsortedKeysMissPrev | src/UCammieContext.cpp:62-68 | With keys [5, 1] and the playhead at 3, the loop stops at once, although key 1 is before the playhead. |
| CammieContext.CapturedKeys | src/UCammieContext.cpp:98-99 | After a capture the frame is a key. The key list grows exactly when the frame was not listed. |
| CammieContext.CapturedFrames | src/UCammieContext.cpp:98-102 | The capture keeps the map sorted. |
| CammieContext.CaptureAddsNoDuplicate | src/UCammieContext.cpp:98-99 | A capture never lists a frame twice. The listed keys are the old ones plus the frame. |
| CammieContext.CaptureOrder | src/UCammieContext.cpp:98-99 | An ascending key list stays ascending exactly when the frame was listed or is after the last key. |
| CammieContext.CaptureBreaksOrder | src/UCammieContext.cpp:99 | Capturing frame 0 with key list [5] gives [5, 0]. |
| CammieContext.UnlistedNotKey | src/UCammieContext.cpp:98-102 | When keys and map agree, an unlisted frame is not in the map, so `insert` adds it. |
| CammieContext.CapturedKeySet | src/UCammieContext.cpp:98-102 | After a capture the map's keys are the old keys plus the frame. |
| CammieContext.CaptureLookup | src/UCammieContext.cpp:98-102 | After a capture, other frames are unchanged. A listed frame gets the new value with its other fields kept. A new frame gets a keyframe at that frame with the value and zero slopes. |
| CammieContext.CaptureKeepsInStep | src/UCammieContext.cpp:98-102 | A capture keeps the key list and the map in step. |
| CammieContext.Capture | src/UCammieContext.cpp:97-102 | One track's capture as that predicate pair, keeping the track valid. |
| CammieContext.Step | src/UCammieContext.cpp:239-251 | A step keeps the end frame and clears the jump request. It never moves a playhead that is at or before the end past the end. |
| CammieContext.Run | src/UCammieContext.cpp:239-251 | Any number of steps from a playhead at or before the end stays at or before the end. |
| CammieContext.PlaybackReachesEnd | src/UCammieContext.cpp:239-251 | Playing from frame c reaches the end frame after `end - c` steps. The next step stops playback there. |
| CammieContext.JumpHoldsFrame | src/UCammieContext.cpp:248-249 | A jump request holds the frame for one step and is then cleared. |
| CammieContext.PastEndKeepsPlaying | src/UCammieContext.cpp:239 | A playhead already past the end keeps advancing and never stops. |
| CammieContext.IdleIsFixed | src/UCammieContext.cpp:239-251 | When stopped with no jump request, a step changes nothing. |
| CammieContext.PositiveFrames | src/UCammieContext.cpp:46-49 | Only positive frames are deleted, and there are at most as many as selected. |
| CammieContext.PositiveFramesMembers | src/UCammieContext.cpp:46-49 | A frame is deleted exactly when it is selected and positive. |
| CammieContext.DeletionTargets | src/UCammieContext.cpp:46-49 | The loop over the selection array yields exactly those frames, in order. |
| CammieContext.Clear | src/UCammieContext.cpp:364-386 | Clearing empties a track's keys and map. |
| CammieContext.Context.constructor | src/UCammieContext.cpp:89-90 | Eight empty tracks; the playhead at 0 with start 0 and end 10; stopped, no jump request. |
| CammieContext.Context.CaptureKeyframe | src/UCammieContext.cpp:96-117 | X and Y capture their coordinate. Z inserts z for a new frame but stores x for a listed one. All three tracks stay valid. |
| CammieContext.Context.Play | src/UCammieContext.cpp:160 | Play starts playback from frame 0. |
| CammieContext.Context.Stop | src/UCammieContext.cpp:161 | Stop stops playback. |
| CammieContext.Context.SetCameraToKeyframe | src/UCammieContext.cpp:192-206 | The button is offered exactly when a key and a track are selected and the key is in the track's map. It moves the playhead to the key and requests a jump. Otherwise nothing changes. |
| CammieContext.Context.PlaybackStep | src/UCammieContext.cpp:239-251 | The playhead moves exactly as `Step` says. |
| CammieContext.Context.LoadFromPath | src/UCammieContext.cpp:359-408 | Reads the end frame from 0x18. Every one of the eight tracks, in file order, holds exactly what its header and samples in the file say, starting from empty. All tracks stay valid. |
| CammieContext.Context.LoadTracks | src/UCammieContext.cpp:399-408 | The eight loads, from consecutive headers, give every track its contents from the file. |
| CammieContext.Context.LoadNext | src/UCammieContext.cpp:399 | One load reads the next header and leaves the stream at the following one. |
| CammieContext.Context.ReadFileHeader | src/UCammieContext.cpp:390-396 | Reads the type tag, the end frame at 0x18 and the block size. The sample region starts at 0x20 plus the block size. |
| CammieContext.Context.ClearAll | src/UCammieContext.cpp:362-386 | All eight tracks lose their keys and maps. |

## Left out

- Rendering, ImGui widgets, the grid, billboards, lights, the map renderer and
  the galaxy loader are not part of this model. They are user interface and
  graphics.
- The interpolation `glm::mix` at `src/UCammieContext.cpp:69` and the camera
  updates at lines 240-247 work on floats. The model stops at the choice of
  the two keyframes.
- Floats are modelled by their 32-bit IEEE-754 pattern. The float-to-`uint32_t`
  conversion of a sample's frame (`src/io/KeyframeIO.cpp:32`) is the parameter
  `frameKey`. The `(float)mCurrentFrame` of a captured keyframe is the
  parameter `frameBits`.
- Files and streams are byte sequences. Opening the file is not modelled, and
  the path is replaced by the file's bytes.
- Reading past the end of a stream is excluded by preconditions. The stream
  library's behaviour there is not part of this model.
- `JMP_HASH_PRIME` and the String type code are given when a table is
  constructed, because the header that defines them is not part of this model.
- JmpIO.Table.LoadTemplate: the JSON template is replaced by the already decoded
  field list. The stray `mFieldCount++` of the JSON loop is left out because
  line 64 overwrites it.
- Uninitialised fields of the local `CKeyframeCommon` are 0 in the model. These
  are both slopes of a CANM sample and the out-slope of a CKAN sample whose
  slope flags are 0 (`src/io/KeyframeIO.cpp:22-30`).
- JmpIO.Table.constructor: the constructor body is empty and the member
  initialisers live in `io/JmpIO.hpp`, which is not part of this model. The
  model assumes zero counts and sizes, no fields and an empty buffer.
- JmpIO.Table.GetUnsignedInt, JmpIO.Table.SetUnsignedInt, JmpIO.Table.GetBoolean
  and JmpIO.Table.SetBoolean require the field's shift to be below 32. A larger
  shift makes the `<<` and `>>` of `src/io/JmpIO.cpp:188-190` and 283-286
  undefined behaviour in C++, so such tables are excluded.
- `DeleteKeyframe` itself is not part of this model. Only the selection of
  the frames to delete is modelled.
- JmpIO.Table.PeekU32, JmpIO.Table.PeekS32, JmpIO.Table.PokeU32,
  JmpIO.Table.PokeS32 and the integer, float and boolean getters and setters
  require the whole word at an accepted offset to lie in the buffer. The
  source checks only `offset < entryCount * entrySize`
  (`src/io/JmpIO.cpp:123`, 152). An offset in the last 3 bytes of the records,
  such as a field at byte 2 of a single 4-byte record, reads or writes past
  `mData`. That undefined behaviour is excluded.
- JmpIO.Table.GetString and JmpIO.Table.SetString require the field's 32-byte
  slot (or the copied bytes) to lie in the buffer. The source makes no range
  check at all (`src/io/JmpIO.cpp:246-248`, 341-342), so an entry index at or
  past the entry count copies from or to memory past `mData`. That input is
  excluded; see the Findings row for the checked variants.
- CammieContext.Step and CammieContext.Context.PlaybackStep require that an
  advancing step does not start at INT_MAX. `mCurrentFrame++`
  (`src/UCammieContext.cpp:247`) would overflow a signed int there. This is
  reachable by playing with a negative end frame or after a jump past the end.
- JmpIO.Table.Load requires the stream to be shorter than 2^32 bytes. Offsets
  and sizes in the table are 32-bit, and the size type of the stream library is
  not part of this model, so larger streams are excluded.
- JmpIO.Table.Load: `reserve` with a negative field count (which throws in C++)
  is modelled as an empty directory.
- JmpIO.Table.Load uses the exact bounds check, not the 32-bit one of
  `src/io/JmpIO.cpp:15`. It therefore also rejects headers the source accepts
  without overrunning the stream, such as entry count 0x10001, record size
  0x10000 and start 16 on a 0x10010-byte stream (`AsWrittenAcceptsWrappedTable`).
- JmpFormat.SignedChar: plain `char` is taken as signed, as x86 compilers do.
  Its signedness is implementation-defined. On a build where `char` is
  unsigned (ARM or PowerPC Linux), line 82 adds the byte's value 0..255, so
  names with a byte of 0x80 or more hash differently (`SignedCharHazard`).
- JmpIO.Table.SetSignedInt takes the value's 32-bit pattern. The signed value
  is recovered with `ToI32`.
- CammieContext.Context.LoadFromPath: the eight `LoadTrack` calls are written as
  a loop over the tracks in file order.
- Bits.Wrap32: the contract states only that values in range are kept. The
  reduction modulo 2^32 is in its body.
- `mViewCamera` and the camera's eye and centre are not modelled. They only
  affect rendering.

## Findings

| source | as written | input that shows it | evidently intended | confidence | as-written member | corrected member |
|---|---|---|---|---|---|---|
| src/io/JmpIO.cpp:15 | `mEntryStartOffset + mEntrySize * mEntryCount > size` is computed in 32 bits, so the product can wrap | header with entry count -1, record size 1, start 1 and a 16-byte stream: the check passes, yet the block would run past the stream; also entry count 0x10001, record size 0x10000, start 16 and a 0x10010-byte stream: the check passes and 0x10001 records are addressed over 0x10000 bytes | reject any header whose record block does not fit in the stream | not executed | JmpFormat.RejectsAsWritten, JmpFormat.AsWrittenAdmitsOverrun, JmpFormat.AsWrittenAcceptsWrappedTable | JmpFormat.Rejects, JmpFormat.AcceptedBlockFits (used by JmpIO.Table.Load) |
| src/io/JmpIO.cpp:342 | `SetString` copies `min(31, length)` bytes and writes no terminator | "ab" written over "xyz" reads back as "abz" | the stored string reads back as the value | not executed | JmpFormat.StringWrittenAsIs, JmpFormat.ShorterStringKeepsOldTail | JmpFormat.StringWritten, JmpFormat.StringWrittenRoundTrip, JmpIO.Table.SetTerminatedString |
| src/io/JmpIO.cpp:246-248 | `GetString` and `SetString` copy the field's slot with no range check, unlike `PeekU32`/`PokeU32` | one 4-byte record, a string field at byte 0, entry index 1: Peek refuses the offset, but the string copy reads 32 bytes past the buffer | a slot outside the records gives "" or false, as the integer accessors give 0 or false | not executed | JmpIO.Table.GetString, JmpIO.Table.SetString, JmpIO.Table.StringCheckMissing | JmpIO.Table.GetStringInRange, JmpIO.Table.SetStringInRange |
