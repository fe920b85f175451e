# ICE cache wire decoder

A Dafny model of the reader for ICE cache files, the compressed particle caches
of the ICE node system. The model works on the decompressed byte stream of one `.icecache`
file as an immutable `seq<byte>` with an explicit position. It covers:

- the **header**: an 8-byte name and then 8 words (version 102) or 9 words
  (version 103). The version word is peeked first, and only 102 and 103 are read.
- the **attribute descriptors**: name, data type, the blob names of a custom type,
  structure, context, object id, category, and the point-locator size of a
  Location attribute.
- the **data section**. `PointPosition___` has one constant flag and then
  `particle_count` records. Every other attribute gets an element count from its
  context. Its data is then read in chunks, each with its own constant flag. A kept
  constant chunk broadcasts its single record to every index of the chunk.
- the **selection** of attributes to keep, and the skipping of the rest.
- the **type accessor table**: per-type widths (`size`), arities (`length`), record
  decoding, the registry keyed by data-type code, the structure-type pool, and the
  line structure of the text `format` dump.
- the **wire codes**: context, data-type and structure bit flags, and version codes.
- **`get_files`** and **`is_valid_file`**: cache file names ordered by the last run
  of digits in each name.

Every read of the decoder is a pure function `(s, pos) -> Result<(value, end)>`.
The accessors' own reads (`Accessors.Read`, `ReadString`, `ReadWord`, `ReadFloats`)
never fail, as in the source, and return a plain `(value, end)` pair. Runs of reads
(names, descriptors, records, chunks, attributes) share one generic `Runs.Run` and
`Runs.RunOver`. Each part has an encoder as its partner, and round-trip lemmas
state that an encoded header, descriptor, record or chunk reads back as itself and
stops right after itself.

Modules, in dependency order:

- `Results`, `Seqs`, `Bytes`, `Decimal`: shared vocabulary.
- `WireCodes`: `consts.py`.
- `Runs`, `Chunking`: repeated reads, and the handler's `chunks(n)`.
- `Accessors`, `AccessorFormat`: `icereader_util.py`.
- `Headers`, `Descriptors`, `AttributeData`, `Reader`: `icereader.py`.
- `CacheFiles`: `get_files` and `is_valid_file`.

The byte handler `ICECacheFileHandler` is not part of this model. Its behaviour is
fixed as follows:

- `read_ulong` reads a little-endian unsigned 4-byte word. `read_int` reads the same
  bytes as a signed 32-bit integer (`Bytes.Signed`). The model keeps the unsigned
  word and applies the sign where it changes what the reader does. For now that is
  the attribute count: a count with its sign bit set is negative, so `range` runs no
  times over it (`Bytes.RangeCount`). Codes are only compared with positive
  constants, so the sign makes no difference there. A word cut short makes the load
  fail with `Truncated`.
- `read_name` is the string accessor's read.
- `read_header_name` reads 8 raw bytes.
- `icecache_version` peeks at the word at offset 8 without consuming it. A stream
  too short to hold it counts as an unsupported version.
- `chunks(n)` cuts the indices `0 .. n-1` into consecutive runs of a positive chunk
  size `c`, which is a parameter of the model. The last run may be shorter.

The model follows the reader's code, including where that code does not do what
the format needs:

- `PointPosition___` is read with the accessor its own descriptor names, not
  always as Vector3. `AttributeData.PointPositionData` states the Vector3 byte count
  as the special case.
- A context without an element count makes the attribute pass over with nothing
  read (icereader.py:216-218), whatever its layout.
- A Location attribute never reaches its own branch (icereader.py:220-223). The
  registry has no Location entry, so the pool lookup at icereader.py:174-177 fails
  first.
- The accessors' own reads never fail on a short stream (icereader_util.py:107-114).
  The decoder treats a record cut short as `Truncated`; see "Left out".

## Model

| member | source | states |
|---|---|---|
| Bytes.EncodeWordAt | icereader_util.py:107-110 | Every four bytes are the encoding of the unsigned word they store, so decoding a word and encoding it gives the same bytes back |
| Bytes.WordAtEncoded | icereader_util.py:107-110 | An encoded word, anywhere in a stream, decodes to itself |
| Bytes.Take | icereader.py:258 | `file.read(n)` returns at most `n` bytes. It returns exactly `n` when they remain, and otherwise stops at the end of the stream; the position moves past exactly the bytes returned |
| Bytes.ReadInts | icereader.py:343-350 | `k` consecutive `read_int` calls succeed exactly when `4k` bytes remain. They then return the `k` words in order and advance by `4k` |
| Bytes.Signed | icereader.py:343-350 | A word read by `read_int` is a signed 32-bit integer, congruent to the unsigned word modulo 2^32 |
| Bytes.RangeCount | icereader.py:149 | `range(n)` over a signed count runs `n` times, and never when `n` is negative |
| Bytes.WordsAtEncoded | icereader.py:343-350 | Encoded words read back as themselves, wherever they sit in the stream |
| WireCodes.ContextFlagsAreBits | consts.py:20-28 | Singleton, 0D, 1D, 2D and 0D2D are bits 0 to 4 in that order, and ElementGenerator is bit 5: six distinct powers of two |
| WireCodes.CompositeContexts | consts.py:20-33 | Each composite context is the bitwise OR of the contexts it names. Any is the OR of all six, and NotSingleton is Any without Singleton |
| WireCodes.DataTypeFlagsAreBits | consts.py:35-58 | Each of the 19 concrete data types is its own bit, strictly increasing in bit order; Interface equals Geometry |
| WireCodes.DataAnyIsUnion | consts.py:35-58 | Value is the OR of all concrete types except Geometry, Location, Execute and Reference, and Any is Value OR those four |
| WireCodes.DataTypeGroups | consts.py:36-49 | ArithmeticSupport and MultiComp are the ORs of the numeric types they group |
| WireCodes.StructureFlags | consts.py:60-62 | Single and Array are bits 0 and 1, and Any is their OR |
| WireCodes.VersionCodes | consts.py:86-89 | Versions 100 to 103 are increasing. The supported versions are exactly the range from 102 to the newest, 103 |
| Accessors.SizeIsFourTimesLength | icereader_util.py:106-408 | For exactly the fixed-width accessors (Long, Bool and the float tuples), `size()` is four times `length()`; String and the custom type are not among them |
| Accessors.FloatTupleWidths | icereader_util.py:116-405 | The widths of Long, Bool, Float, Vector2/3/4, Quaternion, Color4, Matrix33 and Matrix44 are 4, 4, 4, 8, 12, 16, 16, 16, 36 and 64 |
| Accessors.Pad4 | icereader_util.py:195-196 | A string length rounded up is at least the length, less than the length plus 4, and divisible by 4 |
| Accessors.Pad4IsLeast | icereader_util.py:195-196 | The rounded length is the least multiple of 4 that holds the string |
| Accessors.ReadString | icereader_util.py:191-202 | A string read takes a 4-byte length L and then `Pad4(L)` bytes, padding included. A short length word or body stops at the end of the stream without raising |
| Accessors.ReadEncodedString | icereader_util.py:191-199 | A written string reads back as its bytes followed by its zero padding, and the read stops right after the padding |
| Accessors.LongAndBoolDecoding | icereader_util.py:106-147 | A Long is the unsigned little-endian word; a Bool reads the same 4 bytes and is false exactly when that word is zero |
| Accessors.ShortReads | icereader_util.py:107-168 | On a short read nothing raises: Long and Bool give False, the float tuples give the empty tuple, and the stream ends up at its end |
| Accessors.RotationIsQuaternion | icereader_util.py:332-334 | Rotation has Quaternion's width, arity and read |
| Accessors.ReadRecord | icereader.py:192-197 | A record read succeeds exactly when the stream holds the whole record. It then gives the accessor's value, and a fixed-width record ends one width further on; otherwise it fails with `Truncated` |
| Accessors.ReadRecords | icereader.py:268-275 | `n` records read back to back give `n` values and stay within the stream; the only failure is `Truncated` |
| Accessors.ReadRecordsFixedWidth | icereader.py:268-275 | With a fixed-width accessor, `n` records succeed exactly when `n` widths of bytes remain, and end `n` widths further on |
| Accessors.ReadEncoded | icereader_util.py:106-408 | Every accessor reads an encoded record back as the value that was written, and moves past exactly its bytes |
| Accessors.ReadRecordsEncoded | icereader.py:268-275 | Records written one after the other read back in order, and the run stops right after the last |
| Accessors.RegistrySize | icereader_util.py:426-440 | Exactly 13 data types are registered; Shape, Location and Geometry have no entry |
| Accessors.RegistryContents | icereader_util.py:426-440 | Each accessor is registered under its own data-type code, and each registered code names that accessor |
| Accessors.Pool | icereader_util.py:465-470 | The pool finds an accessor exactly for the Single structure and a registered type, and that accessor carries the requested code. The Array table holds only 0 mapped to None, so every Array lookup fails, and so does every other structure code |
| Accessors.PoolFindsEveryAccessor | icereader_util.py:465-467 | Each of the 13 accessors is reachable through the pool under its code and the Single structure |
| AccessorFormat.LinesPerRecord | icereader_util.py:384-423 | `format` prints one line per record, except three for Matrix33 and four for Matrix44 |
| AccessorFormat.LayoutCoversRecord | icereader_util.py:125-423 | Every field a line prints is a component the record has, below `length()` |
| AccessorFormat.RecordLines | icereader_util.py:354-364 | A record prints exactly when it is long enough for its layout; a Color4 record of at most one component prints `i: no data`. It prints one line per layout row, each opening with `i: ` |
| AccessorFormat.FormatNoData | icereader_util.py:125-128 | `format` returns `<no data>\n` exactly when `validate_data` fails: fewer than two records, or an empty first record |
| AccessorFormat.FormatShape | icereader_util.py:384-423 | On valid data `format` prints exactly when every record is long enough. It prints one group of lines per record, in record order, and every line of record `j` opens with `j: ` |
| Headers.PeekVersion | icereader.py:123-124 | The version is the word at offset 8, looked at without being consumed, and exists exactly when 12 bytes are present |
| Headers.ReadHeader | icereader.py:121-141 | The header fails as unsupported exactly when the version cannot be peeked or is neither 102 nor 103. It succeeds exactly when the chosen layout's words are all present. The name is the first 8 bytes, the fields are the following words in order, the layout is 103 exactly for version 103, and reading ends after the last field. A header cut short fails as `Truncated` |
| Headers.HeaderFieldOffsets | icereader.py:341-379 | Both layouts read version, type, particle, edge, polygon and sample counts at offsets 8 to 28. Version 102 then reads blob and attribute counts and ends at 40. Version 103 reads the substep count before them and ends at 44 |
| Headers.ReadEncodedHeader | icereader.py:341-379 | A header written in its layout reads back as itself and stops right after its last field, whatever follows |
| Descriptors.Int | icereader.py:400 | A `read_int` succeeds exactly when four bytes remain, gives the word there and advances by 4; otherwise it fails with `Truncated` |
| Descriptors.ReadBlobNames | icereader.py:403-405 | A custom type's blob names, read as intended, are a count word followed by that many names |
| Descriptors.ReadBlobStage | icereader.py:402-405 | Only a custom type stores blob names; every other type reads nothing there |
| Descriptors.ReadFixedWords | icereader.py:407-410 | Structure, context, object id and category are four consecutive words |
| Descriptors.ReadLocatorStage | icereader.py:412-413 | Only a Location attribute stores a point-locator size; every other type leaves it 0 and reads nothing |
| Descriptors.ReadAttribute | icereader.py:398-413 | A descriptor spans at least 24 bytes (the name's length word, the data type and the four fixed words) and stays within the stream; it fails only with `Truncated` |
| Descriptors.ReadAttributeFields | icereader.py:398-413 | A decoded descriptor's name comes first and the data type right after it. Blob names appear only for a custom type. The category is the last word, except for a Location attribute, which ends with its locator size. The constant flag starts out true |
| Descriptors.ReadAttributeAt | icereader.py:398-413 | A written descriptor reads back as itself and the read stops right after it |
| Descriptors.ReadAttributes | icereader.py:143-154 | Exactly `n` descriptors are read, in file order, within the stream; the only failure is `Truncated` |
| Descriptors.ReadEncodedAttributes | icereader.py:143-154 | Descriptors written one after the other read back in order, and reading stops right after the last |
| Descriptors.AsWrittenDecides | icereader.py:402-405 | The as-written descriptor read raises exactly on a custom type with a positive blob count, and is otherwise the intended read |
| Descriptors.AsWrittenOnRead | icereader.py:398-413 | Wherever the intended descriptor read succeeds, the read as written gives the same descriptor when it has no blob names and raises otherwise |
| Descriptors.ReadAttributesAsWritten | icereader.py:143-154 | The descriptor loop as written is the intended loop or raises. When the intended loop succeeds, the loop as written gives the same descriptors exactly when none has blob names |
| Descriptors.BlobNameLoopRaises | icereader.py:402-405 | As written, a descriptor without blob names reads back whole, and one with blob names raises; the corrected read gives the latter back whole |
| Chunking.ChunkCount | icereader.py:235 | `chunks(n)` makes the fewest runs of `c` that hold `n` indices, and none for `n = 0` |
| Chunking.ChunksExactlyOnce | icereader.py:235-237 | Every index below `n` lies in exactly one run, at exactly one place |
| AttributeData.ElementCountContexts | icereader.py:205-218 | Exactly the five single-set contexts give an element count. Singleton gives 1, and 0D, 1D, 2D and 0D2D give the particle, edge, polygon and sample counts. Composite contexts and ElementGenerator give none |
| AttributeData.ReadChunk | icereader.py:239-275 | A kept chunk has one value per index and a flag that is true exactly when the flag word is non-zero; it fails only with `Truncated` |
| AttributeData.ReadAttributeData | icereader.py:173-283 | One attribute's data keeps the descriptor as it was except the constant flag, and stays within the stream. Whenever the pool has no accessor it fails with `NoAccessor`, and that is its only reason for `NoAccessor`; every other failure is `Truncated` |
| AttributeData.NoElementCountReadsNothing | icereader.py:216-218 | An attribute whose context gives no element count reads nothing and stores nothing |
| AttributeData.LocationHasNoAccessor | icereader.py:173-177 | A Location attribute always fails at the accessor lookup, before its own branch |
| AttributeData.PointPositionData | icereader.py:179-200 | The point positions read one flag and then exactly `particle_count` records, whatever the flag, context or selection. The array is always stored and holds `particle_count` records, and the flag sets the attribute's constant flag. With Vector3 this spans `4 + 12 * particle_count` bytes |
| AttributeData.WhatIsStored | icereader.py:179-233 | An array is stored exactly for the point positions, and for a kept attribute whose context gives an element count. It holds `particle_count` or element-count values |
| AttributeData.KeptIndices | icereader.py:235-275 | A kept attribute's array has exactly the element count of entries. The index at place `k` of chunk `j` holds the `k`-th value that chunk read, so every index is written exactly once |
| AttributeData.ChunkBytes | icereader.py:239-275 | For a fixed width, a constant chunk spans the flag and one record, and a non-constant chunk spans the flag and one record per index. The chunk is read exactly when those bytes remain, and a constant chunk gives the same value to every index |
| AttributeData.SkipRecord | icereader.py:276-283 | Passing one record over, as intended, stays within the stream and fails only with `Truncated` |
| AttributeData.SkipChunk | icereader.py:255-283 | A skipped chunk, as intended, spans at least its flag and stays within the stream. It keeps no values, its constant flag is the flag word's, and it fails only with `Truncated` |
| AttributeData.SkipRecordAgrees | icereader.py:192-197 | Passing a record over succeeds exactly when reading it does, and stops where the read stops |
| AttributeData.SkipChunkAgrees | icereader.py:239-283 | Passing a chunk over succeeds exactly when reading it does, stops where the read stops, and sees the same flag |
| AttributeData.SkippedAsKept | icereader.py:235-283 | Passing an attribute's chunks over succeeds exactly when reading them does, ends at the same place, and leaves the same constant flag |
| AttributeData.SelectionKeepsPlace | icereader.py:225-283 | Whether an attribute is selected does not change whether its data loads, where it ends, or the flag it leaves. A skipped attribute other than the point positions stores nothing |
| AttributeData.ReadAttributeDataAsWritten | icereader.py:173-283 | One pass of the data loop as written is the intended pass for a kept attribute and for one whose chunks are never reached. It stays within the stream, changes only the constant flag, fails with `NoAccessor` whenever there is no accessor, and otherwise fails only with `Truncated` or by raising |
| AttributeData.WhatIsStoredAsWritten | icereader.py:179-233 | As written too, an array is stored exactly for the point positions and for a kept attribute with an element count, sized by the particle or element count |
| AttributeData.ReadChunkAt | icereader.py:239-275 | A written chunk, shared or per index, reads back as its flag and one value per index, and stops right after the chunk |
| AttributeData.ReadChunksAt | icereader.py:235-275 | Chunks written one after the other read back in order, and the run stops right after the last |
| AttributeData.KeptAttributeAt | icereader.py:225-275 | A kept attribute whose chunks were written in order loads as the writer's values laid end to end. It keeps the last chunk's flag and ends right after the last chunk |
| AttributeData.SkipAsWrittenOvershoots | icereader.py:256-262 | As written, passing over a constant chunk of more than one index moves `len` records on, where the chunk holds one: `(len-1)` widths past the next flag |
| AttributeData.ConstantSkipCounterexample | icereader.py:241-262 | A concrete constant Long chunk of two indices: the kept read and the intended skip end at byte 8, and the skip as written ends at byte 12 |
| AttributeData.StringSkipCounterexample | icereader.py:276-283 | A concrete string chunk: the kept read and the intended skip end at byte 12, and the skip as written ends at byte 4, on the string's length word |
| AttributeData.CustomSkipCounterexample | icereader.py:276-283 | As written, passing over a custom-type chunk raises, because its accessor's `size()` returns None; the intended skip succeeds |
| Reader.StickyAsWritten | icereader.py:165-171 | As written, attribute `i` is kept exactly when the selection is empty or mentions attribute `i` or any attribute before it |
| Reader.StickySelectionCounterexample | icereader.py:165-171 | Selecting `Mass` from attributes `Mass`, `Size` keeps both as written, and only `Mass` as intended |
| Reader.DefaultSelectsPointPositionsOnly | icereader.py:62 | The intended default selects exactly `PointPosition___` |
| Reader.DefaultAsWrittenCounterexample | icereader.py:170 | The default as written is a string, so `in` is a substring test: an attribute called `Position` is selected, which the intended default does not select |
| Reader.DataMapLast | icereader.py:200 | A name is a key of `_data` exactly when some attribute of that name stored an array. It maps to the array of the last such attribute |
| Reader.Load | icereader.py:62-73 | A successful load carries the header that was read |
| Reader.LoadAsWritten | icereader.py:62-73 | A successful load as written carries the header that was read |
| Reader.LoadAsWrittenVersion | icereader.py:62-73 | As written too, a load reports an unsupported version exactly when the version word is missing or neither 102 nor 103. Its only other failures are `Truncated`, `NoAccessor`, and the raises of the blob-name loop and of the skip |
| Reader.LoadAsWrittenAttributes | icereader.py:143-171 | Whatever the selection, a load as written returns `attribute_count` attributes (none for a negative count), each its descriptor except for the constant flag |
| Reader.LoadAsWrittenKeepingAll | icereader.py:62-171 | With an empty selection, the load as written is the intended load or raises. When the descriptors can be read, it is the intended load exactly when none of them has blob names |
| Reader.LoadDataAsWritten | icereader.py:156-233 | After a load as written that read the data section, a name has an array exactly when an attribute of that name is the point positions, or has an element count and is at or after an attribute the selection mentions (or the selection is empty). The array has the particle or element count of values |
| Reader.DefaultLoadAsWritten | loader_process.py:39 | `reader.load()` as written stores the point positions and every later attribute that has an element count |
| Reader.NegativeAttributeCount | icereader.py:149-167 | An attribute count with its sign bit set reads no descriptor and stores nothing, in the load as written and as intended alike |
| Reader.LoadVersion | icereader.py:121-141 | A load reports an unsupported version exactly when the version word is missing or neither 102 nor 103. Its only other failures are `Truncated` and `NoAccessor` |
| Reader.DataRunItems | icereader.py:167-283 | The data loop hands back each descriptor with only its constant flag changed. It stores an array exactly for the point positions and for selected attributes with an element count, sized by the particle or element count |
| Reader.LoadAttributes | icereader.py:143-154 | A load returns `attribute_count` attributes, each its descriptor except for the constant flag |
| Reader.LoadData | icereader.py:156-233 | After a load that read the data section, a name has an array exactly when an attribute of that name is the point positions, or is selected and has an element count. The array has the particle or element count of values |
| Reader.DefaultLoadsPointPositionsOnly | icereader.py:62 | With the intended default selection, the point positions are the only array stored |
| CacheFiles.ValidFileIsStemAndExtension | icereader.py:325-326 | A name is a cache file exactly when it is some stem followed by `.icecache` |
| CacheFiles.TrailingDigits | icereader.py:300 | The digit run that ends a name is all digits, and is preceded by a non-digit or by nothing |
| CacheFiles.LastNumberOf | icereader.py:299-300 | A name made of anything ending in a non-digit, a digit run, and then no digits has that run's value as its number |
| CacheFiles.LastNumberNone | icereader.py:299-300 | A name has no number exactly when it contains no digit |
| CacheFiles.SortByFrame | icereader.py:298-310 | The sorted names are ordered by frame number and are a permutation of the input |
| CacheFiles.SortStable | icereader.py:310 | Sorting keeps names of equal frame number in their given order |
| CacheFiles.GetFilesSpec | icereader.py:296-323 | `get_files` gives `()` exactly for no names, and fails exactly when some name has no digit. Otherwise it returns the names as a frame-ordered, stable permutation. The start is the least frame, and the end is the greatest frame, or `start + len - 1` when the greatest exceeds the number of names |
| CacheFiles.ConsecutiveFramesEnd | icereader.py:316-323 | When the frames run one after another from the start, the end is the last frame, `start + len - 1` |

## Left out

- gzip decompression and file opening: the model starts from the decompressed bytes.
- `get_files_from_cache_folder` (icereader.py:285-294): walks the file system with `os.walk`.
- `ICEReader.export` and the `__str__` methods: file writing and text rendering of headers and descriptors.
- `AccessorFormat.Format`: renders numbers through a parameter. IEEE float values and `%f` rendering are not modelled; floats are kept as raw 4-byte words.
- `read_block`, `release_block` and `allocate_array` (icereader.py:185, 191, 228, 244, 268), and `flush`. The data loop calls the first three on the accessor, but none of the accessors in icereader_util.py defines them, and no definition of them is part of this model. The model reads records straight from the stream. For the same reason, the argument-less `accessor.read()` at icereader.py:194 is modelled as the accessor's `read(file)` on the stream.
- The per-record `try`/`except` around `accessor.read()` (icereader.py:193-197, 249-252, 270-273). The shown accessors never raise on a short stream, and the block they read from is not visible. `Accessors.ReadRecord` therefore treats a record cut short as a failed load (`Truncated`) rather than a stored False or empty tuple.
- The printed error messages and `report_error`.
- AttributeData.ElementCount: the particle, edge, polygon and sample counts are read by `read_int`, so a count with its sign bit set is negative. The model uses the unsigned word. What `chunks` and `allocate_array` do with a negative count is not visible, so that case is not modelled.
- Accessors.ReadWord: a Long is decoded as the unsigned word, while its array is `np.int32` (icereader_util.py:122-123). The wrap of values of 2^31 and above into negative numbers on storing is not modelled.
- Reader.Load: its own contract only ties the result to the header that was read. What a load returns is stated by Reader.LoadVersion, Reader.LoadAttributes and Reader.LoadData. The chunk size of the handler's `chunks` is not visible, so it is a positive parameter `c`.
- Reader.LoadAsWritten: likewise, its own contract only ties the result to the header that was read. What it returns is stated by Reader.LoadAsWrittenVersion, Reader.LoadAsWrittenAttributes, Reader.LoadDataAsWritten and Reader.LoadAsWrittenKeepingAll.
- CacheFiles.Frame: frame numbers are compared as exact integers. `get_files` compares `float()` values, which merge numbers beyond 2^53.
- CacheFiles.GetFiles: returns a new sorted sequence. The source sorts the caller's list in place, which the model does not represent.
- CacheFiles.SortByFrame: Python 2's `list.sort` with a comparison function is a stable merge sort. It is modelled by a stable insertion sort, so the model states the result (ordered, permutation, stable) and not the algorithm.
- Qt user interface, threads, processes and shared memory, the HDF5 reader, and camera and vector math are not part of this model.

## Findings

| source | as written | input that shows it | evidently intended | confidence | as-written member | corrected member |
|---|---|---|---|---|---|---|
| icereader.py:402-405 | The blob-name loop appends to `attrib`, which is not bound in `Attribute.read`, and to a tuple, so it raises. | Any custom-type descriptor with a blob count of 1 or more. | Read the count, then that many names into `blobtype_names`. | high, not executed | Descriptors.ReadAttributeAsWritten | Descriptors.ReadAttribute |
| icereader.py:256-262 | A skipped constant chunk passes over `len(chunk) * size()` bytes, while the kept path reads one record. | A constant Long chunk of 2 indices, bytes `01 00 00 00 07 00 00 00` then the next flag: the skip ends at byte 12 instead of 8. | Pass over the bytes the kept path reads: the flag and one record. | high, not executed | AttributeData.SkipChunkAsWritten | AttributeData.SkipChunk |
| icereader_util.py:204-205 | The String accessor's `size()` is 0, so a skipped string chunk passes over no bytes after its flag. | A non-constant string chunk of one index holding `"abcd"`: the skip ends at byte 4, on the length word, instead of 12. | Pass over each length-prefixed, padded string. | high, not executed | AttributeData.SkipChunkAsWritten | AttributeData.SkipChunk |
| icereader_util.py:187-188 | The custom-type accessor's `size()` returns None (it inherits the base `size`, whose body is `pass`), so skipping its chunks multiplies by None and raises. | Any unselected custom-type attribute with an element count. | Pass over the chunk as the kept path reads it. | medium, not executed | AttributeData.SkipChunkAsWritten | AttributeData.SkipChunk |
| icereader.py:62 | The default `('PointPosition___')` is a string, not a one-element tuple, so `attrib.name in data_to_load` is a substring test. | An attribute called `Position` (or `Posi`, or `tion`: names are read with their padding, so their length is a multiple of 4) is selected by default. | Select the name `PointPosition___` only. | high, not executed | Reader.DefaultSelectionAsWritten | Reader.DefaultSelection |
| icereader.py:165-171 | `to_keep` is set once a selected name is seen and never cleared, so every later attribute is kept as well. | Selecting `Mass` from attributes `Mass`, `Size` keeps `Size` too. | Keep each attribute on its own name. | medium, not executed | Reader.KeepFlagsAsWritten | Reader.KeepFlags |

The lemmas that exhibit each row:

- Blob-name loop: Descriptors.BlobNameLoopRaises, with Descriptors.ReadAttributeAt for the corrected read.
- Skip of a constant chunk: AttributeData.SkipAsWrittenOvershoots and AttributeData.ConstantSkipCounterexample.
- String skip: AttributeData.StringSkipCounterexample.
- Custom-type skip: AttributeData.CustomSkipCounterexample.
- Corrected skip path: AttributeData.SkipChunkAgrees, AttributeData.SkippedAsKept and AttributeData.SelectionKeepsPlace.
- The whole load as written: Reader.LoadAsWritten is built from the as-written descriptor loop, skip path and keep flags. Reader.LoadAsWrittenKeepingAll ties it to Reader.Load, and Reader.LoadDataAsWritten and Reader.DefaultLoadAsWritten state what it stores.
- Default selection: Reader.DefaultAsWrittenCounterexample and Reader.DefaultLoadAsWritten, with Reader.DefaultLoadsPointPositionsOnly for the corrected default.
- Sticky selection: Reader.StickyAsWritten, Reader.StickySelectionCounterexample and Reader.LoadDataAsWritten. Reader.Load, Reader.DataRunItems and Reader.LoadData use the corrected per-attribute flags.
