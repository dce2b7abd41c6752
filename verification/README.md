# A model of the native-protocol client

A ClickHouse native-protocol client, written in Rust, modelled in Dafny. The
model covers the byte-level parsers of column data, the two resumable stream
machines below them, the ownership protocol of pooled connections, and the
codecs they rest on. `dafny verify dfyconfig.toml` checks the whole project.

## How it is laid out

| files | what they hold |
|---|---|
| `Bytes`, `Limits`, `Varint`, `Utf8` | bytes, little-endian numbers, the wire caps, unsigned LEB128, UTF-8 |
| `ColumnTypes`, `TypeText`, `TypeNames`, `TypeReturned`, `TypeRoundTrip` | column types, their printer and parser, which trees print legibly, what the parser can return, the round trip |
| `SkipSpec`, `SkipColumn`, `StateShape` | the column skipper: what it computes, the loops that compute it, the states it threads |
| `WireFormat`, `FramingComplete`, `FramingSound`, `Framing` | the wire format of a column as data, and exact framing in both directions |
| `VariantDecode`, `DecodeColumn`, `DecodeAgreement`, `LeafAgreement`, `VariantAgreement` | the value decoder, its loops, and for which types it agrees with the skipper |
| `DecodePanics`, `ScatterGather` | where the value decoder panics; grouping rows by type and back |
| `StringColumn`, `DiscardColumn`, `DiscardShape`, `DiscardAgreement`, `DiscardWitness` | the streaming reader of strings, the streaming discarder, skipper and discarder in one shape, and for which types they agree |
| `LowCardinality`, `BufferedDictionary` | the two dictionary expansions and how far they agree |
| `Compression`, `Sockets`, `Decompressing` | compression frames, the network, the stream that joins frames |
| `Transport` | chunked and raw transport |
| `Pool`, `PoolHolders` | ownership of pooled connections as steps, and the objects that take those steps |
| `Batch` | demultiplexing of pipelined result sets |
| `BlockFormat`, `Rows`, `Identifiers` | block writer and walk, bulk row reading, identifier quoting |

Code that only computes is a function. Code that advances a position or fills a
buffer is a method with a loop, proved equal to its function. The two streams,
the transport wrapper, the guard, the block stream, the insert session and the
response budget are classes. The specification that matters is in each case
written independently of the code: a tree of written parts for columns, a
concatenation for streams, a lookup for dictionaries, segments between
terminators for batches.

Numbers are unbounded; every place where the code's 64-bit or 32-bit integers
matter (varints, offsets, frame sizes, discriminator widths, the budget) states
its bound. Bytes are integers below 256. Errors are an enumeration; their texts
are not modelled.

## What is assumed

- The compressors and CityHash128 are parameters. The round trips of module
  `Compression` assume that expanding undoes shrinking and that a hash has 16
  bytes; nothing else is assumed of them.
- The peer of a stream is a byte sequence and a scheduler that may deliver any
  part of it, nothing yet, an error or end of stream at each poll.
- `Pool.PoolSafety` assumes the contract written at `src/pool.rs:1172-1175`, that
  an error which is not fatal is reported only once the response has ended, and
  that a client does not call `next_block`, `send_data` or `end` again after a call
  of `next_block` or `send_data` failed or was abandoned inside a packet. Both
  assumptions are shown to be needed; a cancellation may be abandoned at any time.
- The value decoder takes the largest counts for which its vectors can be allocated
  as a parameter; above them `with_capacity` panics or the process aborts. Vectors of
  as many bytes or numbers as were already read from the buffer are taken to fit.
- `Rows.Faithful`: reading a column's buffer as the column's own type gives its
  cells, so the buffer holds exactly the column.

## Where code and promise part

- `Decompressing.Stream.PullFrame`: the comment at
  `src/connection/block_reader.rs:384-388` promises fresh bytes on success. There are
  some exactly when the frame's header announces a positive size;
  `EmptyFrameIsNotFresh` is a frame with none. The caller's loop then pulls the next.
- The value decoder and the skipper: `LeavesAgree` says for every leaf type and row
  count whether they agree on all buffers, `VariantsAgree` and `DynamicsAgree` for
  Variant columns and Dynamic bodies. They part on `Nothing`, JSON, unknown types,
  Dynamic and geometry inside the decoder, on Decimals of no legal precision without
  rows, on a Variant or Dynamic over no types, and on version-1 Dynamic with more than
  255 types (`DeprecatedCountsAgree`).
- The streaming discarder goes by the printed names of inner types, and Enum8, Enum16
  and the two aggregate functions print as names that read back as unknown types.
  JSON in a dictionary lacks its state for the skipper only. `DiscardExactly` says for
  which types the two agree on every buffer up to two caps: the discarder does not
  apply the column cap to fixed-width columns, the skipper not to the strings of
  unknown types, of which the discarder charges the bytes and the shortest prefixes
  (`WrittenTexts`, `PrefixesAreCharged`). On a buffer no longer than the column cap
  neither matters (`SmallBuffersAgree`).
- A named tuple element of a parameterised type is an unknown type to the parser:
  `NamedElement`.
- `materialize_lc_inner` is said to mirror the synchronous implementation
  (`src/cursor.rs:81-85`). It gives the same bytes on every dictionary exactly for the
  inner types it expands as cells: `MirrorsExactly`. Of strings the two hold the same
  texts (`SameStrings`). For inner types outside its table the first writes bytes that
  the skipper refuses as a LowCardinality column (`UnexpandedIsRefused`); of these the
  second expands times, JSON and nullable cells and refuses the rest.
- The synchronous expansion of a LowCardinality(JSON) column takes the eight bytes of
  the version for the first seven, or four, entries: `JsonEntriesAreShifted`.
- The buffered walk replaces a LowCardinality column by its rows, so that a written
  block need not come back as it was: `DictionaryIsRewritten`, `BlockRoundTrip`. With
  inner type Nullable(FixedString(18446744073709551615)) and no keys the code adds one to
  the largest 64-bit number and panics; the model refuses the column.
- The value decoder panics on some descending offsets and on counts from the wire that
  are too large to allocate; `ArrayPanics` and `MapPanics` say exactly when, and
  `SizedArrayPanics` and `SizedMapPanics` say it by the bytes alone.
- `encode_frame` and `write_packet` accept up to 4 GiB, the readers 64 MiB;
  `FrameRoundTrip` and `PacketRoundTrip` say exactly when the round trip holds.
- A BlockStream that is read on after an error inside a packet, or after a call of
  `next_block` was abandoned there, can return a connection with an unread response to
  the pool: `ReadingOnIsUnsafe`, `AbandonedReadIsUnsafe`. So can an InsertSession that
  is ended after an abandoned `send_data`: `AbandonedSendIsUnsafe`.
- `read_all` differs from `from_row` on some block with given column names and types
  exactly when it can succeed there and either takes a field from another column,
  which needs two fields of one name, or reads an 8-bit field from an Enum16 or a
  16-bit field from an Enum8: `BulkPathExact`.

## Model

| member | source | states |
|---|---|---|
| `Varint.VarintAtMeaning` | shared/wire.rs:139-165 | a varint is read at a position exactly when the bytes up to the end form a terminated group sequence of at most ten bytes below 2^64, and then with its value: no payload bit is dropped |
| `Varint.EncodeDecodes` | shared/wire.rs:71-84 | the encoding of every u64, wherever it stands, is read back with its value and its length, at most ten bytes |
| `Varint.EncodeShortest` | shared/block_writer.rs:90-97 | no varint of the same value is shorter than the written one |
| `Varint.WriteVarint` | shared/wire.rs:71-84 | the writer's loop appends the canonical encoding |
| `Varint.EncodeVarintTo` | src/cursor.rs:264-272 | the second writer, which decides before shifting, appends the same bytes |
| `Varint.VarintLen` | shared/block_writer.rs:90-97 | the length computed without writing is the length of the canonical encoding |
| `Varint.ParseVarint` | shared/wire.rs:139-165 | the buffer reader accepts the language above with the same value, end and error |
| `Varint.ReadVarint` | shared/wire.rs:17-35 | the stream reader accepts the same byte strings with the same value and length |
| `Varint.ParseVarintChecked` | shared/dynamic_variant.rs:271-292 | the decoder's counted loop accepts the same byte strings; it differs only in the error for ten unterminated bytes at the end |
| `Varint.ReadVarintBytes` | src/cursor.rs:278-296 | the slice reader accepts the same byte strings with the same value and length |
| `Utf8.RoundTrip` | shared/wire.rs:176-190 | decoding the UTF-8 encoding of any text gives the text |
| `Utf8.ExactText` | shared/wire.rs:176-190 | a byte string decodes to a text exactly when it is the encoding of that text, so overlong forms, surrogates and everything else malformed are refused |
| `TypeText.FindTopLevelComma` | shared/type_parser.rs:403-415 | the scan finds the first comma outside parentheses, or that there is none |
| `TypeText.ParseTypeList` | shared/type_parser.rs:218-240 | the loop over a parameter list parses the types between top-level commas in order, or fails with the first that fails |
| `TypeReturned.ReturnedIsLegible` | shared/type_parser.rs:178-400 | whatever text is parsed, unbalanced parentheses, quotes and commas in unknown names included, the type returned is legible: the commas between its parts are where the parser looks for them in its printed name; and it nests at most 256 deep |
| `TypeNames.BalancedIsLegible` | shared/type_parser.rs:403-415 | a tree whose unknown names close what they open and hold no comma outside is legible |
| `TypeRoundTrip.Reparse` | shared/type_parser.rs:106-414 | parsing the printed name of any legible tree at any depth gives its normal form, or the nesting error, and nothing else |
| `TypeRoundTrip.ReturnedIsReread` | shared/type_parser.rs:106-414 | the printed name of a type parsed from any text whatever is read back as the normal form of the type |
| `TypeRoundTrip.NamedElement` | shared/type_parser.rs:353-354 | a label before a parameterised type makes it an unknown type, the whole text its name |
| `TypeRoundTrip.PrintNormal` | shared/type_parser.rs:106-174 | a type and its normal form print the same name |
| `TypeRoundTrip.NormalIsIdentity` | shared/type_parser.rs:135-152 | the normal form is the type itself exactly when none of the four types printed without parameters occurs in it |
| `TypeRoundTrip.PrintParseRoundTrip` | shared/type_parser.rs:106-414 | any type tree survives printing and parsing exactly when it is legible, nests at most 256 deep and has no bare Enum8, Enum16, AggregateFunction or SimpleAggregateFunction |
| `TypeRoundTrip.InnerDispatch` | src/connection/block_reader.rs:765-796 | below any type that survives printing and parsing, a reader that recurses by printing an inner type, Tuple elements included, and parsing the name dispatches on that inner type |
| `Limits.NextOffset` | src/limits.rs:181-193 | an offset is accepted exactly when it is not below its predecessor and within the row cap |
| `SkipSpec.SkipPrefix` | shared/skip_column.rs:204-238 | reading a state prefix ends on every buffer and type, names from the wire included, and stays inside the buffer |
| `SkipSpec.SkipDynamicState` | shared/skip_column.rs:449-477 | reading a Dynamic state ends even when the names on the wire nest Dynamic in Dynamic |
| `SkipSpec.SkipJsonState` | shared/skip_column.rs:378-422 | reading a JSON state ends and stays inside the buffer |
| `SkipSpec.SkipBody` | shared/skip_column.rs:242-360 | skipping a subcolumn body ends on every buffer, type, state and row count, never moves backwards and never leaves the buffer |
| `SkipSpec.SkipData` | shared/skip_column.rs:85-171 | the same for whole columns, aliases such as Ring included |
| `SkipSpec.DiscWidth` | shared/skip_column.rs:725-735 | the discriminator width holds the type count itself, and half of it would not |
| `FramingComplete.DataComplete` | shared/skip_column.rs:85-171 | every well-formed column of every type tree, wherever it stands and whatever follows, is skipped exactly to its end |
| `FramingComplete.BodyComplete` | shared/skip_column.rs:242-360 | the same for subcolumn bodies behind their state |
| `FramingComplete.PrefixComplete` | shared/skip_column.rs:204-238 | every well-formed state prefix is read to its end and leaves the state it encodes |
| `FramingComplete.DynamicStateComplete` | shared/skip_column.rs:449-477 | every well-formed Dynamic state, whatever its names nest, is read to its end and leaves the version, names and states it encodes |
| `FramingComplete.JsonStateComplete` | shared/skip_column.rs:378-422 | every well-formed JSON state is read to its end and leaves one Dynamic state per path |
| `FramingComplete.JsonDataComplete` | shared/skip_column.rs:365-374 | every JSON column sent as text, under either version, is skipped to its end |
| `FramingSound.DataSound` | shared/skip_column.rs:85-171 | whatever is skipped is a well-formed column: a tree of its parts exists whose bytes are the skipped bytes |
| `FramingSound.BodySound` | shared/skip_column.rs:242-360 | the same for subcolumn bodies |
| `FramingSound.PrefixSound` | shared/skip_column.rs:204-238 | the same for state prefixes and the state they leave |
| `FramingSound.DynamicStateSound` | shared/skip_column.rs:449-477 | whatever is read as a Dynamic state is the writing of the state it leaves |
| `FramingSound.JsonStateSound` | shared/skip_column.rs:378-422 | whatever is read as a JSON state is the writing of the state it leaves |
| `FramingSound.JsonDataSound` | shared/skip_column.rs:365-374 | whatever is skipped as JSON text is a version and one string per row |
| `Framing.ExactFraming` | shared/skip_column.rs:85-171 | the skipper stops at a position exactly when the bytes up to it are a column of the type and row count it was given |
| `Framing.SkipIsLocal` | shared/skip_column.rs:80-85 | a skip depends only on the bytes it passes over; the same bytes elsewhere before any suffix are skipped by as much |
| `Framing.PrefixFree` | shared/skip_column.rs:85-171 | no column is a proper prefix of another of the same type and row count |
| `Framing.TruncatedIsRejected` | shared/skip_column.rs:712-723 | a column cut off anywhere is refused |
| `StateShape.PrefixShape` | shared/skip_column.rs:204-238 | the state a prefix leaves has the shape of its type at every depth, with one state per Dynamic type name |
| `StateShape.BodyFinds` | shared/skip_column.rs:302-330 | a body with a state that serves its type never fails for want of a state |
| `StateShape.PrefixedBodyFindsState` | shared/skip_column.rs:204-360 | a body read with the state of its own prefix never reaches the missing-state errors |
| `StateShape.VariantFindsStates` | shared/skip_column.rs:149-155 | nor does a Variant body with the states of its members |
| `StateShape.DynamicFindsStates` | shared/skip_column.rs:534-547 | nor does a Dynamic body with the state read before it |
| `StateShape.DictionaryLacksState` | shared/skip_column.rs:148-148 | LowCardinality over JSON or Dynamic fails for want of a state exactly when its header is good and its dictionary is not empty |
| `SkipColumn.SkipStringRows` | shared/skip_column.rs:694-700 | the loop over length-prefixed strings computes the specified end |
| `SkipColumn.SkipOffsetRows` | shared/skip_column.rs:674-691 | the loop over offsets computes the specified total and end |
| `SkipColumn.ReadTypeNames` | shared/skip_column.rs:655-669 | the loop over names returns the specified names and end |
| `SkipColumn.CountDiscriminators` | shared/skip_column.rs:563-569 | the counting loop gives, for each type, the number of rows that name it |
| `SkipColumn.ScanDiscriminators` | shared/skip_column.rs:480-530 | the scans of the three Dynamic layouts give the counts of the specified discriminators, or the specified error |
| `SkipColumn.SkipStatePrefixes` | shared/skip_column.rs:217-233 | the loop over member types computes the specified states and end |
| `SkipColumn.SkipNamedPrefixes` | shared/skip_column.rs:466-471 | the loop over type names computes the specified states and end |
| `SkipColumn.SkipBodyRaw` | shared/skip_column.rs:242-360 | the body skipper computes the specified end or error |
| `SkipColumn.SkipMapRaw` | shared/skip_column.rs:270-283 | the same for maps |
| `SkipColumn.SkipTupleRaw` | shared/skip_column.rs:284-294 | the same for tuples, element by element |
| `SkipColumn.SkipVariantRaw` | shared/skip_column.rs:552-604 | the same for both Variant modes |
| `SkipColumn.SkipLcColumn` | shared/skip_column.rs:608-652 | the same for dictionaries |
| `SkipColumn.SkipDynamicRaw` | shared/skip_column.rs:480-530 | the same for the Dynamic layouts |
| `SkipColumn.SkipCountedSubcolumns` | shared/skip_column.rs:534-547 | the same for subcolumns with their counted rows |
| `SkipColumn.SkipJsonBodyRaw` | shared/skip_column.rs:425-446 | the same for the raw JSON layouts |
| `SkipColumn.SkipColumnData` | shared/skip_column.rs:85-171 | the column skipper computes the specified end or error |
| `SkipColumn.SkipArrayColumn` | shared/skip_column.rs:119-124 | the same for arrays |
| `SkipColumn.SkipMapColumn` | shared/skip_column.rs:125-131 | the same for maps |
| `SkipColumn.SkipTupleColumn` | shared/skip_column.rs:132-136 | the same for tuples |
| `StringColumn.ReadStringColumn` | src/connection/io.rs:562-646 | the streaming reader of strings, which reads short strings together with the first byte of the next prefix, succeeds exactly when specified, stops at the specified end and returns every string behind its shortest prefix |
| `StringColumn.CappedExactly` | src/connection/io.rs:611-616 | it takes the strings exactly when they are there and, written with shortest prefixes, take up at most the column cap |
| `StringColumn.SizeConsumes` | src/connection/io.rs:611-616 | what it charges is never more than the bytes it reads |
| `StringColumn.PackIsColumn` | src/connection/io.rs:617-646 | what it returns is a column of the same strings |
| `DiscardColumn.DiscardExact` | src/connection/block_reader.rs:1036-1048 | discarding window by window passes over exactly the given number of bytes, or fails when there are fewer |
| `DiscardColumn.DiscardOffsets` | src/connection/block_reader.rs:1008-1034 | validating offsets window by window succeeds exactly when checking them all at once does, with the same total and end |
| `DiscardColumn.DiscardColumnData` | src/connection/block_reader.rs:863-969 | the recursive discarder succeeds exactly when specified, with the specified end, for types without Variant and Dynamic |
| `DiscardColumn.DiscardByName` | src/connection/block_reader.rs:934-951 | so does the step that prints an inner type and parses the name, names that do not parse read as strings without a cap |
| `DiscardColumn.Reread` | src/connection/block_reader.rs:934-951 | the name of a legible inner type is read back as its normal form, no larger than the type, or refused for nesting |
| `DiscardColumn.StatelessBody` | shared/skip_column.rs:242-360 | a subcolumn body of any type without JSON, Variant or Dynamic parts is skipped as a column of that type, whatever state it is given |
| `DiscardAgreement.DiscardAgrees` | src/connection/block_reader.rs:863-1006 | for a type that makes no difference, whatever the skipper takes the discarder takes to the same end, unless the strings of an unknown type, with their shortest prefixes, add up to more than the column cap, and whatever the discarder takes the skipper takes to the same end, unless a fixed-width column is over the cap |
| `DiscardAgreement.SmallBuffersAgree` | src/connection/block_reader.rs:863-1006 | for such a type and a buffer no longer than the column cap the two succeed together and stop at the same place |
| `DiscardAgreement.WrittenTexts` | src/connection/io.rs:611-616 | written strings of an unknown type are always taken by the skipper, and by the discarder exactly when prefixes and bytes are within the column cap |
| `DiscardAgreement.PrefixesAreCharged` | src/connection/io.rs:611-616 | four strings of 0xFFFFFF bytes, whose lengths are within the cap, are taken by the skipper and refused by the discarder |
| `DiscardShape.ReturnedIsParsed` | shared/type_parser.rs:178-400 | the agreement lemmas hold for every type the parser returns that has no Variant or Dynamic part |
| `DiscardShape.WalkIsSkip` | shared/skip_column.rs:85-171 | over types without Variant and Dynamic the skipper, outside and inside a dictionary, is a head, the parts one after the other, and a tail |
| `DiscardShape.DiscardIsToss` | src/connection/block_reader.rs:863-969 | so is the discarder: sending inner types through their names changes nothing but the types that print without parameters |
| `DiscardWitness.DiscardDiffers` | src/connection/block_reader.rs:934-951 | for a type that makes a difference, at any depth, a column of one row is built that one of them takes and the other does not take to the same end |
| `DiscardWitness.DiscardExactly` | src/connection/block_reader.rs:863-1006 | the two agree on every buffer, for every number of rows, up to the two caps, exactly when no part below a constructor prints without its parameters or is JSON in a dictionary, where all its neighbours can be taken |
| `DiscardColumn.WideColumnDiffers` | src/connection/block_reader.rs:886-905 | a column over the column cap is refused by the skipper and passed over by the discarder |
| `DiscardColumn.AliasNames` | src/connection/block_reader.rs:957-959 | the names the discarder spells out for the geo aliases are the printed names of what they stand for |
| `DiscardColumn.NestedEnumDiffers` | src/connection/block_reader.rs:938-941 | a one-row Array(Enum8) column that the skipper accepts and the discarder refuses |
| `VariantDecode.Decode` | shared/dynamic_variant.rs:660-1046 | for every type and every size of memory, a decoder that succeeds returns exactly one value per row and stops inside the buffer, not before its start |
| `VariantDecode.DecodeVariant` | shared/dynamic_variant.rs:432-447 | a Variant body that decodes gives exactly one entry per row |
| `VariantDecode.DecodeFlat` | shared/dynamic_variant.rs:520-544 | so does a flattened Dynamic body |
| `VariantDecode.DecodeDeprecated` | shared/dynamic_variant.rs:494-518 | so does a version-1 Dynamic body |
| `DecodeColumn.DecodeFixed` | shared/dynamic_variant.rs:1048-1067 | the chunk loop decodes the specified cells |
| `DecodeColumn.DecodeStringRows` | shared/dynamic_variant.rs:948-957 | the string loop decodes the specified texts or fails with the specified error |
| `DecodeColumn.ParseOffsets` | shared/dynamic_variant.rs:1086-1092 | the offset loop reads the specified offsets |
| `DecodeColumn.SliceAll` | shared/dynamic_variant.rs:983-988 | the slicing loop gives the specified slices, or stops where a slice would panic |
| `DecodeColumn.ScatterLoop` | shared/dynamic_variant.rs:568-604 | the row loop with one cursor per subcolumn gives each row the value counted by the earlier rows of its type |
| `DecodeColumn.DecodeColumnValues` | shared/dynamic_variant.rs:660-1046 | the recursive decoder returns the specified values, end, error or panic, the allocation for all rows coming first |
| `DecodeColumn.DecodeEach` | shared/dynamic_variant.rs:577-580 | subcolumns are decoded in type order, each for its own count |
| `DecodeColumn.ParseVariantValues` | shared/dynamic_variant.rs:432-492 | both Variant modes give the specified rows |
| `DecodeColumn.ParseVariantCompact` | shared/dynamic_variant.rs:635-658 | a compact granule gives the specified rows, or the panic of its unchecked count |
| `DecodeColumn.ParseFlatDynamic` | shared/dynamic_variant.rs:520-544 | the flattened layout gives the specified rows |
| `DecodeColumn.ParseDeprecatedDynamic` | shared/dynamic_variant.rs:494-518 | the version-1 layout gives the specified rows |
| `DecodeAgreement.DecodeReads` | shared/dynamic_variant.rs:660-1046 | on a written column of scalars, String, FixedString, Nullable, Array, Map and Tuple the decoder returns the column's values row by row and stops behind it, or reports a string that is not UTF-8, exactly when there is one |
| `DecodeAgreement.TwoParsersAgree` | shared/skip_column.rs:85-136 | whatever the skipper accepts for such a type, the decoder reads to the same end with as many values as rows, every slice in range and every vector allocated, or reports invalid UTF-8 |
| `DecodePanics.SlicesInRange` | shared/dynamic_variant.rs:983-988 | slicing succeeds exactly when no offset drops below both its predecessor and the number of values |
| `DecodePanics.ArrayPanics` | shared/dynamic_variant.rs:979-989 | the decoder panics on an Array, on any buffer, exactly when the rows cannot be allocated, or the offsets are there and the elements panic, or are read and an offset below the total is smaller than the one before it |
| `DecodePanics.MapPanics` | shared/dynamic_variant.rs:990-1007 | the same for the keys and values of a Map |
| `DecodePanics.SizedReads` | shared/dynamic_variant.rs:660-1067 | a column of a type whose rows all take the same number of bytes is read exactly when its bytes are there |
| `DecodePanics.SizedArrayPanics` | shared/dynamic_variant.rs:979-989 | over such elements an Array panics exactly when the rows or the last offset cannot be allocated, or all bytes are there and an offset below the last is smaller than the one before it |
| `DecodePanics.SizedMapPanics` | shared/dynamic_variant.rs:990-1007 | the same for a Map |
| `DecodePanics.DescendingOffsetsPanic` | shared/dynamic_variant.rs:983-988 | three rows of Array(UInt8) on which it does |
| `DecodePanics.HugeTotalPanics` | shared/dynamic_variant.rs:1086-1092 | eight bytes on which it does, whatever the element type: one offset that cannot be allocated |
| `DecodePanics.HugeGranulePanics` | shared/dynamic_variant.rs:642-647 | twenty-four bytes of a compact Variant granule on which it does |
| `LeafAgreement.LeavesAgree` | shared/dynamic_variant.rs:666-1044 | for every leaf type and row count, the decoder stops where the skipper stops on all buffers the skipper takes exactly when the type is a scalar, String or FixedString, or the skipper takes no such column, or there are no rows and the type is in the decoder's table |
| `LeafAgreement.NothingDiffers` | shared/dynamic_variant.rs:958-960 | the skipper steps over a byte per row of Nothing, the decoder over none |
| `LeafAgreement.RestJumps` | shared/dynamic_variant.rs:1033-1043 | without rows the skipper stays at a type outside the decoder's table, every Decimal of no legal precision included, and the decoder jumps to the end |
| `ScatterGather.ScatterRows` | shared/dynamic_variant.rs:582-603 | with enough values per type the out-of-bounds error is unreachable, and row i takes the k-th value of its subcolumn, k being the number of earlier rows of its type |
| `ScatterGather.GatherThenScatter` | shared/dynamic_variant.rs:449-492 | grouping any tagged rows by type and scattering them again restores the rows in order |
| `ScatterGather.ScatterThenGather` | shared/dynamic_variant.rs:449-492 | scattering and grouping again restores the subcolumns and the discriminators |
| `ScatterGather.WidthLossless` | shared/dynamic_variant.rs:606-633 | discriminators up to and including the NULL marker survive encoding in the chosen width |
| `ScatterGather.WidthMinimal` | shared/dynamic_variant.rs:606-616 | in half the width the NULL marker itself would not |
| `VariantAgreement.ScatteredReads` | shared/dynamic_variant.rs:568-604 | behind the discriminators the decoder returns the rows they stand for, or reports invalid UTF-8, and never an index error |
| `VariantAgreement.VariantReads` | shared/dynamic_variant.rs:432-492 | a written Variant body of either mode is decoded to its rows and its end |
| `VariantAgreement.VariantColumnsAgree` | shared/skip_column.rs:149-155 | on a Variant column that the skipper accepts, over at least one decodable type, the decoder stops at the same place with the rows that stand there |
| `VariantAgreement.EmptyVariantDiffers` | shared/skip_column.rs:555-558 | over no type the skipper stops behind the mode and the decoder goes on |
| `VariantAgreement.VariantsAgree` | shared/dynamic_variant.rs:432-492 | over decodable types the decoder stops where the skipper stops on all Variant columns exactly when there is a type and a row |
| `VariantAgreement.FlatBodiesAgree` | shared/skip_column.rs:506-525 | on a flattened Dynamic body that the skipper accepts the decoder reads the rows that stand there and stops at the same place |
| `VariantAgreement.DeprecatedCountsAgree` | shared/skip_column.rs:488-505 | in the version-1 layout skipper and decoder count the same rows for every type exactly when there are at most 255 types or no discriminator is 255 |
| `VariantAgreement.DeprecatedBodiesAgree` | shared/dynamic_variant.rs:494-518 | under that condition they stop at the same place |
| `VariantAgreement.TypelessDynamicDiffers` | shared/skip_column.rs:483-485 | over no type the skipper stays and the decoder reads a byte per row |
| `VariantAgreement.DynamicsAgree` | shared/dynamic_variant.rs:494-544 | over decodable types it does on all Dynamic bodies exactly when there is a type or no row, in the version-1 layout for up to 255 types |
| `VariantAgreement.VariantRoundTrip` | shared/dynamic_variant.rs:449-492 | rows written as a Variant column grouped by type are read back in order |
| `VariantAgreement.FlatRoundTrip` | shared/dynamic_variant.rs:520-604 | rows written as a flattened Dynamic body are read back in order |
| `LowCardinality.IndexIsWritten` | src/cursor.rs:233-262 | behind the length check the lenient index reader returns the written index, never a 0 in place of missing bytes, for widths 1, 2, 4 and 8 |
| `LowCardinality.ExpandIsLookup` | src/cursor.rs:209-224 | row i of a fixed-width expansion is the dictionary entry its index names |
| `LowCardinality.MaterializeFixed` | src/cursor.rs:186-226 | fixed-width expansion succeeds exactly when the output is within the column cap and every index names a whole entry, and then gives the expansion |
| `LowCardinality.EntryBounds` | src/cursor.rs:126-146 | the dictionary scan finds the bounds of each entry exactly when the dictionary is a sequence of strings |
| `LowCardinality.MaterializeStrings` | src/cursor.rs:125-171 | String expansion succeeds exactly when the dictionary parses, every index names an entry and the payload is within the column cap |
| `LowCardinality.ExpandStringsIsLookup` | src/cursor.rs:147-170 | reading a String expansion, before any further strings, gives row by row the entry the index names |
| `LowCardinality.MaterializeInner` | src/cursor.rs:86-184 | the dispatch over inner types succeeds exactly when the index bytes are there and the expansion of that type succeeds, and then gives it; other inner types are copied |
| `LowCardinality.UnexpandedIsRefused` | src/cursor.rs:167-181 | what is copied for other inner types is refused by the skipper as a LowCardinality column of any inner type |
| `LowCardinality.FixedRowsAreEntries` | src/cursor.rs:186-226 | on success the output has one cell per row within the cap, and cell i is the entry named by the i-th written index |
| `LowCardinality.StringRowsAreEntries` | src/cursor.rs:125-171 | on success the payload is within the cap, and the i-th string is the entry named by the i-th written index |
| `LowCardinality.FixedIsColumn` | src/cursor.rs:86-124 | the skipper reads a fixed-width expansion as exactly one column of the inner type |
| `LowCardinality.StringsAreColumn` | src/cursor.rs:125-171 | the skipper reads a String expansion as exactly one String column when no entry exceeds the string cap |
| `BufferedDictionary.StrictIsLenient` | src/sync/protocol/response.rs:1623-1654 | where the index bytes are there the strict index reader returns what the lenient one does, elsewhere it fails |
| `BufferedDictionary.MaterializeCells` | src/sync/protocol/response.rs:1524-1548 | fixed-width expansion succeeds exactly when the indexes are there, the output is within the cap and every index names a whole entry |
| `BufferedDictionary.RawBounds` | src/sync/protocol/response.rs:1553-1568 | the dictionary scan finds where each entry, prefix included, begins and ends |
| `BufferedDictionary.MaterializeRaw` | src/sync/protocol/response.rs:1550-1586 | string expansion succeeds exactly when the dictionary parses, every index names an entry and the output, prefixes included, is within the cap; it copies entries with their own prefixes |
| `BufferedDictionary.MaterializeNullable` | src/sync/protocol/response.rs:1588-1621 | nullable expansion succeeds exactly for fixed-width inner types whose values expand and whose indexes name a flag, and gives the flags, then the values |
| `BufferedDictionary.Materialize` | src/sync/protocol/response.rs:1494-1522 | the dispatch over inner types, nullable ones included, succeeds exactly when specified, with the specified rows |
| `BufferedDictionary.SameStrings` | src/sync/protocol/response.rs:1550-1586 | of String dictionaries both implementations give, row by row, the entry the index names |
| `BufferedDictionary.MirrorsExactly` | src/cursor.rs:78-184 | the two implementations agree on every dictionary exactly for the inner types that `src/cursor.rs` expands as cells |
| `BufferedDictionary.MaterializedIsColumn` | src/sync/protocol/response.rs:1494-1612 | for every inner type but JSON the skipper reads the expansion as exactly one column of that type, if its dictionary was one |
| `BufferedDictionary.NullRowsAreKeys` | src/sync/protocol/response.rs:1614-1621 | the number of entries guessed from the length of a nullable dictionary is its number of keys |
| `BufferedDictionary.NullableRowsAreEntries` | src/sync/protocol/response.rs:1588-1612 | flag and value of each row are those of the entry its written index names |
| `BufferedDictionary.JsonEntriesAreShifted` | src/sync/protocol/response.rs:1516-1516 | the entries found in a JSON dictionary are those its version bytes are taken for, seven or four, and then the texts |
| `Compression.MethodOf` | src/compression/mod.rs:33-42 | a byte names a method exactly when it is that method's byte |
| `Compression.DecodeFrame` | src/compression/mod.rs:114-221 | a frame that decodes ends where its own header says and holds no more than the frame cap |
| `Compression.FrameRoundTrip` | src/compression/mod.rs:48-221 | an encoded frame in any surroundings decodes to its content exactly when both its sizes are within the frame cap |
| `Compression.FramesTaken` | src/compression/mod.rs:114-221 | whole frames taken off a framed body held exactly its leading parts, or begin with all of it |
| `Compression.ReadFrame` | src/compression/mod.rs:114-227 | the decoder, field by field, returns the specified content or error |
| `Sockets.Socket.PollRead` | src/pool.rs:170-178 | a poll delivers the next bytes in order, as many as it likes up to the room, or none; none with room left is end of stream |
| `Decompressing.Open` | src/connection/block_reader.rs:317-369 | the sniffing constructor starts a valid stream at the body's first byte, and takes what looks like a frame for one |
| `Decompressing.FramesLookFramed` | src/connection/block_reader.rs:334-369 | a framed body always looks framed |
| `Decompressing.Stream.FillTo` | src/connection/block_reader.rs:391-409 | the read loops resume where a pending poll left them and never read past the frame |
| `Decompressing.Stream.PullFrame` | src/connection/block_reader.rs:389-479 | pulling takes exactly one frame off the inner stream, puts that frame's content into the buffer, serves nothing, and keeps the account of served and buffered bytes; there are fresh bytes exactly when the header announces some |
| `Decompressing.EmptyFrameIsNotFresh` | src/connection/block_reader.rs:384-388 | a frame that decodes, announces no bytes and gives none |
| `Decompressing.Stream.AcceptFrame` | src/connection/block_reader.rs:463-478 | a frame becomes servable only if it decodes and fits the block budget; otherwise the stream says which frame was refused |
| `Decompressing.Stream.PollRead` | src/connection/block_reader.rs:482-508 | a read appends what it returns to what was served, keeps the account, and in framed mode never reports a false end of stream |
| `Decompressing.ServedAgrees` | src/connection/block_reader.rs:270-281 | at every moment of every schedule the bytes served agree with the body from its start, and stay within the block budget |
| `Decompressing.WithinFrame` | src/connection/block_reader.rs:384-389 | while some of the body is unserved the inner stream stands inside one frame of the body |
| `Decompressing.ExactlyConsumed` | src/connection/block_reader.rs:278-281 | once the last byte of the body is served exactly its frames have been consumed, so the next packet is untouched |
| `Decompressing.NeverRefused` | src/connection/block_reader.rs:291-295 | no frame of a body within the caps is refused |
| `Decompressing.Run` | src/connection/block_reader.rs:482-508 | over any sequence of reads against any schedule, what comes out of a framed body agrees with it from its start, refused frames or not, and is a prefix of it as long as it is shorter |
| `Transport.PacketRoundTrip` | src/pool.rs:341-352 | a written packet is read back exactly when it is no longer than a chunk may be |
| `Transport.PacketsRoundTrip` | src/pool.rs:341-352 | packets within the chunk cap are read back as their concatenation |
| `Transport.StreamWrapper.ReadChunked` | src/pool.rs:71-168 | a chunked read serves only received payload, resumes a chunk across polls, and fails only at a length over the cap |
| `Transport.StreamWrapper.FillChunk` | src/pool.rs:147-165 | the payload loop keeps the received part and never counts the zero fill |
| `Transport.StreamWrapper.ReadLength` | src/pool.rs:107-125 | the length loop resumes across polls |
| `Transport.StreamWrapper.ReadBuffered` | src/pool.rs:184-237 | a raw read keeps every byte read either served or prefetched, by the bulk path and by the window |
| `Transport.StreamWrapper.Refill` | src/pool.rs:216-235 | positions change only with a read that succeeded |
| `Transport.StreamWrapper.PollRead` | src/pool.rs:72-80 | a read appends what it returns to what was served |
| `Transport.StreamWrapper.WritePacket` | src/pool.rs:341-365 | a packet is sent with its chunk header and terminator, or unchanged, or refused when its length needs more than 32 bits |
| `Transport.ServedIsPayload` | src/pool.rs:82-104 | in chunked mode, at every moment, the bytes served are the first bytes of the concatenated payloads |
| `Transport.OversizedIsEnd` | src/pool.rs:132-142 | a refused length ends the payload: everything before it was served |
| `Transport.RawConserves` | src/pool.rs:180-183 | in raw mode the bytes served are the bytes read in order, and what is read but not served is prefetched |
| `Transport.Run` | src/pool.rs:71-168 | over any reads against any schedule, packets within the chunk cap come out as their concatenation |
| `Transport.WriteAll` | src/pool.rs:341-352 | writing packets one by one sends the chunk stream of the packets |
| `Pool.StepKeepsInv` | src/pool.rs:1144-1218 | a step keeps the ownership invariant exactly when it neither keeps a connection whose response was not read nor takes bytes inside a packet for its end |
| `Pool.RunKeepsInv` | src/pool.rs:1144-1218 | a whole run keeps the invariant at every moment exactly when each of its steps is of that kind |
| `Pool.PoolSafety` | src/pool.rs:1191-1218 | over every interleaving of steps over all slots, with each call dropped with its holder or abandoned by it at each await, no unlocked slot holds a connection with an unread response |
| `Pool.StepKeepsPresent` | src/pool.rs:1123-1135 | a step that needs the stream finds one and leaves one for the next |
| `Pool.AbortFreedom` | src/pool.rs:1123-1142 | over every run at all, the stream is never asked for on an empty slot |
| `Pool.ReadingOnIsUnsafe` | src/connection/block_stream.rs:155-181 | a run within the contract in which reading on behind a packet error unlocks an unread response |
| `Pool.AbandonedReadIsUnsafe` | src/connection/block_stream.rs:108-181 | a run in which no call fails and reading on behind an abandoned `next_block` does |
| `Pool.AbandonedSendIsUnsafe` | src/connection/insert_session.rs:101-154 | a run in which no call fails and ending an INSERT behind an abandoned `send_data` does |
| `Pool.AbandonedCancelIsSafe` | src/connection/block_stream.rs:228-255 | an abandoned cancellation leaves the connection marked, and it goes with the stream |
| `Pool.BrokenContractIsUnsafe` | src/pool.rs:1172-1188 | a run in which breaking the contract does |
| `Pool.CleanStreamIsReused` | src/connection/block_stream.rs:174-181 | a stream read to its end gives its connection back |
| `PoolHolders.PoolGuard.Drop` | src/pool.rs:1191-1218 | a marked connection never stays in the slot, and any other does |
| `PoolHolders.BlockStream.NextBlock` | src/connection/block_stream.rs:108-222 | from every state between calls, an abandoned cancellation included, every way a call returns or is left at an await is reached by steps of the state machine; the stream is asked for only where it is, and stays valid unless a lost reader took something for the end |
| `PoolHolders.BlockStream.Cancel` | src/connection/block_stream.rs:228-243 | so is every way a cancellation ends or is left, and the stream stays valid |
| `PoolHolders.BlockStream.Abandon` | src/connection/block_stream.rs:108-243 | a call abandoned at its await leaves a valid stream behind, by the step of the state machine |
| `PoolHolders.BlockStream.Drop` | src/connection/block_stream.rs:246-255 | a drop, at an await too, is the drop step |
| `PoolHolders.InsertSession.Begin` | src/connection/insert_session.rs:59-82 | the hand-off from the mark to the active flag is one step |
| `PoolHolders.InsertSession.SendData` | src/connection/insert_session.rs:101-122 | sending keeps the session and its connection, which is lost inside a packet only when the write failed |
| `PoolHolders.InsertSession.Abandon` | src/connection/insert_session.rs:101-122 | an abandoned send leaves the session active with its connection, by the step of the state machine |
| `PoolHolders.InsertSession.End` | src/connection/insert_session.rs:124-154 | ending leaves a free slot reached by steps of the state machine |
| `PoolHolders.InsertSession.Drop` | src/connection/insert_session.rs:85-94 | a drop, at an await too, is the drop step |
| `Batch.ResponseBudget.Charge` | src/limits.rs:255-264 | a charge succeeds exactly up to the limit, and a breach records the attempted total |
| `Batch.ReadResultSets` | src/connection/batch.rs:225-321 | the reader sends the specified messages, each tagged with its result set |
| `Batch.ForwardedWithinBudget` | src/connection/batch.rs:229-258 | for no result set is more payload forwarded than the budget, however the stream goes on |
| `Batch.Collect` | src/connection/batch.rs:191-210 | the collector's loop computes the specified results |
| `Batch.OneSet` | src/connection/batch.rs:233-283 | a clean result set puts its first block with rows into its own place; any other fails the batch |
| `Batch.FirstRowsMeans` | src/connection/batch.rs:196-200 | the block kept is the one before which no packet has rows |
| `Batch.Execute` | src/connection/batch.rs:178-211 | a batch succeeds exactly when its n result sets all end without error and within budget, and then returns for each the first block with rows between its terminators |
| `Batch.EveryQueryEnded` | src/connection/batch.rs:201-206 | a batch that succeeds has read an EndOfStream for every query |
| `BlockFormat.WriteBlock` | shared/block_writer.rs:41-62 | the writer appends the block's bytes |
| `BlockFormat.BlockCapacity` | shared/block_writer.rs:2-23 | the capacity is exactly the number of bytes written |
| `BlockFormat.ReadInfo` | src/sync/protocol/response.rs:1759-1776 | the loop over block info fields stops at the specified position |
| `BlockFormat.ReadBlock` | src/sync/protocol/response.rs:43-85 | the walk over a buffered block finds the specified names, types, row count and column bytes, JSON without its version and top-level dictionaries expanded, or fails on an unknown type name, JSON inside another type or an index without entry |
| `BlockFormat.ByNameIsLocal` | shared/skip_column.rs:71-78 | skipping by name depends only on the bytes it passes over, unknown names included |
| `BlockFormat.EndIsLocal` | src/sync/protocol/response.rs:65-75 | so does the end of a column, top-level dictionaries included |
| `BlockFormat.KeptIsLocal` | src/sync/protocol/response.rs:65-75 | so does what is kept of it |
| `BlockFormat.StoredDictionary` | src/sync/protocol/response.rs:1255-1299 | what is stored for a dictionary column, JSON aside, is exactly one column of its inner type |
| `BlockFormat.DictionaryIsRewritten` | src/sync/protocol/response.rs:1255-1299 | a one-row LowCardinality(UInt8) column with the single entry 7 is stored as the byte 7 |
| `BlockFormat.ColumnsLower` | src/sync/protocol/response.rs:57-79 | no list of columns without a dictionary is read from fewer bytes than the writer takes for it |
| `BlockFormat.BlockRoundTrip` | shared/block_writer.rs:41-62 | each column of a written block before any suffix is read from exactly its own bytes if and only if the block is within the block caps, each type name parses and each column's data is well formed for it, dictionary indexes included; the block then comes back with dictionaries expanded and without JSON versions; without dictionaries it comes back unchanged if and only if moreover no column with rows is JSON |
| `BlockFormat.JsonSliceIsText` | src/sync/protocol/response.rs:165-189 | of a top-level JSON column the slice without its first eight bytes is exactly the text of its rows |
| `Rows.RowsFromRow` | shared/row_macros.rs:77-85 | the per-row loop returns the specified rows or the first error |
| `Rows.FastPathIndices` | shared/row_macros.rs:43-74 | the index search returns the specified columns, in place or by name |
| `Rows.CollectColumns` | shared/row_macros.rs:134-167 | reading native slices and reading row by row give the same rows, Enum columns as either integer width that holds the value |
| `Rows.ReadAll` | shared/row_macros.rs:15-40 | the bulk reader with its fallbacks returns the specified rows |
| `Rows.FastPathRefines` | shared/row_macros.rs:15-85 | for every block, column order and alignment, if the names and types are right the bulk reader returns what `from_row` gives row by row |
| `Rows.BulkPathExact` | shared/row_macros.rs:15-85 | for given column names and types and any row type, tuples included, the bulk reader is right on every block exactly when it cannot succeed, or takes each field from the column `from_row` reads and no 8-bit field from an Enum16 and no 16-bit field from an Enum8 |
| `Rows.EnumsDiffer` | src/column/any.rs:211-240 | an Enum16 block read as `(i8,)` on which the two differ |
| `Rows.DuplicatesDiffer` | shared/row_macros.rs:55-74 | with a name twice, and the columns in the order of the fields, that condition fails |
| `Rows.BulkPathIffDistinct` | shared/row_macros.rs:15-85 | for structs of up to eight fields, over blocks whose Enums have the width of their fields, the bulk reader is right on every block exactly when the names are distinct |
| `Identifiers.QuoteIdentifier` | src/schema.rs:67-76 | the quoting loop writes the identifier between backticks with its own doubled |
| `Identifiers.SplitIdentifierPath` | src/schema.rs:78-114 | the splitting loop returns the specified parts or error |
| `Identifiers.QuoteIdentifierPath` | src/schema.rs:42-55 | quoting a path joins the quoted parts |
| `Identifiers.SplitJoinRoundTrip` | src/schema.rs:42-114 | splitting a joined path gives the parts back exactly when there are any, none is empty and none has surrounding white space; backticks and dots are no exception |
| `Identifiers.QuotingIsIdempotent` | src/schema.rs:42-55 | quoting a quoted path changes nothing, for every path that is accepted |
| `Identifiers.QuotedPathsDiffer` | src/schema.rs:42-76 | different parts have different quoted paths |

## Left out

- Sockets, TLS, DNS, timers, tracing and metrics are effects; the network is a byte sequence with a scheduler.
- The 50 ms sniff timeout of the decompressing stream: the 17 bytes are taken to arrive.
- LZ4, ZSTD and CityHash internals are parameters.
- The streaming reader (`read_column_async`) is not modelled but for its strings; the streaming discarder is, over a byte sequence.
- DiscardColumn.DiscardColumnData: says nothing of types with a Variant or Dynamic part, which the discarder hands to the streaming reader.
- DiscardColumn.DiscardByName: says nothing of such types either.
- BlockFormat.BlockRoundTrip: of blocks with a dictionary column it does not rule out that they come back unchanged although some column was read from other bytes than its own, because an expansion can be longer than what it was read from.
- The decoder's own reader of state prefixes before a Dynamic body: the agreement lemmas start behind it.
- Decoded scalars keep their bytes and type; the conversion to dates, decimals and addresses is not modelled, nor is the type name stored beside a Variant value.
- Connection acquisition is one step; liveness pings and circuit-breaker timing inside it are not modelled.
- The bounded capacity of the batch channel, and a receiver dropped before the reader ends.
- Typed column views: a plain column is a sequence of decoded values, without addresses and alignment.
- DecodeAgreement.TwoParsersAgree: does not cover LowCardinality, Variant, Dynamic, JSON, geometry and aggregate types inside Array, Map and Tuple, because the decoder reads those in a layout of its own.
- SkipColumn.ScanDiscriminators: the widths of discriminators are read through the specification's chunks, not through a separate loop over bytes.
- Enum label parsing, settings, query packets, handshake, derive macro, Python bindings and the rest of the synchronous engine would only add easy members.
