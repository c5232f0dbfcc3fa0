# Verified model of cstable and libstx

cstable stores nested records in columns: every field of a record becomes a stream of repetition
level, definition level and value (sections 4.1 to 4.3 of Melnik et al., "Dremel: Interactive
Analysis of Web-Scale Datasets", 2010), and records are put together again from the streams.
libstx carries the codecs and stream machines around it. This project models both and proves what
they are for, in three parts.

**Records and columns.** `Messages`, `Schemas` and `ColumnData` are the data model. `Striping`
describes the column of one schema leaf by recursion over the record, and proves that the shredder
writes exactly that. `Assembly` describes how the entries of one column are inserted into a record,
and proves that inserting a whole stripe is a merge of the original along one path. `Projection`
shows that merging the paths of any set of leaves, in any order, gives the record projected onto
them, up to the interleaving of children with different ids. `LeafPaths` connects both to the
schema, and `Gaps` shows that the materializer's gap-filling loops never run. `RecordShredder` and
`RecordMaterializer` are the imperative code, `RoundTrip` the theorems about whole runs,
`Lossless` says that the columns determine the records, `LeafValues` what is read leaf by leaf, and
`PaperRecord` is the example of the Dremel paper.

**Files.** `Wire` and `ColumnFile` are the byte codecs, `FileImage` the v0.1.0 file, `StoredTable`
the way from records to the bytes of a file and back, and `StoredBytes` those bytes by the grammar
of the format. `MetaBlocks`, `CrashSafety`, `Recovery`, `Restart` and `TableHeader` are the v0.2.0
format: an append-only page allocator, a header, and a two-slot commit over a disk that may lose
any part of what was not synced; a sector of 512 bytes is written whole or not at all. A history is
any sequence of steps, crashes and reopenings. `PageManager` is the imperative code over that
protocol.

**Codecs and stream machines.** `ProtobufCodec` (messages to bytes), `EventStream` (server-sent
events), `HttpParser`, `HttpMessages` and `ResponseStream` (the two directions of an HTTP
connection), `JsonText` and `JsonTokens` (printer, tokenizer, sized token vector and lookups),
`FreeList` (page allocation) and `UrlQuery` (query strings). `HttpText`, `JsonSpelling`, `EventLines`
and `UrlSpelling` say what their texts mean in any spelling: decimal numbers, letters of either
case, escapes, white space, line endings. `Chunks` holds the one definition two stream parsers
share. Each incremental parser is compared with an automaton that sees one byte at a time.

Exceptions are results (`None`, `Raised`, a flag). Code that changes state is a class or a method
with loops, proved against a function of its inputs or of the old state; the lemmas are about that
function.

The shape of the main results:

- `RoundTrip.ShredRecords`, `RoundTrip.Materialize`, `RoundTrip.Replay` and
  `Lossless.ColumnsDetermineRecords`: any records, any schema, any choice of columns, any mix of
  reading and skipping. `StoredTable.Store` and `StoredTable.Load`: the same through the bytes of a
  file, which `StoredBytes.FileOfRecords` spells out.
- `Restart.EveryHistoryCrashSafe`, `Restart.SnapshotStable` and `TableHeader.OpensWithColumns`: any
  number of runs, crashes and reopenings, any crash point, any surviving part of the unsynced
  writes.
- Exact conditions, where a property of the code does not hold for every input, each with an input
  that fails: `Recovery.VisibleIffNewer`, `Restart.RewriteKeepsIff`, `HttpParser.CutIrrelevantIff`,
  `HttpMessages.RequestChunkingIff`, `ResponseStream.EveryInterleavingIff`. Others are
  `CrashSafety.PageHoldsRequest`, `EventStream.RecoveredIffSendable`, `JsonText.TokensComeBackIff`,
  `JsonTokens.AcceptsForests`, `UrlQuery.QueryRoundTripIff`.

## Model

| member | source | states |
|---|---|---|
| `RoundTrip.Replay` | src/cstable/RecordMaterializer.cc:38-56 | Under any interleaving of nextRecord and skipRecord the records returned are exactly those at the positions of the nextRecord calls; all columns stay on the same record despite the prefetch. |
| `RoundTrip.ShredRecords` | src/cstable/RecordShredder.cc:163-175 | After shredding, every column holds the stripes of all records in order, and the row count is their number. |
| `RoundTrip.Materialize` | src/cstable/RecordMaterializer.cc:32-131 | From stored columns alone, for any choice of them and any table schema that matches: the records behind the columns come out in order, each projected onto the chosen leaves, with the present ancestors of a chosen leaf recreated even where the leaf is null. |
| `RoundTrip.MaterializeAll` | src/cstable/RecordMaterializer.cc:32-131 | From the columns of a table schema that drops no field, whatever its order, the records come out whole, equal up to the interleaving of different field ids (order per id and nesting exact). |
| `RoundTrip.DerivedComplete` | src/cstable/TableSchema.cc:222-292 | The table schema derived from a message schema is such a schema. |
| `Lossless.ColumnsDetermineRecords` | src/cstable/RecordShredder.cc:99-175 | Shredding loses nothing: two lists of conforming records with the same columns are equally long and the same records, up to the interleaving of different field ids (only for a schema without fields must their number be given). |
| `RoundTrip.EmptyTable` | src/cstable/TableSchema.cc:294-333 | The level maxima of the flat columns a writer is opened with are, for every column, the repetition and definition level of the message schema leaf of that name. |
| `RoundTrip.WholeRecord` | src/cstable/RecordMaterializer.cc:94-131 | Choosing no columns chooses all, and the projection onto all leaves is the record itself. |
| `LeafValues.ReadValues` | src/cstable/RecordMaterializer.cc:32-92 | A record read back with any choice of columns has, at the path of every chosen stored leaf, the values of the stored record in document order, and none at the path of any other leaf. |
| `LeafValues.ProjectKeeps` | src/cstable/RecordMaterializer.cc:94-131 | A projection keeps all values at a chosen path. |
| `LeafValues.ProjectDrops` | src/cstable/RecordMaterializer.cc:94-131 | It has none at a path that no chosen path meets. |
| `LeafValues.EquivalentIs` | src/cstable/RecordMaterializer.cc:32-36 | Equality up to interleaving ignores nothing else: equivalent records with the same ids in the same order everywhere are equal. |
| `LeafValues.EquivalentValues` | src/cstable/RecordMaterializer.cc:32-36 | Equivalent records have the same values at every path, in the same order. |
| `Schemas.FromProtobufMatches` | src/cstable/TableSchema.cc:222-292 | The table schema derived from a message schema has a column for every field and no other, at every depth, with the same name, repetition and optionality, and the column type that the source lists for the field type: both unsigned integers share one, every other type has its own. |
| `Schemas.FromProtobufAt` | src/cstable/TableSchema.cc:222-292 | Its columns are in the order of the fields, field by field with that name, those flags and that type. (Copying a schema, as subrecords are, loses the order; the other results hold for any order.) |
| `Schemas.ConformsAlongPath` | src/cstable/RecordShredder.cc:99-161 | A record that conforms to a schema conforms along the path of each of its leaves. |
| `ColumnData.ReadBack` | src/cstable/columns/v1/LEB128ColumnReader.cc:39-57 | Reading a column entry by entry returns exactly the entries that were written, for any sequence in which a value is present exactly at the largest definition level. |
| `Striping.StripeLevels` | src/cstable/RecordShredder.cc:99-161 | Level discipline of the column of any leaf: the first entry carries the repetition level of the caller, every later one a level above that of the enclosing object, up to the maximum; no definition level exceeds its maximum, and it is reached exactly where a value is written. |
| `Striping.StripeFirst` | src/cstable/RecordShredder.cc:108-150 | The repetition level handed down by the caller shows in the first entry of a stripe only. |
| `Striping.ShredColumnsColumn` | src/cstable/RecordShredder.cc:163-175 | Of all the writes of one record, those to the column of a leaf are its stripe, in order; no other write reaches it. |
| `Striping.FlatNamesDisjoint` | src/cstable/TableSchema.cc:294-323 | Two fields of a schema with distinct flat names write to disjoint sets of columns. |
| `PaperRecord.PaperColumns` | src/cstable/RecordShredder.cc:99-161 | The record of figures 2 and 3 of the Dremel paper, with any texts, has the two columns printed there: values, repetition and definition levels. |
| `PaperRecord.PaperConforms` | src/cstable/RecordShredder.cc:99-161 | That record conforms to its schema, so the theorems about conforming records speak of it. |
| `RecordShredder.WriteProtoNull` | src/cstable/RecordShredder.cc:29-50 | Writes one null at the given levels to every column below a field and to no other. |
| `RecordShredder.AddProtoRecordField` | src/cstable/RecordShredder.cc:99-161 | Appends to the columns exactly the writes of the shredding specification for one field, recursion included. |
| `RecordShredder.AddOccurrences` | src/cstable/RecordShredder.cc:119-151 | The loop over an object's children: the first occurrence inherits the repetition level, each later one gets the field's own, and the number of occurrences is counted. |
| `RecordShredder.AddColumns` | src/cstable/RecordShredder.cc:167-173 | Shreds every column of a schema in order. |
| `RecordShredder.AddRecordFromProtobuf` | src/cstable/RecordShredder.cc:163-175 | One record appends its stripe to the column of every leaf and adds one row. |
| `RecordShredder.CSTableWriter.WriteNull` | src/cstable/columns/v1/ColumnWriter.cc:46-50 | Appends a level pair without a datum to one column and leaves the others unchanged. |
| `Assembly.RunStripe` | src/cstable/RecordMaterializer.cc:58-92 | Inserting the entries of a record's stripe one by one, with the index vector updated from the repetition levels, merges the original along that path into the record. |
| `Assembly.RunInside` | src/cstable/RecordMaterializer.cc:133-217 | While an outer index stays fixed, insertion works inside the child it addresses and leaves the rest of the record alone. |
| `Assembly.RunRepeated` | src/cstable/RecordMaterializer.cc:58-92 | For a repeated object the index vector is the position of the current entry, so each occurrence goes to its own child. |
| `Gaps.IndexesArePositions` | src/cstable/RecordMaterializer.cc:142-163 | At every entry of a record's column and every level of its path, the index is the position of an existing child or of the next one: the gap-filling loops never run, whatever record the column is loaded into. |
| `Assembly.InsertFits` | src/cstable/RecordMaterializer.cc:219-268 | Inserting an entry keeps every node on the column's path an object, so later insertions never raise. |
| `Assembly.PutNthOccurrences` | src/cstable/RecordMaterializer.cc:133-217 | Filling gaps and replacing the n-th child with an id changes that occurrence only, and no occurrence of any other id. |
| `Assembly.InsertGrows` | src/cstable/RecordMaterializer.cc:133-268 | Inserting an entry moves and removes no child, at any depth; new children stand behind the old ones. |
| `Projection.MergeProjects` | src/cstable/RecordMaterializer.cc:32-36 | Merging one more leaf path into a record equivalent to a projection gives the projection onto one more path: hence any order of columns, and any subset. |
| `Projection.EquivalentTransitive` | src/cstable/RecordMaterializer.cc:32-36 | Equality up to the interleaving of different ids is transitive. |
| `LeafPaths.ProjectAllLeaves` | src/cstable/RecordMaterializer.cc:94-131 | The projection of a conforming record onto all leaf paths of its schema is the whole record. |
| `LeafPaths.ProjectionFits` | src/cstable/RecordMaterializer.cc:133-217 | A partially built record has the shape the next column needs. |
| `LeafPaths.CreatedAllColumns` | src/cstable/RecordMaterializer.cc:94-131 | The plan computed for a column by walking the message schema is the plan of the leaf path with the same name. |
| `LeafPaths.AllFlatColumnsLeaf` | src/cstable/TableSchema.cc:294-333 | Every flat column configuration belongs to a leaf of the message schema, with its levels, the logical type and the encoding of its type: bit-packed booleans, LEB128 for integers and times, IEEE 754 for doubles, plain strings. |
| `LeafPaths.DerivedColumns` | src/cstable/TableSchema.cc:294-333 | The flat columns of the derived table schema are the leaves of the message schema, one for each and in their order. |
| `LeafPaths.LeafPathsPrefixFree` | src/cstable/RecordMaterializer.cc:94-131 | No leaf path is a prefix of another, so columns never overwrite each other. |
| `RecordMaterializer.ColumnState.FetchIfNotPending` | src/cstable/RecordMaterializer.cc:270-299 | Reads the next entry unless one is pending; the logical position does not move. |
| `RecordMaterializer.ColumnState.Consume` | src/cstable/RecordMaterializer.cc:301-303 | Consuming the pending entry moves the logical position by one. |
| `RecordMaterializer.ColumnState.LoadColumn` | src/cstable/RecordMaterializer.cc:58-92 | Consumes exactly the entries of one record and merges the record along the column's path; terminates by the entries left. |
| `RecordMaterializer.ColumnState.SkipColumn` | src/cstable/RecordMaterializer.cc:38-56 | Skips exactly the entries of one record. |
| `RecordMaterializer.Advance` | src/cstable/RecordMaterializer.cc:67-73 | The index vector is advanced at the repetition level and zeroed below it, as a function of its old value. |
| `RecordMaterializer.FindChild` | src/cstable/RecordMaterializer.cc:146-160 | Finds the n-th child with an id, or counts how many there are. |
| `RecordMaterializer.InsertValue` | src/cstable/RecordMaterializer.cc:133-217 | Puts a value at the addressed place: the result is the specification's insertion at every level. |
| `RecordMaterializer.InsertNull` | src/cstable/RecordMaterializer.cc:219-268 | Recreates the ancestors the definition level reaches, and nothing below them. |
| `RecordMaterializer.OpenCursors` | src/cstable/RecordMaterializer.cc:17-30 | Opens one cursor for every leaf the table stores and the caller chose, each at the first entry of its column. |
| `RecordMaterializer.Materializer.constructor` | src/cstable/RecordMaterializer.cc:17-30 | All columns stand at record 0. |
| `RecordMaterializer.Materializer.NextRecord` | src/cstable/RecordMaterializer.cc:32-36 | Returns the current record projected onto the materialized leaves, whatever the order of the column map, and moves every column to the next record. |
| `RecordMaterializer.Materializer.SkipRecord` | src/cstable/RecordMaterializer.cc:38-56 | Moves every column to the next record. |
| `RecordMaterializer.RecordLevels` | src/cstable/RecordShredder.cc:99-175 | In every column of a conforming record exactly the first entry is at repetition level zero, levels stay within the maxima, and a datum is present exactly at the largest definition level. |
| `RecordMaterializer.OneZeroPerRow` | src/cstable/CSTableWriter.cc:158-164 | The number of entries at repetition level zero in any column is the number of rows. |
| `RecordMaterializer.RowsStripeAt` | src/cstable/RecordMaterializer.cc:81-91 | Record k occupies the entries after those of the first k records, and the entry after it starts the next one. |
| `Wire.VarUIntRoundTrip` | deps/libstx/src/stx/io/inputstream.cc:118-135 | Reading a written variable-length integer returns it and consumes exactly its bytes (section 7.6 of DWARF Version 4). |
| `Wire.GroupsRead` | deps/libstx/src/stx/io/inputstream.cc:118-135 | Any groups of seven bits are read as their value, those that no writer emits included. |
| `Wire.NoLastGroup` | deps/libstx/src/stx/io/inputstream.cc:118-135 | A buffer that ends inside an integer is not read. |
| `Wire.AppendVarUInt` | deps/libstx/src/stx/io/outputstream.cc:97-107 | The writer's loop emits the LEB128 form of the value. |
| `Wire.UIntRoundTrip` | deps/libstx/src/stx/io/inputstream.cc:82-116 | A little-endian integer of any width reads back. |
| `Wire.LittleEndian` | deps/libstx/src/stx/io/outputstream.cc:60-78 | Byte i of a fixed-width integer is its i-th digit in base 256. |
| `Wire.SevenBits` | deps/libstx/src/stx/io/outputstream.cc:97-107 | Byte i of a variable-length integer is its i-th digit in base 128, with the flag 128 on all but the last, and there are no more bytes than the number needs. |
| `ColumnFile.BodyRoundTrip` | src/cstable/columns/v1/ColumnReader.h:23-51 | A column body reads back to the same levels and data, all of them, even where the writer reports more bytes than it writes. |
| `ColumnFile.PlainReadBack` | src/cstable/columns/v1/StringColumnReader.cc:80-100 | The data section yields the written values in order, whatever bytes follow it. |
| `ColumnFile.SomeCodecIsFaithful` | src/cstable/columns/v1/ColumnWriter.cc:22-50 | The hypothesis on the bit packer can be met. |
| `FileImage.FileRoundTrip` | src/cstable/cstable.cc:82-107 | Reading the header of a written file returns the row count and the column configurations sorted by name, and every column opens to the content written. |
| `FileImage.BodyPlace` | src/cstable/CSTableWriter.cc:175-223 | The column bodies tile the file behind the header: each is found at its offset, the next starts where it ends, the last ends the file. |
| `FileImage.SortPermutes` | src/cstable/cstable.cc:101-106 | Sorting the configurations by name orders them and loses or duplicates none. |
| `FileImage.BeforeIs` | src/cstable/cstable.cc:101-106 | The order of names is the one of byte strings: a proper prefix first, else the smaller byte where two names first differ. |
| `FileImage.AcceptsHeaders` | src/cstable/cstable.cc:20-107 | A text that begins with a header, by the grammar, is accepted with its row count and its columns. |
| `FileImage.AcceptsOnlyHeaders` | src/cstable/cstable.cc:20-107 | No other text is accepted. |
| `FileImage.CommitV1` | src/cstable/CSTableWriter.cc:175-223 | The two loops of the commit write exactly the file image, with every configuration's offset and size. |
| `StoredTable.ShreddedIsSound` | src/cstable/columns/v1/LEB128ColumnWriter.cc:23-48 | Columns filled by shredding conforming records satisfy all that the column file needs. |
| `StoredTable.LoadTable` | src/cstable/CSTableReader.cc:93-145 | Opening a written file gives back exactly the columns and the row count. |
| `StoredTable.Store` | src/cstable/CSTableWriter.cc:175-223 | Shredding records and committing writes exactly the v0.1.0 file image of columns that hold the records. |
| `StoredBytes.FileOfRecords` | src/cstable/cstable.h:30-52 | A stored file is, byte for byte, what the grammar of the format gives for its records: magic bytes, version, flags, row count, column headers with encoding numbers 1, 13, 14 and 100, and for every stored leaf the number of entries, the section sizes, the levels and its values. |
| `StoredBytes.SectionIs` | src/cstable/columns/v1/LEB128ColumnWriter.cc:40-48 | The data section of a column, value by value: integers and times as LEB128, strings behind their length in four bytes, doubles as eight bytes, booleans as bits. |
| `StoredBytes.RowsData` | src/cstable/RecordShredder.cc:52-97 | The data of a column are the values at the end of its leaf's path, in document order, record after record. |
| `StoredTable.Load` | src/cstable/CSTableReader.cc:93-145 | From the bytes of such a file alone: as many records as the header says, equal to the stored ones up to the interleaving of different field ids. |
| `MetaBlocks.MetaBlockRoundTrip` | src/cstable/cstable.cc:113-148 | A written metablock has the fixed size and is accepted and read back. |
| `MetaBlocks.BlockBytes` | src/cstable/cstable.cc:113-126 | The fields lie where the grammar puts them: transaction id at 0, rows at 8, index offset at 16, index size at 24, file size at 28, and the checksum of these 36 bytes behind them. |
| `MetaBlocks.SomeHashIsSane` | src/cstable/cstable.cc:128-148 | The hypothesis on the checksum can be met. |
| `MetaBlocks.ZeroBlockInvalid` | src/cstable/cstable.cc:128-148 | An empty slot is not a metablock, assuming the zero block fails the checksum. |
| `CrashSafety.StepInv` | src/cstable/io/PageManager.cc:36-100 | Every step of the protocol keeps the invariant: pages aligned, disjoint and durable where committed, slots settled, header intact. |
| `CrashSafety.InitInv` | src/cstable/CSTableWriter.cc:38-72 | A newly created file satisfies the invariant. |
| `CrashSafety.PageHoldsRequest` | src/cstable/io/PageManager.cc:36-42 | An allocated page is a multiple of 512 bytes, as large as the request and less than a sector larger exactly when the padded size fits 32 bits; just beyond, it has no bytes. |
| `CrashSafety.PinnedSurvives` | src/cstable/io/PageManager.cc:70-100 | A byte that no unsynced write contradicts is the same in every crash image. |
| `CrashSafety.AnySurvive` | src/cstable/io/PageManager.cc:70-100 | A crash may keep any of the unsynced pieces and lose any others; a byte then holds what the last surviving write to it left, or the synced one. |
| `CrashSafety.PiecesAreSectors` | src/cstable/cstable.h:33-34 | A write is cut into pieces that follow each other without gap, each within one sector of 512 bytes, and only where a sector ends. |
| `Recovery.CrashSafe` | src/cstable/cstable.cc:48-76 | In every reachable state, a crash leaves a file that opens at the last completed commit or the one in flight, with its pages complete; never an older one. |
| `Recovery.EveryRunCrashSafe` | src/cstable/io/PageManager.cc:70-100 | The same for every run from a newly created file, crashed after any step with any part of the unsynced writes surviving; before the first commit nothing is accepted. |
| `Recovery.OpensIff` | src/cstable/cstable.cc:20-78 | Any file opens if and only if it begins with the magic bytes and version 2 and one of the slots at 14 and 70 holds its checksum; the block found has the fields of such a slot, the one with the larger transaction id when both are valid. |
| `Restart.SnapshotStable` | src/cstable/io/PageManager.cc:36-68 | After a commit, whatever steps, crashes and reopenings follow: its pages lie below its file size and keep place, size and data; all pages are aligned, disjoint from each other and the header; every page outside the commit, allocated before or after a reopening, starts at or above the committed file size. |
| `Restart.CommittedForGood` | src/cstable/io/PageManager.cc:44-100 | After any such history, every crash image holds all bytes of the commit's pages. |
| `Restart.EveryHistoryCrashSafe` | src/cstable/cstable.cc:48-76 | Every history from a newly created file, with any number of crashes and reopenings, crashed once more at any step: the file opens at the last completed commit or the one in flight, with its pages complete. |
| `Restart.ResumeGood` | src/cstable/CSTableReader.cc:126-130 | A file opened again at the file size of the metablock found is in a state of the protocol, whether the block in flight was lost or kept. |
| `Restart.StepNested` | src/cstable/io/PageManager.cc:36-100 | Every step keeps the commits nested: what the older slot refers to lies within the last commit, and that within the one in flight. |
| `Restart.RewriteKeepsIff` | src/cstable/io/PageManager.cc:48-68 | A page may be written without losing the last commit, in any crash image, if and only if it is not part of the commit or the buffer, padded to the page, begins with the data committed; and that is exactly what the protocol asks of a write. |
| `Restart.RewriteLoses` | src/cstable/io/PageManager.cc:48-68 | For any other buffer there is a crash image that does not hold the commit. |
| `Restart.EightForSeven` | src/cstable/io/PageManager.cc:36-100 | A concrete run to a state where a write loses the commit: a page is committed with a seven in it and then written with an eight. |
| `Recovery.VisibleIffNewer` | src/cstable/CSTableWriter.cc:225-241 | A completed commit is the one found on opening exactly when its id exceeds the id in the other slot; otherwise the older block is found. |
| `Recovery.OlderIdHidden` | src/cstable/io/PageManager.cc:93-99 | A concrete run that fails the condition: id 2 is published, then id 1 committed, and opening finds id 2. |
| `Recovery.ConsecutiveIsNewer` | src/cstable/CSTableWriter.cc:231-238 | The next id, and the last id used again, meet that condition. |
| `TableHeader.WriteHeader` | src/cstable/cstable.cc:150-175 | The writer's loop produces the padded header. |
| `TableHeader.HeaderIs` | src/cstable/cstable.h:59-84 | The header is, byte for byte, what the grammar says: magic bytes, version 2, flags, two empty metablocks, 128 reserved bytes, the columns field by field, and zeros up to a multiple of 512. |
| `TableHeader.HeaderIsGood` | src/cstable/cstable.cc:150-175 | The header written for any columns meets what the commit protocol assumes of it. |
| `TableHeader.HeaderReadBack` | src/cstable/cstable.cc:177-204 | The columns read back from the file whatever its slots and pages hold. |
| `TableHeader.ColumnRead` | src/cstable/cstable.cc:177-204 | A column is read from its bytes, its logical and storage type cut to one byte each. |
| `TableHeader.OpensWithColumns` | src/cstable/cstable.cc:20-78 | After any history of steps, crashes and reopenings, a crashed file in which a metablock is found also yields the columns it was created with. |
| `PageManager.Manager.constructor` | src/cstable/io/PageManager.cc:18-34 | A manager on a newly created file is in the initial state of the protocol. |
| `PageManager.Manager.Resume` | src/cstable/io/PageManager.cc:18-34 | A manager on an existing file at a given offset is in the state resumed there. |
| `PageManager.OpenFile` | src/cstable/CSTableReader.cc:93-130 | Opening a crashed file yields a manager at the file size of the metablock found, exactly when there is one, in the state the protocol resumes in. |
| `PageManager.Manager.AllocPage` | src/cstable/io/PageManager.cc:36-42 | Returns the page at the current offset, padded to sectors, and is a step of the protocol. |
| `PageManager.Manager.WritePage` | src/cstable/io/PageManager.cc:44-68 | Pads or truncates the buffer to the page and is a step of the protocol. |
| `PageManager.Manager.WriteTransaction` | src/cstable/io/PageManager.cc:70-100 | Is the run sync, write the metablock, sync; the commit then is the last one and holds the pages as they were. |
| `PageManager.Manager.WriteIndex` | src/cstable/io/PageIndex.cc:27-91 | The single page, half a megabyte or the sectors needed, reads: next page offset 0, next page size 0, the length of the index as bytes used, and the index (index_page in src/cstable/cstable.h); with the pages of an older index given, it raises and changes nothing. |
| `PageManager.IndexFits` | src/cstable/io/PageIndex.cc:44-91 | The index page is large enough exactly when its padded size fits 32 bits, so the final check cannot fail there. |
| `PageManager.TableWriter.CommitV2` | src/cstable/CSTableWriter.cc:225-241 | A commit of a writer raises exactly when two commits went before, and then changes nothing; otherwise it publishes the row count, the file size, and the place of a page whose fields are those and whose data is the index. |
| `PageManager.RecoveredIndex` | src/cstable/cstable.h:86-90 | After any history of steps, crashes and reopenings: at the offset that the metablock found names, the file holds the index page of the commit found, field by field and byte for byte. |
| `PageManager.IndexForGood` | src/cstable/io/PageIndex.cc:64-91 | A committed index page is in every crash image of every later history. |
| `ProtobufCodec.CodecRoundTrip` | deps/libstx/src/stx/protobuf/MessageDecoder.cc:16-120 | Decoding an encoded message under its own schema returns it, for every nesting depth and every id below 2^29. |
| `ProtobufCodec.DecodeEncoded` | deps/libstx/src/stx/protobuf/MessageDecoder.cc:23-61 | Decoding under a schema with fields removed at any depth returns the message with those fields deleted recursively. |
| `ProtobufCodec.DecodeEncodedField` | deps/libstx/src/stx/protobuf/MessageDecoder.cc:30-120 | One encoded field is decoded, or skipped when unknown, by exactly its own bytes. |
| `ProtobufCodec.ChildBytes` | deps/libstx/src/stx/protobuf/MessageEncoder.cc:26-85 | The bytes of a field, type by type: key eight times the id plus 0, 1 or 2, and the payload that belongs to it. |
| `ProtobufCodec.UnknownSkipped` | deps/libstx/src/stx/protobuf/MessageDecoder.cc:34-61 | An unknown field with wire type 0, 1, 2 or 5 and its payload in front of any bytes makes no difference to decoding. |
| `ProtobufCodec.UnknownRaises` | deps/libstx/src/stx/protobuf/MessageDecoder.cc:34-61 | Any other wire type raises, and so does an unknown field that the buffer cuts off. |
| `ProtobufCodec.KnownRead` | deps/libstx/src/stx/protobuf/MessageDecoder.cc:63-120 | A known field is decoded by its type, whatever wire type its key names: integers cut to their width, a boolean true for one only, objects by their own schema. |
| `ProtobufCodec.ConformingEncodable` | deps/libstx/src/stx/protobuf/MessageEncoder.cc:15-85 | The encoder accepts every conforming message with ids below 2^29. |
| `ProtobufCodec.EncodeObject` | deps/libstx/src/stx/protobuf/MessageEncoder.cc:26-85 | Appends exactly the field's encoding, length prefix included. |
| `ProtobufCodec.Encode` | deps/libstx/src/stx/protobuf/MessageEncoder.cc:15-24 | Writes the encoding of all children in order. |
| `ProtobufCodec.Decode` | deps/libstx/src/stx/protobuf/MessageDecoder.cc:23-120 | The decoding loop succeeds exactly when the specification does, with its children; terminates by the bytes left. |
| `EventStream.SSEParser.Parse` | deps/libstx/src/stx/http/HTTPSSEParser.cc:19-61 | After every call, the events emitted so far are those of the byte automaton on everything received; the buffer holds no event. |
| `EventStream.FindBlock` | deps/libstx/src/stx/http/HTTPSSEParser.cc:27-46 | Finds a block whose own reading dispatches exactly its fields, or there is no event in the buffer. |
| `EventStream.ParseEvent` | deps/libstx/src/stx/http/HTTPSSEParser.cc:63-100 | Collects the fields of a block as the automaton does. |
| `EventStream.ParseChunks` | deps/libstx/src/stx/http/HTTPSSEParser.cc:19-61 | However the stream is cut, a CR LF split across chunks included, the events are those of the whole text. |
| `EventStream.AlikeRuns` | deps/libstx/src/stx/http/HTTPSSEParser.cc:34-39 | A line feed left over from a split CR LF changes no later event. |
| `EventLines.StreamEvents` | deps/libstx/src/stx/http/HTTPSSEParser.cc:27-100 | The events of any lines with any mix of the three line endings: every block that an empty line ends gives the value of its last data line, unless empty, named by its last event line; other lines and an unfinished line give nothing. |
| `EventStream.SendEvent` | deps/libstx/src/stx/http/HTTPSSEStream.cc:59-77 | Writes the event's text. |
| `EventStream.RecoveredIffSendable` | deps/libstx/src/stx/http/HTTPSSEStream.cc:59-77 | Any sequence of events sent is recovered exactly, if and only if each has non-empty data and no line break in data or type (section 9.2 of the WHATWG HTML standard). |
| `HttpParser.Parser.Parse` | deps/libstx/src/stx/http/httpparser.cc:95-133 | One call computes the chunk specification: the byte automaton, with the body taken at once and the size limit looked at where the chunk ends inside a token. |
| `HttpParser.Parser.ReadUntil` | deps/libstx/src/stx/http/httpparser.cc:413-419 | Moves the bytes before the first delimiter to the buffer and says whether it was found. |
| `HttpParser.Parser.ParseHeader` | deps/libstx/src/stx/http/httpparser.cc:322-362 | A header line takes the automaton's step: key, value without leading spaces, expected body size, end of headers, or the exception. |
| `HttpParser.Parser.ProcessHeader` | deps/libstx/src/stx/http/httpparser.cc:364-392 | Sets the expected body size from Content-Length and Connection, or raises. |
| `HttpParser.Parser.TakeBody` | deps/libstx/src/stx/http/httpparser.cc:394-411 | The whole rest of the chunk is body, and equality with the expected size ends the message. |
| `HttpParser.ParseChunks` | deps/libstx/src/stx/http/httpparser.cc:95-133 | A parser fed chunk by chunk ends in the state the specification gives for those chunks. |
| `HttpParser.ChunksAreBytes` | deps/libstx/src/stx/http/httpparser.cc:157-254 | For every way of cutting a text without body overrun: the final state, events and body are the automaton's, or TooLarge is raised with what was emitted before, exactly when a boundary falls inside a token over its limit. |
| `HttpParser.ChunkingIrrelevantIff` | deps/libstx/src/stx/http/httpparser.cc:95-133 | For every input: every way of cutting it into chunks ends where the bytes end, if and only if no token is over its limit and no bytes follow a body that already has its announced length (section 3 of RFC 7230). |
| `HttpParser.CutIrrelevantIff` | deps/libstx/src/stx/http/httpparser.cc:95-133 | For every input: all ways of cutting it into chunks agree on state, events and exception, if and only if no token over its limit is completed and no bytes follow a body that already has its announced length. |
| `HttpParser.OverrunUnnoticed` | deps/libstx/src/stx/http/httpparser.cc:394-411 | Inside one chunk an overrun leaves the parser in the body, while byte by byte it is done or raises. |
| `HttpMessages.RequestParsed` | deps/libstx/src/stx/http/httpparser.cc:157-254 | A well-formed request parses into its own method, URI, version, headers and body, in order, and is done exactly when the body has the announced size. |
| `HttpMessages.ResponseParsed` | deps/libstx/src/stx/http/httpparser.cc:256-320 | A well-formed response parses into its own version, status, name, headers and body; its expected size follows HTTP/1.0, Content-Length and Connection: Close as the code takes them. |
| `HttpMessages.HeaderRun` | deps/libstx/src/stx/http/httpparser.cc:322-392 | One header line is reported as its key and value and changes the expected body size as announced; which keys and values matter is said by comparing letters in either case. |
| `HttpMessages.RequestOfLength` | deps/libstx/src/stx/http/httpparser.cc:364-399 | A request with a Content-Length in decimal, the name in any case: its parts are reported in order, and it is done exactly when that many bytes of body have come. |
| `HttpMessages.ResponseOfLength` | deps/libstx/src/stx/http/httpparser.cc:277-399 | The same for a response, whose decimal status code is reported as its number. |
| `HttpMessages.ByteBehindRequest` | deps/libstx/src/stx/http/httpparser.cc:95-155 | A byte behind a complete request raises. |
| `HttpMessages.SomeAnnounced` | deps/libstx/src/stx/http/httpparser.cc:364-388 | Without a length header the expected size stays, unless a response says that it closes: then the body is unbounded. |
| `HttpMessages.FirstLineRejected` | deps/libstx/src/stx/http/httpparser.cc:157-298 | Any word but the eight methods raises, and so does a status code that is no number, after the version was reported. |
| `HttpMessages.HeaderRejected` | deps/libstx/src/stx/http/httpparser.cc:322-377 | A header line without a colon raises, and so does a length that is no number. |
| `HttpMessages.HeaderSpelling` | deps/libstx/src/stx/http/httpparser.cc:322-345 | Any number of spaces before the value and of carriage returns at the end of a line read the same. |
| `HttpMessages.LongMethodIff` | deps/libstx/src/stx/http/httpparser.cc:157-200 | A method cut off by the end of a chunk raises exactly when it has more than 16 bytes. |
| `HttpText.DecimalRead` | deps/libstx/src/stx/http/httpparser.cc:277-285 | The decimal text of every number is read as that number, if and only if it fits 31 bits for a code or 64 for a length; signs as the library functions take them. |
| `HttpText.IntegerIs` | deps/libstx/src/stx/http/httpparser.cc:371-377 | Leading space, a sign, zeros and anything behind the digits do not change the number. |
| `HttpText.IntegerNone` | deps/libstx/src/stx/http/httpparser.cc:371-377 | Without a digit behind space and sign there is no number. |
| `HttpText.StrNCaseEqIs` | deps/libstx/src/stx/http/httpparser.cc:256-260 | The comparison holds exactly when the words agree letter by letter but for case, as far as the first one goes. |
| `HttpMessages.RequestInChunks` | deps/libstx/src/stx/http/httpparser.cc:95-133 | The same for a request through any chunks whose boundaries do not fall inside an over-long token. |
| `HttpMessages.ResponseInChunks` | deps/libstx/src/stx/http/httpparser.cc:95-133 | The same for a response. |
| `HttpMessages.RequestChunkingIff` | deps/libstx/src/stx/http/httpparser.cc:394-411 | For a request with any parts and body: the chunks make no difference if and only if its URI, version and header lines are within the limits and its body is not longer than a length announced. |
| `HttpMessages.ResponseChunkingIff` | deps/libstx/src/stx/http/httpparser.cc:394-411 | The same for a response. |
| `HttpMessages.RequestOverrunsIff` | deps/libstx/src/stx/http/httpparser.cc:394-411 | A request overruns exactly when its body is longer than a length announced. |
| `HttpMessages.ResponseOverrunsIff` | deps/libstx/src/stx/http/httpparser.cc:394-411 | The same for a response. |
| `HttpMessages.OneByteTooMany` | deps/libstx/src/stx/http/httpparser.cc:394-399 | A concrete request that fails: two bytes of body where one is announced. |
| `HttpMessages.LongVersionCut` | deps/libstx/src/stx/http/httpparser.cc:256-275 | A concrete cut that fails: a boundary behind seventeen bytes of a version raises, though the same bytes pass in one chunk with the delimiter. |
| `ResponseStream.Stream.StartResponse` | deps/libstx/src/stx/http/HTTPResponseStream.cc:35-49 | Hands the headers to the connection once; a second call raises and changes nothing. |
| `ResponseStream.Stream.OnStateChanged` | deps/libstx/src/stx/http/HTTPResponseStream.cc:106-151 | Takes at most one write of at most the maximum size from the front of the buffer, or passes the finish on when nothing remains. |
| `ResponseStream.Stream.OnCallbackCompleted` | deps/libstx/src/stx/http/HTTPResponseStream.cc:81-85 | The completion callback is the completion step of the machine. |
| `ResponseStream.EveryRun` | deps/libstx/src/stx/http/HTTPResponseStream.cc:35-151 | For every interleaving of client calls, connection calls and callbacks: at most one write is outstanding, headers go first and once, the bytes issued followed by the buffer are the bytes appended, each write is within the limit, and nothing is left that no callback will flush. |
| `ResponseStream.FinishLastIff` | deps/libstx/src/stx/http/HTTPResponseStream.cc:55-71 | The connection's finish is issued at most once and last, if and only if no chunk is written after it was issued. |
| `ResponseStream.EveryInterleavingIff` | deps/libstx/src/stx/http/HTTPResponseStream.cc:35-85 | In the client's terms: every interleaving of its calls with the connection issues the finish at most once and last, if and only if the client writes no chunk after starting and finishing the response. |
| `ResponseStream.SecondFinish` | deps/libstx/src/stx/http/HTTPResponseStream.cc:139-143 | A concrete run that fails: an empty chunk after everything is flushed and finished passes the finish on a second time. |
| `ResponseStream.Drains` | deps/libstx/src/stx/http/HTTPResponseStream.cc:81-137 | From every reachable state with the response started, the callbacks alone flush everything in as many writes as the bytes need, and then the finish is passed on. |
| `ResponseStream.WritesAre` | deps/libstx/src/stx/http/HTTPResponseStream.cc:117-127 | The number of writes that so many buffered bytes take is their number divided by four megabytes, rounded up. |
| `JsonText.PrintsValue` | deps/libstx/src/stx/json/jsonoutputstream.cc:40-144 | The printer driven by its stack writes exactly the rendering by structure, with commas and colons right at every depth, wherever the value stands. |
| `JsonText.Printer.EmplaceBack` | deps/libstx/src/stx/json/jsonoutputstream.cc:40-144 | One token changes the output and the stack as the printing step says. |
| `JsonText.EscapeString` | deps/libstx/src/stx/json/jsonoutputstream.cc:249-362 | The escape table applied byte by byte. |
| `JsonText.Tokenizer.ReadNextToken` | deps/libstx/src/stx/json/jsoninputstream.cc:30-109 | Returns the token the specification finds at the cursor, the end, or the exception, and leaves the cursor behind it. |
| `JsonText.Tokenizer.ReadString` | deps/libstx/src/stx/json/jsoninputstream.cc:142-213 | Undoes the escapes up to the closing quote. |
| `JsonText.StringRead` | deps/libstx/src/stx/json/jsoninputstream.cc:142-213 | Reading an escaped string returns it without the control characters that were written as \u escapes, and stops at its quote. |
| `JsonText.PrintedIsReadBack` | deps/libstx/src/stx/json/jsoninputstream.cc:30-231 | Tokenizing the printed text of any value gives the value's tokens, numbers as strings and those control characters dropped. |
| `JsonText.TokensComeBackIff` | deps/libstx/src/stx/json/jsoninputstream.cc:185-191 | The tokens of a value come back, numbers as strings, if and only if no string or number holds a control character that is written as a \u escape (section 7 of RFC 8259). |
| `JsonSpelling.TextRead` | deps/libstx/src/stx/json/jsoninputstream.cc:30-231 | Any text of tokens, in any choice of escapes, number forms and separators, gives the tokens it spells: every escape by its meaning, every number as written. |
| `JsonSpelling.TextParses` | deps/libstx/src/stx/json/json.cc:43-90 | Any text that spells the tokens of a value, bare numbers included, parses to the sized tree of that value. |
| `JsonSpelling.NumberToken` | deps/libstx/src/stx/json/jsoninputstream.cc:111-141 | A number is read byte by byte up to the first byte that is neither part of one nor a space; spaces inside and behind it are left out, as the code's fall-through does. |
| `JsonSpelling.Rejected` | deps/libstx/src/stx/json/jsoninputstream.cc:82-109 | A byte that starts no token raises, and so do an unterminated string, an unknown escape and a misspelled keyword. |
| `JsonSpelling.EscapeMeans` | deps/libstx/src/stx/json/jsonoutputstream.cc:249-362 | The printed form of every string means that string by section 7 of RFC 8259, control characters included. |
| `JsonSpelling.PrintedPairs` | deps/libstx/src/stx/json/jsonoutputstream.cc:40-144 | A printed object or array of two has its brackets, its commas between values and its colons behind keys. |
| `JsonTokens.ParseJSON` | deps/libstx/src/stx/json/json.cc:43-90 | Builds the sized token vector of the text's tokens, or raises. |
| `JsonTokens.AcceptsForests` | deps/libstx/src/stx/json/json.cc:43-90 | A token stream is accepted if and only if it is a sequence of bracket trees, and then every begin token's size spans exactly to its matching end; spans nest. |
| `JsonTokens.KidStands` | deps/libstx/src/stx/json/jsonutil.cc:204-217 | The children of a node stand one after another behind its begin token, each as long as its size says, and then the end token. |
| `JsonTokens.ObjectLookup` | deps/libstx/src/stx/json/jsonutil.cc:147-183 | On any token vector, the result of the cursor's walk. On an object that pairs keys with values: the value behind the first key of the object itself that matches, never a nested key and never a value; the end when there is none or the object is cut off. |
| `JsonTokens.PairedWalk` | deps/libstx/src/stx/json/jsonutil.cc:159-182 | On such an object the walk stays inside it and stops behind the first matching key, or at its end. |
| `JsonTokens.WalkLeavesObject` | deps/libstx/src/stx/json/jsonutil.cc:164-180 | A concrete vector where it does not: for an accepted array whose first element is an object with a key and no value, the walk leaves the object and finds a string of the array. |
| `JsonTokens.ArrayLength` | deps/libstx/src/stx/json/jsonutil.cc:195-217 | Counts the children, however deep each is. |
| `JsonTokens.ArrayLookup` | deps/libstx/src/stx/json/jsonutil.cc:232-258 | Finds the child with the index, and raises beyond the last. |
| `JsonTokens.PrintedParses` | deps/libstx/src/stx/json/json.cc:33-41 | A printed value parses to the sized tree of the value read back. |
| `JsonTokens.FirstMember` | deps/libstx/src/stx/json/jsonutil.cc:164-180 | In a document, the lookup's answer is the value of the first member with that key. |
| `FreeList.Manager.AllocPage` | deps/libstx/src/stx/io/pagemanager.cc:32-48 | Returns the first free page large enough, or the aligned size at the end of the file. |
| `FreeList.Manager.FreePage` | deps/libstx/src/stx/io/pagemanager.cc:51-55 | Puts the page behind those already free. |
| `FreeList.Manager.FindFreePage` | deps/libstx/src/stx/io/pagemanager.cc:58-70 | Removes exactly the first page that fits from the freelist, or changes nothing. |
| `FreeList.EveryRun` | deps/libstx/src/stx/io/pagemanager.cc:32-70 | Over every run of allocations and releases of live pages, every byte from the initial end to the end position belongs to exactly one page, live or free, and all pages stay aligned to the block size. |
| `FreeList.PagesDisjoint` | deps/libstx/src/stx/io/pagemanager.cc:32-70 | Hence any two pages are disjoint and lie inside the space. |
| `FreeList.AlignedCovers` | deps/libstx/src/stx/io/pagemanager.cc:35-37 | The size is the next multiple of the block size at or above the request, if and only if the rounding does not wrap at 64 bits; where it wraps it is zero. |
| `UrlQuery.UrlEncode` | deps/libstx/src/stx/uri.cc:16-101 | Encodes byte by byte. |
| `UrlQuery.UrlDecode` | deps/libstx/src/stx/uri.cc:103-140 | Computes the decoding, exception included. |
| `UrlQuery.DecodeEncoded` | deps/libstx/src/stx/uri.cc:103-140 | Decoding an encoded text returns it, for all bytes (section 2.1 of RFC 3986). |
| `UrlSpelling.Decoded` | deps/libstx/src/stx/uri.cc:103-140 | What a text decodes to, piece by piece: plus signs as spaces, two hexadecimal digits in either case as their byte, any other percent sign as itself; it raises exactly when the text ends within two bytes of a percent sign. |
| `UrlSpelling.EveryText` | deps/libstx/src/stx/uri.cc:103-140 | Every text is spelled by such pieces. |
| `UrlSpelling.EncodeWrites` | deps/libstx/src/stx/uri.cc:16-101 | Letters, digits and the four marks are written as they are, every other byte as a percent sign and two upper-case digits. |
| `UrlQuery.EncodeIsEncoded` | deps/libstx/src/stx/uri.cc:20-98 | An encoded text holds only unreserved characters and percent signs (section 2.3 of RFC 3986), so no dollar, equals or ampersand sign. |
| `UrlQuery.ReplaceAll` | deps/libstx/src/stx/stringutil.cc:113-126 | Replaces the occurrences from left to right without searching replaced text again. |
| `UrlSpelling.ReplacedIs` | deps/libstx/src/stx/stringutil.cc:113-126 | The first occurrence is replaced and the text behind it searched on; a text without any is left alone. |
| `UrlQuery.Formatted` | deps/libstx/src/stx/stringutil_impl.h:33-63 | Substituting into `$0=$1` gives the two parts around the sign, whenever the first holds no dollar sign. |
| `UrlQuery.ParseQueryString` | deps/libstx/src/stx/uri.cc:374-398 | The cursor loop computes the parameters of the specification. |
| `UrlQuery.BuildQueryString` | deps/libstx/src/stx/uri.cc:400-415 | Joins the formatted pairs. |
| `UrlQuery.BuiltIsParsed` | deps/libstx/src/stx/uri.cc:374-415 | A built query string parses to the parameters before the first empty key, for all bytes. |
| `UrlQuery.QueryRoundTripIff` | deps/libstx/src/stx/uri.cc:374-415 | The parameter list comes back if and only if no key is empty. |

## Left out

- RecordShredder.AddRecordFromProtobuf: assumes a conforming record, because a record that raises in the middle leaves the columns out of step (src/cstable/RecordShredder.cc:153-156).
- RecordShredder.CSTableWriter.WriteNull: the column writers are values in the writer's map; sharing of one writer between owners is not captured.
- RecordMaterializer.InsertValue: the message tree is rebuilt as a value instead of grown through child references, so aliasing inside the tree is not captured.
- RoundTrip.Materialize: records have root id 0, which is what the materializer's caller creates; the original's own root id is not stored.
- ColumnFile.BodyRoundTrip: the bit packer of levels and booleans is a parameter; its hypothesis is that what it wrote for a 32-bit maximum is read back. Its code is not part of this model.
- Columns whose body or sections do not lie inside the file: the model does not open them, the source does not look (src/cstable/CSTableReader.cc:28-34); no file written is like that.
- StoredTable.Store: holds for sizes within the widths of the format (`FitsFormat`); beyond them the header fields wrap.
- CrashSafety.StepInv: a write to a page that is part of a commit on disk begins with the committed data, which `writePage` does not check (`Restart.RewriteKeepsIff` says that no weaker condition would do); `UInt64PageWriter` never clears its buffer, so what a column's pages mean together is not modelled.
- MetaBlocks.ZeroBlockInvalid: SHA-1 is a function under which the zero block is invalid; its internals and collisions are not modelled.
- PageManager.TableWriter.CommitV2: the index is not empty (on an empty one the source reads the first of no pages) and fits a 32-bit page; the writer works on a newly created file, since reopening one for writing is not implemented in the source.
- ProtobufCodec.Decode: a variable-length integer is cut to 64 bits, where the source shifts too far from the eleventh byte on; the wrap of a length in the reader's bounds check is not modelled.
- HttpParser.Parser.Parse: all callbacks are registered (without a method callback the source keeps the method in the buffer), and they do not call the parser back; the count of body bytes does not wrap at 64 bits; `eof` and `reset` are not modelled.
- HttpParser.Parser.TakeBody: the trace holds the body chunks concatenated, not their boundaries.
- ResponseStream.EveryRun: a write's callback runs once; `waitForReader` and the on-body-written callback, which only observe the stream, are not modelled.
- EventStream.SSEParser.Parse: an event handler is registered. The parser lets a later data line replace an earlier one, where the WHATWG standard joins them; the model follows the code.
- EventStream.ParseEvent: the comment, id and retry fields of the standard are ignored by the code and so by the model.
- JsonTokens.AcceptsForests: for streams of fewer than 2^32 tokens, the width of the size field; the kinds of a bracket pair need not agree, as in the code.
- JsonTokens.ObjectLookup: vectors on which the source would read a size past the end are excluded; the walk says which they are (`PastEnd`).
- FreeList.EveryRun: the end of the file does not wrap at 64 bits; a page is freed once, with the offset and size it was handed out with.
- UrlQuery.ReplaceAll: positions are not truncated to the source's `int`, and the pattern is not empty (on an empty one the source never returns).
- CSV shredding: a row shorter than the header leaves columns out of step (src/cstable/RecordShredder.cc:211).
- The v0.2.0 column read path: the readers are stubs (src/cstable/columns/UInt64PageReader.cc:21-27).
- Cross-type column reads, float and string conversions: doubles are 64-bit patterns.
- The plain and bit-packed 32-bit and the plain 64-bit integer columns of v0.1.0: same shape as those modelled.
- Scheduler, thread pool, flat JSON reader, date parsing and long UTF-8 forms of libstx.
- Sockets, memory mapping, file descriptors, logging, command line, reference counting.
