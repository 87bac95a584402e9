# oxihipo event reading, modelled and proved in Dafny

oxihipo reads and writes HIPO v6 event files. One logical stream of events is stored in several
layouts (whole events in a block, one stream a bank, one stream a column) and is served through
several access paths (an iterator, a record-parallel visitor, range scans, random access through a
shared cache, columnar reads). This project models those layouts and paths and proves that they
agree, and where they do not it gives the input and the exact condition.

The code that works step by step is modelled as methods and classes (iterators, builders, index and
column loops, the recycled buffers, the disk that tags are patched on), each proved against a
specification function; the laws are lemmas about those functions. Integer widths, wrap-around,
saturation and truncation are written out. One module a file:

- Bytes, Arith: byte words, concatenation, sums and bags, products kept apart from other proofs.
- ByteSplit, Events, Schemas, Dictionaries, Records, Banks, ColumnIters, Builders: the formats, their
  writers and their readers.
- Layouts, Reassembly, SplitParsers, RoundTrip, BankLookups: records split into bank or column
  streams, which of them are read, events rebuilt from them, and the remembered place of a bank.
- Bits, Filters, EventIters, EventIndexes, ChainIndexes, RecordScans, ChainScans, ScanAgreements: the
  event stream of a chain of files, buffer recycling, event numbering.
- BlobRecords, PlainRuns: records of whole events, written and decoded, and what every reader hands out
  of them, told from the bytes of the events.
- Schedules, Ranges, RangeScans, RecordCaches: range scans under any interleaving of workers and
  random access under any interleaving of callers.
- RangeTasks, Columns, ColumnReads, EntryGroups, ColumnLookups, RangeColumns: columnar reads.
- RecordScanning, RecordHeaders, FileHeaders, SalvageScans, Trailers: finding the records of a file.
- WrittenFiles: a whole file of uncompressed records, written, indexed, loaded and read back.
- TagPatches, TagRereads, ChainRetags, ShortEvents, RetaggedFiles: rewriting event tags in place.
- Projections, Occupancies, OccupancyLayouts, ChainOccupancies, TagRegistries: bank projection, bank
  occupancy, the named tag registry.

## Where the code falls short of its promise

Each of these is proved, with the exact condition under which the promise holds.

- A record of whole events reads back as the events that went in exactly when all of them together are
  shorter than 2^32 bytes (BlobRecords.BlobRoundTrip).
- Splitting a record and rebuilding its events keeps every structure exactly when no event carries a
  bank twice and each bank keeps one type byte and one header size across the record
  (RoundTrip.SplitRoundTrip). A writer can make records its own readers refuse: by bank exactly when an
  event repeats a bank after a copy that had bytes, by column exactly when it so repeats a bank that is
  stored whole (SplitParsers.ByBankReadable, SplitParsers.PerColumnReadable). Occupancy from extents is
  occupancy by walking on every by-bank record that is read, and on a per-column one exactly when no
  scanned event carries an earlier copy with rows (OccupancyLayouts.OccupancyAcrossLayouts); one event
  on which both layouts fail is OccupancyLayouts.RepeatedRows.
- The comment at src/read/chain.rs:1609-1614 calls merging only an optimisation. It is not: on
  sorted, unmerged ranges the binary search on range ends has no boundary (Ranges.SortingIsNotEnough).
- A salvage scan is given trailer position 0 and so skips a record that really is at offset 0, and
  only that one (SalvageScans.CompleteIffNotAtZero).
- The schema numbered 65,535 is stored but cannot be found by id (Dictionaries.BanksResolve).
- A file holding an empty record has it in the trailer index and not in the scanned one
  (Trailers.TrailerMatchesScan); no event is affected.
- Under record tags an unreadable record header is an error to events() and passed over by for_each
  (ChainScans.AgreeIffHeadersReadable); on chains with damage too, ScanAgreements.PathsAgreeIff says
  exactly when the two still agree.
- The three strategies of read_columns_at are meant to be interchangeable. On records regular in the
  columns asked for, the answer is the definition's when the entries lie in one record, whatever the
  damage, and when nothing asked for is damaged; with entries in several records and any damage among
  them the read fails (ColumnLookups.ReadColumnsAt). A damaged event is thus absent when asked for alone
  and an error together with an event of another record (ColumnLookups.DamageTwoWays,
  ColumnLookups.DamagedChain).
- The grouped reader takes an opaque bank for its column 0, so it misreads every opaque bank with rows
  of which another column is asked for (ColumnReads.OpaqueMisread); which banks it reads as the event
  does is ColumnReads.ReadersAgree, an equivalence.
- The batch of tag updates promises no partial change. That holds for an index out of range and for a
  record that cannot be patched. Otherwise the batch stops at the first event that lacks its magic with
  the updates before it done, so it is all or nothing exactly when none lacks it or the first update's
  event does (ChainRetags.Retag); ShortEvents.HalfDoneBatch is a file on which it is half done.
- The magic check does not protect the neighbours of an event shorter than twelve bytes, its own tag
  field being cut off
  (ShortEvents.StaysHomeIff, ShortEvents.KeepsNeighboursIff): in ShortEvents.ShortEventBatch the first
  write destroys the magic that the second looks for.
- An event is readable again exactly when it fits its 32-bit size word (Events.EventRoundTrip), and
  EventBuilder::structure_count counts one structure more than readers see when raw bytes end short
  (Builders.EventBuilder.StructureCount).
- The comment at src/event/bank.rs:133-135 expects new_lossy to give short columns; it cuts the data
  to whole rows and never does (ColumnIters.LossyIsWhole).
- A tag name with a NUL in it is written to the file but cuts the registry read back from it
  (TagRegistries.DiskRoundTrip); the text form alone round-trips always.
- If the by-id table of a dictionary maps an id to a schema of another id, the remembered bank place can
  show a bank an event does not carry (BankLookups.StaleIdMisleads); otherwise remembering never changes
  an answer. Three calls of try_add make such a table (BankLookups.ReplacedUnderNewId).
- Occupancy over an empty dictionary succeeds whatever the records are, as it reads none
  (ChainOccupancies.BankOccupancy).

## Model

| member | source | states |
|---|---|---|
| ByteSplit.SplitInto | src/compress.rs:706-721 | the two push loops produce the plane-by-plane order of the whole elements, then the odd bytes at the end |
| ByteSplit.UnsplitInto | src/compress.rs:723-736 | the indexed writes produce the inverse order; a shorter destination gets a plain copy of the front, a longer one is what the caller must not ask for |
| ByteSplit.SplitAt | src/compress.rs:712-718 | byte k of element i lands at place i of plane k, and the length is kept |
| ByteSplit.UnsplitInvertsSplit | src/compress.rs:723-736 | un-splitting a split stream gives it back, for every width and every length, odd bytes included |
| ByteSplit.SplitInvertsUnsplit | src/compress.rs:706-736 | the other composition is the identity too |
| ByteSplit.SplitPermutes | src/compress.rs:706-721 | same length, same bytes with the same multiplicities |
| Events.HeaderRoundTrip | src/event/event.rs:25-71 | a structure header survives writing and parsing exactly when its size is below 2^24; otherwise only the size is cut to 24 bits |
| Events.HeaderReprint | src/event/event.rs:25-71 | what parse read, to_bytes writes back byte for byte |
| Events.StructureIter.Next | src/event/event.rs:206-221 | each call yields the head of what is left of the walk; once a structure does not fit, nothing more is yielded |
| Events.Find | src/event/event.rs:116-125 | the first structure with the identifier, or none when there is none |
| Events.WalkIsEncoded | src/event/event.rs:202-221 | on any bytes: re-encoding what the walk yields gives exactly the bytes it walked over |
| Events.EventRoundTrip | src/event/build.rs:433-446 | an encoded event reads back as its structures exactly when its length fits the 32-bit size word |
| Events.EventYieldsPrefix | src/event/build.rs:433-446 | even with a wrapped size word an encoded event yields a prefix of its structures, never anything else |
| Schemas.FromColumns | src/schema/types.rs:150-181 | offsets are the saturating prefix sums of the column widths, lengths are at least 1, and at most 65,536 columns are kept |
| Schemas.SmallBanksAreExact | src/schema/types.rs:150-181 | a bank that fits the 24-bit size word has no rows or a schema whose offsets never saturated |
| Dictionaries.SchemaIndex.Insert | src/schema/types.rs:281-315 | the id table answers the new slot for that id and is unchanged for every other id |
| Dictionaries.Dict.TryAdd | src/schema/dict.rs:58-79 | fails without change exactly when the name is new and 65,536 schemas are stored; a known name is replaced in place, a new one is appended; the id table gains the number under that id, and distinct ids keep it in step |
| Dictionaries.Dict.Get | src/schema/dict.rs:81-83 | finds the stored schema of that name, and none exactly when there is none |
| Dictionaries.UnionDict | src/read/chain.rs:2048-2089 | succeeds exactly when no name has two layouts, no id has two names and the distinct schemas fit; the result holds each schema once, where it first appears |
| Dictionaries.UnionOrderFree | src/read/chain.rs:2048-2089 | listing the files in another order changes neither the verdict nor the bag of schemas kept |
| Dictionaries.FirstFileFirst | src/read/chain.rs:2048-2089 | the first file's schemas come first and in its own order |
| Dictionaries.BanksResolve | src/read/chain.rs:2048-2089 | every file's bank resolves by name to that file's own schema, and by id too except when it is the schema numbered 65,535, whose number doubles as the empty mark |
| Dictionaries.StrangersUnresolved | src/schema/dict.rs:94-98 | an id no file declares resolves to nothing |
| Records.BankIndex | src/wire/by_bank.rs:481-490 | the binary search finds the descriptor with that id exactly when the sorted table has one |
| Banks.ColumnInside | src/event/bank.rs:274-288 | column c of a column-major bank occupies rows times the prefix of widths, ends where column c+1 starts and stays inside the bank |
| Banks.ContiguousInside | src/event/bank.rs:274-288 | a contiguous column read never leaves the data and is never short |
| Banks.FullOrEmpty | src/event/bank.rs:274-309 | any column read is the event's whole column or nothing, never a part |
| Banks.NewBankValid | src/event/bank.rs:198-219 | a bank accepted by new holds whole rows |
| Banks.NewPerColumnValid | src/event/bank.rs:238-257 | a per-column view takes its row count from the directory and is well-formed |
| ColumnIters.ColumnIter.constructor | src/event/bank.rs:414-433 | the iterator stands before all cells of the column; either all of them are inside its bytes or it has no bytes |
| ColumnIters.ColumnIter.Next | src/event/bank.rs:127-140 | yields the front cell and moves on; where the bytes do not reach it yields nothing and stays put |
| ColumnIters.ColumnIter.NextBack | src/event/bank.rs:150-163 | yields the back cell; the place is given up even where the bytes do not reach |
| ColumnIters.ColumnIter.Run | src/event/bank.rs:123-163 | any mixture of reads from both ends yields the fronts in order, the backs in reverse, leaves what is between and never gives a cell twice; a column that is not there yields nothing |
| ColumnIters.ReadInto | src/event/bank.rs:459-493 | the buffer ends up with every cell of the column, or empty when the column is not there, whatever it held |
| ColumnIters.GetIsCell | src/event/bank.rs:670-688 | a single cell is the one a pass gives there, and defaulted exactly when there is no such row or no such column |
| ColumnIters.LossyIsWhole | src/event/bank.rs:221-233 | the lossy bank is the longest prefix of whole rows, so no column of it is ever short, and equals the strict bank exactly when nothing is left over |
| Builders.BankBuilder.WithBuffers | src/event/build.rs:91-104 | whatever a recycled buffer set holds, the builder starts empty with one empty buffer a column |
| Builders.BankBuilder.PushRow | src/event/build.rs:66-76 | every column grows by one zero cell and no earlier cell changes (through the invariant that ties columns to the history of calls) |
| Builders.BankBuilder.PushRows | src/event/build.rs:77-84 | the same as pushing the rows one by one |
| Builders.BankBuilder.SetScalarAt | src/event/build.rs:175-183 | the column is the last entry of that name: none is an unknown column, another type a type mismatch, an array column a length mismatch, a row not pushed an invalid usage, in that order, and otherwise that cell holds the value; on an error nothing changes |
| Builders.PackCell | src/event/build.rs:285-312 | the element loop lays the elements end to end in the cell |
| Builders.BankBuilder.SetArrayAt | src/event/build.rs:262-312 | the column is the last entry of that name: none is an unknown column, another type a type mismatch, a row not pushed an invalid usage, another number of elements a length mismatch, in that order, and otherwise the cell holds the elements in order; on an error nothing changes |
| Builders.PatchColumn | src/event/build.rs:175-183 | writing one cell in place changes that cell and no other |
| Builders.BankBuilder.FinishInto | src/event/build.rs:315-335 | appends header and columns, or, for a bank of 2^24 bytes or more, leaves the output as it was |
| Builders.EventBuilder.AddBankBytes | src/event/build.rs:379-382 | raw bytes are appended, the tag stays |
| Builders.EventBuilder.AddBank | src/event/build.rs:424-427 | an oversized bank is refused and leaves the structures unchanged |
| Builders.EventBuilder.StructureCount | src/event/build.rs:396-409 | counts the structures readers will see, and one more exactly when the appended bytes end in a structure cut short after its header |
| Builders.EventBuilder.FinishInto | src/event/build.rs:433-446 | appends the event with magic, size, tag and a zero reserved word |
| Builders.BuiltDecodes | src/event/build.rs:315-335 | a bank that can be serialised decodes; its rows come back exactly when it has none or its schema has a column |
| Builders.ColumnsReadBack | src/event/build.rs:315-335 | column c of the decoded bank is column buffer c byte for byte |
| Builders.CellReadsBack | src/event/build.rs:66-312 | after any calls of push and set, a cell reads back as the last value set there, else zero |
| Builders.BankReadsBack | src/event/build.rs:66-335 | the same for every cell of a bank at once |
| Builders.EventReadsBackCells | src/event/build.rs:356-446 | any number of banks built by any calls: tag, structures in append order and every cell read back, exactly when the event fits its size word |
| Builders.BuildEvent | src/event/build.rs:356-446 | the calls together, one AddBank a bank and then FinishInto: gives the assembled event, or nothing exactly when some bank is too large |
| Builders.BuiltReadsBack | src/event/build.rs:356-446 | what those calls give reads back: the tag, the banks in order exactly when the event fits its size word, and every cell of every builder as its history of calls has it |
| Layouts.DirectoryAnswers | src/write/record.rs:400-580 | the directory a writer makes answers tag and presence of every bank of every event, whatever the events hold |
| Layouts.DescriptorsKeep | src/write/record.rs:400-460 | the directory keeps for each bank the type of its first structure in the record and the largest header size |
| Layouts.ExtentIsData | src/write/record.rs:400-580 | without repeated banks an event's extent of a bank stream, at the prefix sum of the earlier sizes, is its own data |
| SplitParsers.ByBankReadable | src/wire/by_bank.rs:401-430 | a written by-bank record passes its parser exactly when no event repeats a bank after a copy that had bytes |
| SplitParsers.PerColumnReadable | src/wire/per_column.rs:474-493 | a written per-column record passes its parser exactly when no event repeats, after a copy that had bytes, a bank that is stored whole |
| SplitParsers.ColumnsAddUp | src/write/record.rs:819-869 | a bank split into columns always passes, whatever is repeated: its columns hold exactly the bytes of the recorded sizes |
| Reassembly.SynthesizeByBank | src/event/owned.rs:591-652 | the loop over the banks builds header, then every present bank with its structure header, then the size word |
| Reassembly.FillColumns | src/event/owned.rs:728-747 | filling the reserved zeros column by column gives the event's column-major bank |
| Reassembly.AppendBank | src/event/owned.rs:713-750 | one bank's region is reserved as zeros and filled in place, columnar or opaque |
| Reassembly.SynthesizePerColumn | src/event/owned.rs:675-753 | the whole event rebuilt from its columns |
| Reassembly.FilledWindow | src/event/owned.rs:728-747 | after any number of columns each window holds its column's bytes, or zeros where the stream failed or was not reached yet: no column overwrites another |
| Reassembly.CtxSize | src/event/ctx.rs:137-162 | the accumulating loop sums the stored sizes of the present banks |
| Reassembly.SizeIsLength | src/event/ctx.rs:137-162 | the size summed from the directory is the length of the rebuilt event |
| Reassembly.ViewsAgree | src/event/bank.rs:274-309 | on any record and any extent: the rebuilt bytes decode exactly when the extent is whole rows, and then the in-place view and the decoded bank agree on a column exactly when its stream delivers it; otherwise one reads nothing and the other zeros |
| RoundTrip.WrittenPart | src/write/record.rs:770-960 | the stored columns deliver each event's own column at cumulative rows times the column width |
| RoundTrip.ImageIsData | src/event/owned.rs:675-753 | either layout rebuilds every event's bank as its own data |
| RoundTrip.StructuresSurvive | src/event/owned.rs:591-753 | splitting and rebuilding keeps every structure of every event, header and data |
| RoundTrip.RebuiltAscends | src/event/owned.rs:591-753 | rebuilt structures come in ascending id order, exactly the present banks |
| RoundTrip.RebuiltHeader | src/event/owned.rs:591-753 | the rebuilt event has its original tag, a true size word and a zero reserved word |
| RoundTrip.FaithfulComesBack | src/event/owned.rs:591-753 | an event comes back and is no longer than it was when no bank repeats and banks look alike across the record |
| RoundTrip.ComesBackFaithful | src/write/record.rs:400-580 | the converse: if every event comes back, no bank repeats and banks look alike |
| RoundTrip.ParsesIff | src/wire/by_bank.rs:401-430 | which written records of either layout are read at all, in terms of the events that went in |
| RoundTrip.SplitRoundTrip | src/event/owned.rs:591-753 | the layout law: the record is accepted by its parser and every event of it comes back exactly when no event carries a bank twice and every bank keeps one type byte and one header size |
| BankLookups.RebuildIsResolve | src/event/owned.rs:285-400 | reading a bank at its remembered place gives what resolving it afresh gives, for all three kinds of event |
| BankLookups.OwnedEvent.Bank | src/event/owned.rs:268-353 | when the by-id table is faithful every call answers as if nothing were remembered; a hit re-reads the place and keeps it, a miss remembers what it found |
| BankLookups.StaleIdMisleads | src/event/owned.rs:268-283 | whenever the by-id table maps some id to a schema of another id, there is an event on which a remembered place makes a bank appear that the event does not carry |
| BankLookups.ReplacedUnderNewId | src/schema/dict.rs:58-79 | three calls of try_add that make such a dictionary: two names under one id, the second then replaced under an id of its own |
| Filters.Filter.Bind | src/read/filter.rs:168-177 | binding forgets the earlier dictionary; the filter becomes unsatisfiable exactly when a required name is not declared |
| Bits.AndBits | src/read/filter.rs:131-139 | a bit of tag & mask is set exactly when it is set in both |
| Bits.Meet | src/read/filter.rs:131-139 | tag & mask is not zero exactly when some bit is set in both |
| Filters.EventVerdict | src/read/filter.rs:131-194 | a bound filter lets an event through exactly when its tag is in the list if one is given, some bit is set in both tag and mask if a mask is given, and for every required name the bank is declared and among the structures of the event |
| Filters.SplitVerdict | src/read/filter.rs:199-244 | the same of an event in a split record, from the tag and the presence marks of the directory |
| Filters.CheckLoop | src/read/filter.rs:199-244 | the loop of the split checks computes the directory verdict |
| Filters.LayoutsAgree | src/read/filter.rs:181-244 | which split records are read is given exactly, and on every one that is: one event, three layouts, one verdict, repeated banks included |
| Filters.NameInFile | src/read/filter.rs:168-177 | a name of the chain's dictionary either stands for the same bank in a file or for one the file cannot hold |
| Filters.ResolvedAre | src/read/filter.rs:168-177 | the ids looked for are exactly those the names stand for |
| Filters.BindingsAgree | src/read/filter.rs:168-194 | bound to a file's own dictionary or to the chain's, a filter asks the same of any banks the file declares |
| EventIters.EventIter.ReleaseCurrent | src/read/iter.rs:157-182 | the payload of the current record comes back only when no event shares it |
| EventIters.EventIter.TakeBytesBuffers | src/read/iter.rs:157-182 | the buffer taken for the next record is one no held event reads |
| EventIters.EventIter.Park | src/read/iter.rs:230-302 | moving to a split record keeps the spare buffer and changes no buffer |
| EventIters.EventIter.LoadBlob | src/read/iter.rs:230-302 | installs the decoded blob record; held events keep their bytes |
| EventIters.EventIter.SpoilBlob | src/read/iter.rs:230-302 | a decode that fails half-way may scribble on the lent buffer, and held events still keep their bytes |
| EventIters.EventIter.Install | src/read/iter.rs:230-302 | any kind of record: installed exactly when it decodes, held events untouched |
| EventIters.EventIter.AdvanceRecord | src/read/iter.rs:201-302 | moves to the next record the tags ask for; an unreadable one is the failure the run has there |
| EventIters.EventIter.HandOut | src/read/iter.rs:340-402 | the event handed out shows the event of the record at that position; which bytes those are is PlainRuns.ReadFile |
| EventIters.EventIter.Refill | src/read/iter.rs:310-338 | any number of empty records is passed over without losing or adding an event |
| EventIters.EventIter.FindPassing | src/read/iter.rs:310-402 | stops at the next event that passes the filter |
| EventIters.EventIter.Next | src/read/iter.rs:310-402 | yields the head of the pending run and leaves its tail; every event still held reads the same bytes afterwards |
| EventIters.EventIter.Clone | src/event/owned.rs:33-36 | a clone is one more handle on the same payload: it reads the same, and neither the bytes held nor what is pending change |
| EventIters.FailureIsLast | src/read/iter.rs:310-402 | a run fails at most once, and nothing follows the failure |
| EventIters.Consume | src/read/iter.rs:157-402 | a whole run, the caller keeping any events and dropping the others at once: every event of the run comes once and in order, and all kept ones still read as they did |
| EventIters.Serve | src/read/iter.rs:157-402 | any sequence of asking for events, cloning held ones and letting them go in any order: after it the caller holds exactly the events a plain list of values would, each reading as it did, and the run goes on where it was |
| BlobRecords.BuildPayload | src/write/record.rs:324-336 | the two loops lay down the event lengths and then the events |
| BlobRecords.DecodeInto | src/wire/record.rs:63-105 | the loop over the index sums saturating offsets; a payload shorter than its index, events that start past a 32-bit place or end past the payload are refused |
| BlobRecords.DecodedIsValid | src/wire/record.rs:63-105 | whatever the payload, every event of a record that decodes lies inside it, and there are as many as the header says |
| BlobRecords.WholeRun | src/read/iter.rs:361-362 | a record with anything in front, its events end to end and anything behind: its run is exactly these events, each with its own bytes |
| BlobRecords.DecodeWritten | src/wire/record.rs:63-105 | index, user header, padding and events decode to the events where they lie, and are refused exactly when they start past a 32-bit place |
| BlobRecords.BlobRoundTrip | src/write/record.rs:309-336 | a written record decodes, and its run is the events that went in exactly when all of them together are shorter than 2^32 bytes |
| PlainRuns.TagRun | src/read/iter.rs:214-221 | a run with record tags is the run over the records whose user word is an element of the list; a header that cannot be read is a failure there |
| PlainRuns.PlainRun | src/read/iter.rs:201-402 | the run of a file of such records: of the records whose word is asked for, the events with the tag, mask bits and banks asked for, in order, each with its own bytes |
| PlainRuns.ReadFile | src/read/iter.rs:310-402 | the iterator run to its end, every event kept: one slice an event asked for, in order, and at the end each still reads, between its two ends of its payload, as its own bytes |
| EventIndexes.PartitionPoint | src/wire/event_index.rs:64-76 | binary search for the end of the prefix on which a predicate holds |
| EventIndexes.FileEventIndex.Push | src/wire/event_index.rs:39-49 | a record is appended with the running total as its first event |
| EventIndexes.FileEventIndex.PopLast | src/wire/event_index.rs:33-38 | undoes the last push |
| EventIndexes.LocateIn | src/wire/event_index.rs:64-76 | finds the record and place of an event number, empty records notwithstanding; none exactly past the end |
| EventIndexes.OnePlace | src/wire/event_index.rs:64-76 | at most one place answers to a number |
| EventIndexes.SpansMeet | src/wire/event_index.rs:39-49 | spans meet end to end |
| EventIndexes.FromColumns | src/wire/event_index.rs:81-95 | three columns of equal length make the index, unequal lengths make none |
| ChainIndexes.FileOffsets | src/read/chain.rs:316-322 | the running totals of events before each file |
| ChainIndexes.RecordsInOrder | src/read/chain.rs:316-322 | records follow one another in the chain numbering, across files |
| ChainIndexes.LocateInChain | src/read/chain.rs:500-508 | file then record: every number below the total has its place and no other number has one |
| RecordScans.InactivePasses | src/read/filter.rs:99-104 | a filter with nothing to ask passes everything, so skipping it changes nothing |
| RecordScans.Admits | src/read/chain.rs:1834-1929 | the check made only for an active filter gives the filter verdict |
| RecordScans.VisitedAre | src/read/chain.rs:1775-1785 | a record visits exactly its events inside the window that pass, in order, once each |
| RecordScans.ProcessRecord | src/read/chain.rs:1834-1929 | reads a record once, hands out its visits and counts the events inside the window |
| RecordScans.VisitedAreSurvivors | src/read/chain.rs:1834-1929 | without a window the visits are what the sequential iterator yields |
| ChainScans.ChainEventIter.OpenNext | src/read/chain.rs:2181-2193 | opening the next file changes nothing of what is pending |
| ChainScans.ChainEventIter.Next | src/read/chain.rs:2195-2215 | yields the runs of all files in turn; after a failure or the end only the end; lent payloads keep their bytes |
| ChainScans.BuildTasks | src/read/chain.rs:1736-1754 | lists the records the tags pick, in file order, passing over unreadable headers |
| ChainScans.ForEach | src/read/chain.rs:1214-1287 | on one thread hands out the scan run, up to its failure; when it succeeds the two counts are exactly the events of the records read and the events handed out |
| ChainScans.EventsEqualForEach | src/read/chain.rs:2180-2215 | events() and for_each on one thread give the same events in the same order up to the same error, one filtering by each file's dictionary and the other by the chain's |
| ChainScans.AgreeIffHeadersReadable | src/read/chain.rs:1736-1754 | where for_each succeeds the two agree exactly when every header the record tags look at can be read |
| ScanAgreements.PathsAgreeIff | src/read/chain.rs:1736-1754 | on any chain, failing or not, the two agree exactly when, at every header that cannot be read, the scan has already met damage or meets it next with nothing handed out in between |
| ScanAgreements.FailsFirstIs | src/read/chain.rs:1214-1287 | a scan gives nothing but its failure exactly when some picked record does not decode and no event before it passes |
| ChainScans.UnreadableHeaderDiverges | src/read/chain.rs:1736-1754 | one chain on which they differ |
| PlainRuns.PlainEvents | src/read/chain.rs:2195-2215 | events() over a chain of records of whole events: file after file the events asked for, each with its own bytes, names meant by the dictionary of the file |
| PlainRuns.PlainForEach | src/read/chain.rs:1214-1287 | for_each on one thread: the same, names meant by the dictionary of the chain |
| Schedules.MoveConserves | src/read/chain.rs:1680-1703 | one step of any worker loses and doubles no visit and no count |
| Schedules.AnyInterleaving | src/read/chain.rs:1250-1278 | whatever the interleaving, a finished scan has made the same bag of visits and counted the same |
| Schedules.NeverStuck | src/read/chain.rs:1250-1278 | a scan not finished can always move on |
| Ranges.Clamp | src/read/chain.rs:1615-1619 | clamping and dropping empty and inverted ranges keeps exactly the requested events of the chain |
| Ranges.Sort | src/read/chain.rs:1620-1620 | the sorted arrangement of the same ranges |
| Ranges.Merge | src/read/chain.rs:1621-1627 | joins touching and overlapping ranges: separated ranges that hold the same events |
| Ranges.Prepare | src/read/chain.rs:1602-1627 | any request becomes separated ranges holding exactly the requested events of the chain |
| Ranges.Cut | src/read/chain.rs:1645-1646 | the two binary searches find the slice of the request that touches a record |
| Ranges.CutSuffices | src/read/chain.rs:1640-1646 | the slice decides every event of the record; an empty slice means none is asked for |
| Ranges.CutIsShared | src/read/chain.rs:1640-1646 | the slice is exactly the ranges that share a number with the record; a range that only touches it is outside |
| Ranges.SortingIsNotEnough | src/read/chain.rs:1609-1614 | sorted but unmerged ranges on which the search for range ends has no boundary to find: merging is load-bearing |
| Ranges.MergedEndInOrder | src/read/chain.rs:1640-1646 | merged ranges always have that boundary, and only one |
| RangeScans.TasksAre | src/read/chain.rs:1736-1754 | the list of tasks holds exactly the picked records, in order |
| RangeScans.Plan | src/read/chain.rs:1638-1650 | the jobs are exactly the picked records some range touches, each with its slice |
| RangeScans.JobVisitsAre | src/read/chain.rs:1655-1678 | a job hands out exactly the events of its record that are asked for and pass |
| RangeScans.PartsAscend | src/read/chain.rs:1662-1678 | the jobs one after another visit ascending numbers, once each |
| RangeScans.PartsCover | src/read/chain.rs:1638-1678 | the plan loses no event asked for and adds none |
| RangeScans.AskedOfRequest | src/read/chain.rs:1615-1627 | clamping and merging changed nothing that is asked |
| RangeScans.RunJobs | src/read/chain.rs:1662-1678 | one thread: all jobs in order, counting; it fails exactly when a touched record does not decode |
| RangeScans.ForEachRanges | src/read/chain.rs:1592-1713 | for any ranges: every event in their union that is picked and passes is visited exactly once, ascending, and no other |
| RangeScans.AnyWorkersVisitTheSame | src/read/chain.rs:1592-1713 | any number of workers in any interleaving: the same events, each once, and the same count of events read |
| RecordCaches.PlaceDecides | src/read/chain.rs:499-530 | the answer to a number is none past the end, and the event at its one place before |
| RecordCaches.EveryCallAnswers | src/read/chain.rs:499-612 | in every run of any number of racing calls every finished call has answered its own event |
| RecordCaches.CallsNeverWait | src/read/chain.rs:499-612 | a call that has not answered can always take its next step |
| RecordCaches.EventIsElementOfStream | src/read/chain.rs:499-612 | the answer to i is element i of the unfiltered event stream, and there is one exactly below its length |
| RecordCaches.RecordCache.Event | src/read/chain.rs:499-612 | one call, whatever other threads leave in the slot, answers its event and leaves a genuine slot |
| PlainRuns.PlainEvent | src/read/chain.rs:499-612 | event(i) is the bytes of event i counted through all files, and there is none past the last |
| PlainRuns.EventBytes | src/read/chain.rs:499-612 | the call as code hands out those bytes, whatever other threads leave in the slot |
| Columns.PushEvent | src/read/columns.rs:404-416 | one more event's row count and column bytes at the end of a chunk |
| Columns.TotalsDecide | src/read/columns.rs:1181-1246 | a column passes the totals check exactly when no event came up short |
| Columns.SliceIsOwn | src/read/columns.rs:1181-1246 | then every event's slice at the shared offsets is exactly its own bytes |
| Columns.SoundIffFull | src/read/columns.rs:1181-1246 | the merge check passes exactly when no event of any column came up short |
| Columns.AppendChunk | src/read/columns.rs:1218-1227 | one record's chunk extends one bank's offsets and columns |
| Columns.AppendRecord | src/read/columns.rs:1216-1228 | one record's chunk extends every bank |
| Columns.MergeChunks | src/read/columns.rs:1181-1246 | however events are spread over chunks the result is theirs in order; it fails exactly when a total does not match |
| ColumnReads.ReadersAgree | src/read/columns.rs:618-728 | where the grouped reader does not fail, it contributes in the columns asked for what the event itself holds exactly when the bank is regular there: it has no rows, or the event carries it and an opaque one happens to read right |
| ColumnReads.ErrorsReadAsAbsent | src/read/columns.rs:618-728 | wherever the grouped reader reports damage the replay reads an absent bank |
| ColumnReads.OpaqueMisread | src/read/columns.rs:543-546 | every opaque bank with rows of which a column other than the first is asked for is misread by the grouped reader, which gives nothing for that column |
| ColumnReads.OpaqueAlike | src/read/columns.rs:543-546 | an opaque bank with rows is read alike exactly when its extent is whole rows, no column but the first is asked for, and the bytes at the cumulative row are those of its first column |
| ColumnReads.GroupedRowAlike | src/read/columns.rs:618-728 | a whole row of the grouped reader against the event's own |
| ColumnReads.AlikeAssembled | src/read/columns.rs:1181-1246 | rows that look alike assemble alike |
| ColumnReads.PushRow | src/read/columns.rs:404-416 | one event onto the chunk of every planned bank |
| ColumnReads.ProcessRecordEntries | src/read/columns.rs:618-728 | reads a record once and gives the wanted events in the wanted order, one chunk each or one chunk in all; it fails exactly on damage |
| EntryGroups.AddSlot | src/read/columns.rs:931-934 | files one entry under its record in the ordered map and disturbs no other |
| EntryGroups.GroupEntries | src/read/columns.rs:908-935 | every resolvable entry is filed once under its record; the count says whether all resolved |
| EntryGroups.GroupsInCallerOrder | src/read/columns.rs:957-966 | for an ascending list the groups end to end are already the caller's order |
| ColumnLookups.AbsentChunk | src/read/columns.rs:591-597 | one event with no rows in any bank, not an empty chunk |
| ColumnLookups.Replay | src/read/columns.rs:946-955 | entries in one record replayed through the cache give the definition, whatever other threads leave in the shared slot before and after each of them |
| ColumnLookups.MergeOrdered | src/read/columns.rs:962-1007 | ascending entries: group after group gives the definition |
| ColumnLookups.MergeSlots | src/read/columns.rs:1017-1021 | filled slots in order, empty ones as absent events |
| ColumnLookups.MergeScattered | src/read/columns.rs:962-1021 | any order and any repeats: entries scattered back to their slots give the definition |
| ColumnLookups.ReadGroups | src/read/columns.rs:957-1021 | the two grouped strategies: they fail exactly when an entry asked for is damaged or a column total does not match, and else give rows of the grouped reader, in the order asked |
| ColumnLookups.ReadColumnsAt | src/read/columns.rs:895-1022 | whichever of the three strategies runs, on records regular in the columns asked for: the definition's answer, its error included, when nothing is planned, all entries lie in one record or nothing asked for is damaged, and a failed read in every other case. With an empty plan or one record it is the definition's on any records |
| ColumnLookups.DefinitionAnswers | src/read/columns.rs:895-956 | the definition itself answers for an event of a damaged record, alone or in front of others it answers for, so there the grouped strategies' failure is a difference |
| ColumnLookups.DamageTwoWays | src/read/columns.rs:936-1007 | an event of a record that does not decode: asked for alone it is answered as absent, asked for with an event of another record the read fails, although the definition answers wherever it answers for that other event |
| ColumnLookups.DamagedChain | src/read/columns.rs:936-1007 | a chain of two damaged records, one event each, on which that happens |
| RangeColumns.ProcessRecordColumns | src/read/columns.rs:468-585 | a record is passed over unread when the range misses it; otherwise it fails exactly on damage and contributes the rows of the events taken |
| RangeTasks.SkippedTakesNothing | src/read/columns.rs:424-470 | a record the range does not meet has nothing to take, so passing it over unread changes nothing; the columnar and the occupancy reads share this |
| RangeTasks.MeetIsShare | src/read/columns.rs:424-470 | a record with events and a range with numbers meet exactly when they share a number |
| RangeTasks.TakenAre | src/read/columns.rs:424-585 | the events taken of a record ascend and are exactly those in the range that pass the filter |
| RangeColumns.NumbersAre | src/read/columns.rs:424-433 | the events a columnar range scan takes ascend and are exactly those of picked records in the range that pass the filter |
| RangeColumns.AllContributeUnless | src/read/columns.rs:809-870 | what makes a scan fail: a picked record that lies partly in the range and does not decode, or holds an event to be taken that cannot be read |
| RangeColumns.ReadColumns | src/read/columns.rs:809-870 | fails whenever a picked record that lies partly in the range is damaged or holds an event to be taken that cannot be read, and else exactly when a total does not match; otherwise the columns are those read_columns_at gives for the numbers of the events taken |
| FileHeaders.FileHeaderParses | src/wire/file_header.rs:41-97 | a header, whatever file follows it, parses back in either byte order exactly when its version is one of the six |
| FileHeaders.OnlyMarkedFiles | src/wire/file_header.rs:41-64 | nothing parses as a file header without the letters HIPO in front and the mark of either byte order |
| RecordHeaders.WrittenParses | src/wire/record_header.rs:61-176 | fourteen words written in either byte order parse back to the same header exactly when the codec is a known one and the header is no longer than its record |
| RecordHeaders.OnlyMarkedParse | src/wire/record_header.rs:61-79 | nothing parses without 56 bytes or without the mark in one byte order or the other |
| RecordHeaders.HeaderAnywhere | src/read/inner.rs:257-267 | wherever its 56 bytes stand in a file, at its end too, a header parses as it does alone |
| RecordScanning.FindFirstRecord | src/read/inner.rs:732-747 | the loop over the 4-byte grid computes the first accepted place |
| RecordScanning.FirstRecordIs | src/read/inner.rs:732-747 | that place is on the grid, acceptable and the first such; none exactly when there is none |
| RecordScanning.FirstRecordMeans | src/read/inner.rs:732-747 | that place is the first on the grid where a header parses and the record it claims is at least a header long and lies in the file |
| RecordScanning.BuildIndexByScanning | src/read/inner.rs:589-702 | terminates on any bytes; indexes what the scan finds, and fails exactly when a strict scan does |
| RecordScanning.SalvageIsSafe | src/read/inner.rs:589-702 | on any bytes a salvage scan succeeds with ascending, disjoint, non-empty records inside the file |
| RecordScanning.ListedAreHonest | src/read/inner.rs:589-702 | each record listed has a header that parses with that length and that count, four bytes of index array for each event claimed, and is not the trailer |
| RecordScanning.OverclaimIsRefused | src/read/inner.rs:643-667 | a header claiming more events than its index array has words for ends a strict scan in an error and is stepped over by salvage |
| SalvageScans.ResyncFinds | src/read/inner.rs:608-625 | resynchronising before damage lands on what is left of the undamaged records |
| SalvageScans.SalvageFinds | src/read/inner.rs:589-702 | a salvage scan indexes exactly the undamaged records with events, wherever the damage is |
| SalvageScans.RecordAtZeroIsSkipped | src/read/inner.rs:681-683 | a record at offset 0 is taken for the trailer when there is none |
| SalvageScans.CompleteIffNotAtZero | src/read/inner.rs:681-683 | the salvage scan is complete exactly when no undamaged record with events sits at offset 0 |
| SalvageScans.SalvageFromSource | src/read/inner.rs:97-189 | opening for salvage fails exactly when no record is found after the file header; the index is the scan from the first data record without a last trailer |
| SalvageScans.SalvageTiled | src/read/inner.rs:97-189 | opening a file of whole, damaged and cut stretches, from behind the file header when that parses and from the start when not: it fails exactly when no undamaged record is left, and else indexes every undamaged record of the data with events, but for one at offset 0, dictionary and trailer left out |
| Trailers.BuildIndexFromTrailer | src/read/inner.rs:491-580 | the kept rows of the trailer bank, or nothing when a row does not fit the file |
| Trailers.NegativeRefused | src/read/inner.rs:551-580 | a row with a sign bit in its position, length or count refuses the whole trailer index |
| Trailers.KeptInside | src/read/inner.rs:551-580 | whatever the rows, each record kept begins at the data or later, not at the trailer, and ends in the file |
| Trailers.TrailerReadsBack | src/write/writer.rs:621-680 | every row a writer lists column-major reads back |
| Trailers.ScanListsRecords | src/read/inner.rs:589-702 | on a contiguous file the strict scan cannot fail and lists the records with events |
| Trailers.TrailerMatchesScan | src/read/inner.rs:491-580 | the trailer index with its empty records left out is the scanned index; the two are equal exactly when no listed record is empty, dictionary and trailer excluded in both |
| WrittenFiles.BuildRecord | src/write/record.rs:309-385 | header, index, events and padding of an uncompressed record |
| WrittenFiles.LoadRecord | src/read/inner.rs:381-406 | reading one uncompressed record and decoding it, errors included |
| WrittenFiles.WrittenLoads | src/wire/record.rs:25-115 | wherever a written record stands in a file, loading it gives its user word and its events |
| WrittenFiles.ScanWritten | src/read/inner.rs:589-702 | the strict scan of a written file lists exactly its data records in order, place, length and count, the trailer left out |
| WrittenFiles.TrailerIndexesWritten | src/write/writer.rs:482-510 | a trailer with a row for every data record, with or without one for the dictionary and one for itself, indexes the written file as the strict scan does |
| WrittenFiles.FileReadsBack | src/read/iter.rs:201-402 | a written file scanned and loaded: its run is, of the records whose user word is asked for, the events asked for, in order |
| WrittenFiles.WriteThenRead | src/write/writer.rs:361-412 | writer and reader end to end as code: every event handed out is a slice reading as the bytes that went in |
| WrittenFiles.SalvageWritten | src/read/inner.rs:97-189 | a written file opened for salvage behind its own file header: every record comes back, but for the first when that is the dictionary and the last when that is the trailer |
| TagPatches.ReadRecordLayout | src/read/chain.rs:1979-2023 | the layout of an uncompressed record whose index array fits, else none; where that puts the events is TagPatches.WrittenLayout |
| TagPatches.LaidOutUnlessUnfit | src/read/chain.rs:1979-1999 | there is none exactly when no header parses, the codec is not zero, or the index array is longer than the record or the file |
| TagPatches.WrittenLayout | src/read/chain.rs:2001-2023 | a record of header, index, user header, padding and events: the events start behind all of those, each behind the lengths of the ones before |
| TagPatches.EventInPayload | src/read/chain.rs:2001-2023 | and at that place of the file are the bytes of that event |
| TagPatches.Resolve | src/read/chain.rs:1086-1117 | succeeds exactly when every index is below the total, and then names every place |
| TagPatches.Disk.ReadLayouts | src/read/chain.rs:1123-1144 | succeeds exactly when every record involved can be patched, reading only |
| TagPatches.Disk.ApplyAll | src/read/chain.rs:1146-1164 | the writes in order, each behind the magic of its event as the writes before left it; it stops, with exactly those writes done, at the first target whose event has none or is not there |
| TagPatches.Disk.SetEventTags | src/read/chain.rs:1086-1166 | the error is an index out of range exactly when one is, an unpatchable record exactly when none is and such a record is named, and neither changes a byte; a batch in range that names an event of a record whose header gives any codec is refused so; else every write was behind its magic, one an update and at the event it names, and a batch that stops does so at an update whose event lacks its magic |
| TagRereads.OnlyTagBytesChange | src/read/chain.rs:1146-1164 | no byte outside the four tag bytes of targeted events changes and no file changes length |
| TagRereads.LastUpdateWins | src/read/chain.rs:1146-1164 | the tag bytes of an event hold its last update or what they held |
| TagRereads.RetaggedReads | src/read/chain.rs:1146-1164 | an event of at least twelve bytes, retagged: readers see the same size, structures and reserved word, and the new tag once it is long enough to have a header |
| TagRereads.RecordReadsBack | src/read/chain.rs:1146-1164 | a record keeps its layout, and each event is what it was but for its last new tag, when the events given a tag are long enough for one |
| ChainRetags.LastWriteIsLastUpdate | src/read/chain.rs:1086-1164 | the last write to an event is the last update naming its number |
| ChainRetags.BatchReadsBack | src/read/chain.rs:1086-1166 | every patchable record of every file, with events of any length and more listed than counted, reads as before but for the last updates of its events; every other record keeps its bytes. The events named have at least twelve bytes |
| ChainRetags.MagicSurvives | src/read/chain.rs:1146-1164 | no write of a batch changes any magic of an event in a patchable record, so the check can be made on the files as they were |
| ChainRetags.Retag | src/read/chain.rs:1086-1166 | the whole call: an index out of range or an unpatchable record refuses it with nothing changed, on any chain, and a record of any codec is such a record; and when the events named have at least twelve bytes it goes through exactly when each has its magic in the files as they were, stops at the first that lacks it with the updates before that done and nothing else, and is all or nothing exactly when none lacks it or the first update's event does |
| ShortEvents.HalfDoneBatch | src/read/chain.rs:1075-1166 | a file that a chain opens, its record holding two events whose second lacks its magic: the batch fails at update 1 and update 0 is on disk |
| ShortEvents.TaggedIsPatch | src/read/chain.rs:1146-1164 | the write the batch makes for an event, as the tag written at its place in the file |
| ShortEvents.StaysHomeIff | src/read/chain.rs:1146-1164 | a tag write changes no byte outside its event, whatever the tag, exactly when the event is at least twelve bytes long |
| ShortEvents.KeepsNeighboursIff | src/read/chain.rs:1146-1164 | it spares every other event of the record exactly when the event is at least twelve bytes long or no later event has a byte that far on |
| ShortEvents.LongEventsAreSafe | src/read/chain.rs:1146-1164 | no write into a record strays from its event exactly when all its events are at least twelve bytes long |
| ShortEvents.RetagBoth | src/read/chain.rs:1086-1166 | a batch of both events of a two-event record anywhere in a file, of any lengths: each write only behind its magic, the second as the first left it |
| ShortEvents.ShortEventBatch | src/read/chain.rs:1086-1166 | a file that a chain opens, its record listing an event of eight bytes: the first write lands on the next event's magic, and the second update fails on the damage the first has done |
| ShortEvents.TwoEventsOpen | src/read/inner.rs:194-239 | the header of such a file parses and a strict scan from its first data record indexes that record |
| RetaggedFiles.RecordRetagged | src/read/chain.rs:1146-1164 | the tag write for an event of a written record gives the record that writing the retagged event would have given |
| RetaggedFiles.RetagWritten | src/read/chain.rs:1086-1166 | writing a file, indexing it and retagging a batch of its events leaves the file that writing the retagged events would have given, each event having its last new tag; a number out of range changes nothing |
| RetaggedFiles.RunIsEvents | src/read/iter.rs:201-402 | read back, such a file gives all its events in order |
| Projections.CopyKept | src/read/chain.rs:957-964 | copies the kept structures and counts the others |
| Projections.Project | src/read/chain.rs:945-975 | one projected event, a skipped short one, or the error for one too large |
| Projections.ProjectionReads | src/read/chain.rs:945-975 | the projected event holds exactly the kept structures verbatim and in order, with its own tag, reserved word and magic and a true size; kept plus dropped is the original count |
| Projections.NeverTooLarge | src/read/chain.rs:966-970 | an event of ordinary length always fits its new size word |
| Projections.FindAfterProjection | src/read/chain.rs:945-975 | a kept bank is found as before, a dropped one not at all |
| Projections.ProjectTwice | src/read/chain.rs:945-975 | projecting twice is projecting once by what both keep, bytes and dropped counts included |
| Occupancies.MergedIsTogether | src/read/occupancy.rs:71-79 | merging two tallies is counting both lists together |
| Occupancies.TallyMeans | src/read/occupancy.rs:80-88 | a tally is the number of events with rows, all rows and the largest count |
| Occupancies.SameBagSameTally | src/read/occupancy.rs:71-88 | order does not matter |
| Occupancies.NoteWalk | src/read/occupancy.rs:328-343 | the walk over structures notes the rows of every copy of every bank asked for |
| Occupancies.NoteDirectory | src/read/occupancy.rs:276-311 | the directory loop notes the stored extent of every bank asked for |
| Occupancies.CountRecord | src/read/occupancy.rs:235-348 | counts exactly the visited events of a record |
| OccupancyLayouts.WalkIsCopies | src/read/occupancy.rs:328-343 | what the walk notes are the rows of the copies of the bank |
| OccupancyLayouts.ExtentIsLastSize | src/write/record.rs:400-580 | what the directory stores is the size of the last copy |
| OccupancyLayouts.TalliesAgreeIff | src/read/occupancy.rs:235-348 | row totals of the two counts agree exactly when no event carries an earlier copy with rows |
| OccupancyLayouts.AgreeExactly | src/read/occupancy.rs:235-348 | the whole tallies agree exactly then |
| OccupancyLayouts.SameVisits | src/read/occupancy.rs:235-348 | a split record is refused exactly when it is not readable; one that is read is scanned for the same events as the blob |
| OccupancyLayouts.OccupancyAcrossLayouts | src/read/occupancy.rs:235-348 | occupancy of a split record, refusals included: by bank it is that of the walked events exactly when the record is read at all; by column exactly when it is read and no scanned event carries an earlier copy with rows |
| OccupancyLayouts.RepeatedRows | src/read/occupancy.rs:235-348 | one event with its bank twice, a row in each copy: by bank the record is refused, by column it is read and counted differently |
| ChainOccupancies.BankOccupancy | src/read/occupancy.rs:111-195 | with an empty dictionary it answers at once with nothing scanned; otherwise it fails exactly when a record the range meets does not decode, and else gives the tally of all scanned events and their number |
| ChainOccupancies.VisitsSplit | src/read/occupancy.rs:91-93 | a range cut in two scans the same events in two parts |
| ChainOccupancies.ScannedSplit | src/read/occupancy.rs:91-93 | over adjacent ranges the numbers of events scanned add |
| ChainOccupancies.AdjacentRangesMerge | src/read/occupancy.rs:71-195 | over adjacent ranges events scanned, events with rows and rows add and the maxima combine by max |
| ChainOccupancies.AnyWorkersCountTheSame | src/read/occupancy.rs:151-182 | any distribution and order of the records among workers gives the same tally and the same number of events scanned |
| TagRegistries.NumberRoundTrip | src/tag.rs:291-326 | every 32-bit number prints in decimal and parses back |
| TagRegistries.NumbersAre | src/tag.rs:304-326 | a bit is read exactly from one digit or more, after an optional plus sign, whose value fits 32 bits |
| TagRegistries.SpacesAre | src/tag.rs:215-229 | white space is the 25 characters Unicode calls so |
| TagRegistries.TagRegistry.Insert | src/tag.rs:215-236 | a name is taken exactly when it is not empty, has no =, line feed or carriage return in it and no white space first or last; then it replaces its entry or is added last |
| TagRegistries.TagRegistry.ToText | src/tag.rs:291-300 | one line an entry |
| TagRegistries.ParseText | src/tag.rs:304-326 | the line loop computes the parsed registry |
| TagRegistries.TextRoundTrip | src/tag.rs:291-326 | every registry insert can build prints and parses back, entries and order |
| TagRegistries.DiskRoundTrip | src/read/inner.rs:440-489 | through the file dictionary the entries come back up to the first name with a NUL in it, so all of them exactly when no name has one |

## Left out

- The LZ4, gzip and zstd codecs: a stream is already decompressed or has failed.
- Parsing of split record directories from bytes: the directory is taken as parsed, with presence bits as booleans; record headers, whole events, index arrays and the trailer bank are parsed from bytes.
- File and network input and output, path and URL resolution, the thread pool, timing and progress: a file is a byte sequence and workers are an arbitrary schedule.
- Which error a parallel scan reports first, and how much it visits before it fails.
- Normalisation of big-endian payloads; record headers are parsed in either byte order.
- The record cache after in-place tag writes: set_event_tags does not clear the slot, so the cache laws are about files that do not change.
- Two names for one file in a batch of tag updates.
- Overflow of 64-bit offsets and event counts, and of the 32-bit total in EventCtx::size: these sums are unbounded.
- Banks of 2^32 bytes or more in one split record: the layout laws are about records whose banks fit the 32-bit offset tables.
- Schemas with saturated row sizes or 65,536 columns in split records: such a schema has no rows of a bank that fits its size word (Schemas.SmallBanksAreExact).
- The cached column layouts and the once-filled stream cells of split records: they hold what recomputing would give.
- Lock poisoning.
- Text form of schemas and dictionaries, user configuration.
- Conversion of cells to numbers (values are kept as their little-endian bytes), the Display printers, composite banks, typed rows.
- par_fold, for_each_column, event_tags, tagged skims, and the record batching of the writer: each adds a caller to paths proved here.
- build_plan: the columns asked for are taken as resolved.
- BankIndex: the parser's refusal of an unsorted table is the precondition.
- UnsplitInto: a destination longer than the source panics in the source and is excluded by the precondition.
- ForEach: visited events are a returned list, not calls into a closure.
- RunJobs: the shared atomic counters are plain sums on one thread; Schedules has the interleavings.
- PushEvent: chunks are values, so the reuse of column allocations is not captured.
- Retag: what a batch naming an event shorter than twelve bytes leaves behind is said for one write (ShortEvents.StaysHomeIff) and for two-event records (ShortEvents.RetagBoth); the disk is one object, so other processes writing the files are not captured.
- LoadRecord: only uncompressed little-endian records are loaded from file bytes; records of the other codecs are taken once their payload is decompressed (BlobRecords.DecodeInto).
- WriteFile: the bytes in front of the data records, file header and dictionary, are given, not built.
