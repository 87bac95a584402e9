/** Files of uncompressed records as the writer leaves them: indexed, loaded and read back
    (src/write/record.rs, src/write/writer.rs, src/wire/record.rs, src/read/inner.rs). */
module WrittenFiles {
  import opened Bytes
  import opened Schemas
  import opened Filters
  import opened RecordScanning
  import opened RecordHeaders
  import opened FileHeaders
  import opened SalvageScans
  import opened Trailers
  import opened EventIndexes
  import opened EventIters
  import opened ChainScans
  import opened BlobRecords
  import opened PlainRuns

  const PAD3_UNIT := 0x100_0000
  const HEADER_TYPE_UNIT := 0x1000_0000
  const DATA_RECORD_TYPE := 4

  // ---- One record -------------------------------------------------------------------

  /** What the writer has gathered when it flushes a record. */
  datatype Batch = Batch(events: seq<seq<byte>>, number: u32, word1: nat, word2: nat)

  /** The lengths fit the header's words. */
  predicate Fits(b: Batch)
  {
    && 0 < 4 * |b.events| < U32_LIMIT && |Flatten(b.events)| < U32_LIMIT
    && b.word1 < U32_LIMIT * U32_LIMIT && b.word2 < U32_LIMIT * U32_LIMIT
  }

  function PayloadLength(b: Batch): nat { 4 * |b.events| + |Flatten(b.events)| }

  function Padding(n: nat): (p: nat)
    ensures p < 4 && (n + p) % 4 == 0
  {
    (4 - n % 4) % 4
  }

  function RecordLength(b: Batch): (r: nat)
    ensures r % 4 == 0 && r >= RECORD_HEADER_SIZE
  {
    RECORD_HEADER_SIZE + PayloadLength(b) + Padding(PayloadLength(b))
  }

  function HeaderWords(b: Batch): (r: seq<u32>)
    requires Fits(b)
    ensures |r| == HEADER_WORDS
  {
    var pad := Padding(PayloadLength(b));
    [RecordLength(b) / 4, b.number, RECORD_HEADER_SIZE / 4, |b.events|, 4 * |b.events|,
     HIPO_VERSION + pad * PAD3_UNIT + DATA_RECORD_TYPE * HEADER_TYPE_UNIT, 0, HEADER_MAGIC, |Flatten(b.events)|,
     (PayloadLength(b) + pad) / 4 % COMP_TYPE_UNIT, b.word1 % U32_LIMIT, b.word1 / U32_LIMIT,
     b.word2 % U32_LIMIT, b.word2 / U32_LIMIT]
  }

  function RecordBytes(b: Batch): (r: seq<byte>)
    requires Fits(b)
  {
    Image(HeaderWords(b), false) + (Payload(b.events, [], []) + Zeros(Padding(PayloadLength(b))))
  }

  /** The header a reader finds. */
  function HeaderOf(b: Batch): RecordHeader
  {
    RecordHeader(RecordLength(b), RECORD_HEADER_SIZE, |b.events|, 4 * |b.events|, 0, 0, 0, |Flatten(b.events)|, b.word1)
  }

  lemma HeaderIsWritten(b: Batch)
    requires Fits(b)
    ensures Writes(HeaderOf(b), HeaderWords(b), false)
    ensures ParseRecordHeader(Image(HeaderWords(b), false)) == Some(HeaderOf(b))
    ensures ReadU32(Image(HeaderWords(b), false), RH_MAGIC_NUMBER) == HEADER_MAGIC
  {
    hide Image, ParseRecordHeader, ReadU32, Flatten;
    WrittenParses(HeaderOf(b), HeaderWords(b), false);
    MagicOfImage(HeaderWords(b), false);
  }

  lemma RecordBytesLength(b: Batch)
    requires Fits(b)
    ensures |RecordBytes(b)| == RecordLength(b)
  {
    hide Image, Flatten;
  }

  /** `build_single_block_record_bytes` without compression. */
  method BuildRecord(b: Batch) returns (out: seq<byte>)
    requires Fits(b)
    ensures out == RecordBytes(b)
  {
    var payload := BuildPayload(b.events);
    PayloadSplits(b.events, [], []);
    hide Image, Flatten, HeaderWords, Payload;
    var pad := Padding(|payload|);
    assert |payload| == PayloadLength(b);
    out := Image(HeaderWords(b), false) + (payload + Zeros(pad));
  }

  // ---- Reading one record -------------------------------------------------------------

  /** An uncompressed little-endian record begins at `off`, if any does. */
  predicate Uncompressed(file: seq<byte>, off: nat)
  {
    ParseAt(file, off).Some? ==>
      ParseAt(file, off).value.compression == 0 && ReadU32(file, off + RH_MAGIC_NUMBER) == HEADER_MAGIC
  }

  function Expected(h: RecordHeader): nat
  {
    h.indexArrayLength + h.userHeaderLength + h.userHeaderPadding + h.dataLength
  }

  /** `read_record_into` and `decode_record_into`, for such a record. */
  function Load(file: seq<byte>, off: nat): (r: StoredRecord)
    requires Uncompressed(file, off)
    ensures r.stored.Decoded? ==> r.stored.content.Valid()
  {
    match ParseAt(file, off)
    case None => StoredRecord(None, Unreadable)
    case Some(h) =>
      StoredRecord(Some(h.userWord1),
        if off + h.recordLength > |file| then Unreadable
        else
          var stored := file[off + h.headerLength..off + h.recordLength];
          if |stored| < Expected(h) then BadBlob([])
          else
            var payload := stored[..Expected(h)];
            DecodedIsValid(h, payload);
            match Decode(h, payload) case None => BadBlob(payload) case Some(c) => Decoded(c))
  }

  method LoadRecord(file: seq<byte>, off: nat) returns (r: StoredRecord)
    requires Uncompressed(file, off)
    ensures r == Load(file, off)
  {
    hide Decode, ParseRecordHeader, Content.Valid;
    var h := ParseAt(file, off);
    if h.None? {
      return StoredRecord(None, Unreadable);
    }
    if off + h.value.recordLength > |file| {
      return StoredRecord(Some(h.value.userWord1), Unreadable);
    }
    var stored := file[off + h.value.headerLength..off + h.value.recordLength];
    if |stored| < Expected(h.value) {
      return StoredRecord(Some(h.value.userWord1), BadBlob([]));
    }
    var payload := stored[..Expected(h.value)];
    var c := DecodeInto(h.value, payload);
    r := StoredRecord(Some(h.value.userWord1),
      match c case None => BadBlob(payload) case Some(content) => Decoded(content));
  }

  /** A record as the readers' model has it. */
  function PlainOf(b: Batch): Plain
  {
    Plain(b.word1, LengthWords(b.events), b.events, [])
  }

  lemma SliceOfMiddle(before: seq<byte>, own: seq<byte>, after: seq<byte>, lo: nat, hi: nat)
    requires lo <= hi <= |own|
    ensures (before + own + after)[|before| + lo..|before| + hi] == own[lo..hi]
  {
  }

  lemma HeaderInFile(before: seq<byte>, b: Batch, after: seq<byte>)
    requires Fits(b)
    ensures
      var file := before + RecordBytes(b) + after;
      ParseAt(file, |before|) == Some(HeaderOf(b)) && Uncompressed(file, |before|)
  {
    hide Image, ParseRecordHeader, HeaderWords, ReadU32;
    var file := before + RecordBytes(b) + after;
    RecordBytesLength(b);
    HeaderIsWritten(b);
    SliceOfMiddle(before, RecordBytes(b), after, 0, RECORD_HEADER_SIZE);
    var header := Image(HeaderWords(b), false);
    assert RecordBytes(b)[..RECORD_HEADER_SIZE] == header;
    hide RecordBytes;
    assert file[|before| + 28..|before| + 32] == header[28..32];
    SameWindowSameWord(file, |before| + 28, header, 28);
  }

  /** Wherever a written record stands in a file, loading it gives its word and its events. */
  lemma WrittenLoads(before: seq<byte>, b: Batch, after: seq<byte>)
    requires Fits(b)
    ensures
      var file := before + RecordBytes(b) + after;
      Uncompressed(file, |before|) && Load(file, |before|) == Store(PlainOf(b))
  {
    hide ParseAt, Image, HeaderWords, Flatten, LengthWords, Payload, Decode;
    var file, own := before + RecordBytes(b) + after, RecordBytes(b);
    HeaderInFile(before, b, after);
    RecordBytesLength(b);
    PayloadSplits(b.events, [], []);
    var payload := Payload(b.events, [], []);
    assert |payload| == PayloadLength(b);
    assert own[RECORD_HEADER_SIZE..RECORD_HEADER_SIZE + |payload|] == payload;
    hide RecordBytes;
    SliceOfMiddle(before, own, after, RECORD_HEADER_SIZE, RECORD_HEADER_SIZE + |payload|);
    var stored := file[|before| + RECORD_HEADER_SIZE..|before| + RecordLength(b)];
    assert stored[..|payload|] == file[|before| + RECORD_HEADER_SIZE..|before| + RECORD_HEADER_SIZE + |payload|];
    DecodeWritten(HeaderOf(b), b.events, [], []);
    assert LengthWords(b.events) + [] == LengthWords(b.events);
  }

  // ---- A file of them -----------------------------------------------------------------

  predicate AllFit(bs: seq<Batch>)
  {
    forall k :: 0 <= k < |bs| ==> Fits(bs[k])
  }

  function AllBytes(bs: seq<Batch>): (r: seq<byte>)
    requires AllFit(bs)
  {
    if bs == [] then [] else RecordBytes(bs[0]) + AllBytes(bs[1..])
  }

  /** The index entries the records should get from `off` on. */
  function Entries(off: nat, bs: seq<Batch>): (r: seq<Found>)
    ensures |r| == |bs|
    decreases |bs|
  {
    if bs == [] then []
    else [Found(off, RecordLength(bs[0]), |bs[0].events|)] + Entries(off + RecordLength(bs[0]), bs[1..])
  }

  function TrailerBytes(trailer: Option<Batch>): seq<byte>
    requires trailer.Some? ==> Fits(trailer.value)
  {
    match trailer case None => [] case Some(b) => RecordBytes(b)
  }

  /** The whole file: what comes before the data, the data records, and the trailer if one was written. */
  function FileBytes(front: seq<byte>, bs: seq<Batch>, trailer: Option<Batch>): (r: seq<byte>)
    requires AllFit(bs) && (trailer.Some? ==> Fits(trailer.value))
  {
    front + AllBytes(bs) + TrailerBytes(trailer)
  }

  function TrailerPosition(front: seq<byte>, bs: seq<Batch>, trailer: Option<Batch>): nat
    requires AllFit(bs)
  {
    if trailer.Some? then |front| + |AllBytes(bs)| else 0
  }

  lemma FrontGrows(front: seq<byte>, bs: seq<Batch>, trailer: Option<Batch>)
    requires AllFit(bs) && bs != [] && (trailer.Some? ==> Fits(trailer.value))
    ensures AllFit(bs[1..]) && |RecordBytes(bs[0])| == RecordLength(bs[0])
    ensures FileBytes(front, bs, trailer) == FileBytes(front + RecordBytes(bs[0]), bs[1..], trailer)
    ensures FileBytes(front, bs, trailer) == front + RecordBytes(bs[0]) + (AllBytes(bs[1..]) + TrailerBytes(trailer))
    ensures TrailerPosition(front, bs, trailer) == TrailerPosition(front + RecordBytes(bs[0]), bs[1..], trailer)
  {
    RecordBytesLength(bs[0]);
    hide RecordBytes, Fits;
    var own, later, end := RecordBytes(bs[0]), AllBytes(bs[1..]), TrailerBytes(trailer);
    assert AllBytes(bs) == own + later;
    hide AllBytes, TrailerBytes;
    Associates(front, own, later);
    Associates(front + own, later, end);
  }

  /** One step of the scan, on a record whose events all fit. */
  lemma ScanOne(file: seq<byte>, off: nat, h: RecordHeader, pos: nat, rest: seq<Found>)
    requires ParseAt(file, off) == Some(h) && h.recordLength > 0 && CountFits(h) && h.eventCount > 0
    requires Scan(file, off + h.recordLength, pos, false) == Some(rest)
    ensures Scan(file, off, pos, false)
      == Some(if off == pos then rest else [Found(off, h.recordLength, h.eventCount)] + rest)
  {
    hide ParseAt, FirstRecord, CountFits;
    assert [] + rest == rest;
  }

  lemma HeaderCounts(b: Batch)
    requires Fits(b)
    ensures CountFits(HeaderOf(b)) && HeaderOf(b).eventCount == |b.events| > 0
    ensures HeaderOf(b).recordLength == RecordLength(b) > 0
  {
    hide Flatten;
  }

  lemma ScanEnd(front: seq<byte>, trailer: Option<Batch>)
    requires |front| > 0 && (trailer.Some? ==> Fits(trailer.value))
    ensures Scan(FileBytes(front, [], trailer), |front|, TrailerPosition(front, [], trailer), false) == Some([])
  {
    hide Scan, RecordBytes, ParseAt, Fits, RecordLength, HeaderOf;
    var file := FileBytes(front, [], trailer);
    if trailer.Some? {
      var b := trailer.value;
      HeaderInFile(front, b, []);
      RecordBytesLength(b);
      HeaderCounts(b);
      assert file == front + RecordBytes(b) + [];
      ScanPast(file, |front|);
      ScanOne(file, |front|, HeaderOf(b), |front|, []);
    } else {
      assert file == front;
      ScanPast(file, 0);
    }
  }

  lemma ScanPast(file: seq<byte>, pos: nat)
    ensures Scan(file, |file|, pos, false) == Some([])
  {
  }

  /** A scan lists exactly the data records, in order, the trailer left out. */
  lemma {:induction false} ScanWritten(front: seq<byte>, bs: seq<Batch>, trailer: Option<Batch>)
    requires |front| > 0 && AllFit(bs) && (trailer.Some? ==> Fits(trailer.value))
    ensures Scan(FileBytes(front, bs, trailer), |front|, TrailerPosition(front, bs, trailer), false)
      == Some(Entries(|front|, bs))
    decreases |bs|
  {
    hide Scan, RecordBytes, ParseAt, RecordLength, HeaderOf, FileBytes, TrailerPosition;
    if bs == [] {
      ScanEnd(front, trailer);
    } else {
      var b := bs[0];
      var file, pos := FileBytes(front, bs, trailer), TrailerPosition(front, bs, trailer);
      FrontGrows(front, bs, trailer);
      ScanWritten(front + RecordBytes(b), bs[1..], trailer);
      HeaderInFile(front, b, AllBytes(bs[1..]) + TrailerBytes(trailer));
      HeaderCounts(b);
      hide Fits, AllBytes, TrailerBytes;
      TrailerElsewhere(front, bs, trailer);
      ScanOne(file, |front|, HeaderOf(b), pos, Entries(|front| + RecordLength(b), bs[1..]));
    }
  }

  lemma TrailerElsewhere(front: seq<byte>, bs: seq<Batch>, trailer: Option<Batch>)
    requires |front| > 0 && AllFit(bs) && bs != []
    ensures TrailerPosition(front, bs, trailer) != |front|
  {
    RecordBytesLength(bs[0]);
    hide RecordBytes;
  }

  function PlainsOf(bs: seq<Batch>): (r: seq<Plain>)
    ensures |r| == |bs|
  {
    if bs == [] then [] else [PlainOf(bs[0])] + PlainsOf(bs[1..])
  }

  /** Every entry is loaded where the index says it lies. */
  predicate LoadsAs(file: seq<byte>, found: seq<Found>, ps: seq<Plain>)
  {
    && |found| == |ps|
    && forall k :: 0 <= k < |found| ==>
      Uncompressed(file, found[k].offset) && Load(file, found[k].offset) == Store(ps[k])
  }

  lemma {:induction false} EntriesLoad(front: seq<byte>, bs: seq<Batch>, trailer: Option<Batch>)
    requires AllFit(bs) && (trailer.Some? ==> Fits(trailer.value))
    ensures LoadsAs(FileBytes(front, bs, trailer), Entries(|front|, bs), PlainsOf(bs))
    decreases |bs|
  {
    hide RecordBytes, Load, Uncompressed, Store, PlainOf, RecordLength;
    if bs != [] {
      FrontGrows(front, bs, trailer);
      EntriesLoad(front + RecordBytes(bs[0]), bs[1..], trailer);
      WrittenLoads(front, bs[0], AllBytes(bs[1..]) + TrailerBytes(trailer));
      hide FileBytes;
    }
  }

  function LoadAll(file: seq<byte>, found: seq<Found>): (r: seq<StoredRecord>)
    requires forall k :: 0 <= k < |found| ==> Uncompressed(file, found[k].offset)
  {
    if found == [] then [] else [Load(file, found[0].offset)] + LoadAll(file, found[1..])
  }

  lemma {:induction false} LoadedAre(file: seq<byte>, found: seq<Found>, ps: seq<Plain>)
    requires LoadsAs(file, found, ps)
    ensures LoadAll(file, found) == StoreAll(ps)
  {
    hide Load, Store, Uncompressed;
    if found != [] {
      LoadedAre(file, found[1..], ps[1..]);
    }
  }

  method LoadRecords(file: seq<byte>, found: seq<Found>) returns (records: seq<StoredRecord>)
    requires forall k :: 0 <= k < |found| ==> Uncompressed(file, found[k].offset)
    ensures records == LoadAll(file, found)
  {
    hide Load, Uncompressed;
    records := [];
    for k := 0 to |found|
      invariant LoadAll(file, found) == records + LoadAll(file, found[k..])
    {
      var r := LoadRecord(file, found[k].offset);
      assert found[k..][0] == found[k] && found[k..][1..] == found[k + 1..];
      Associates(records, [r], LoadAll(file, found[k + 1..]));
      records := records + [r];
    }
  }

  /** The writer: record after record, then the trailer when there is one. */
  method WriteFile(front: seq<byte>, bs: seq<Batch>, trailer: Option<Batch>) returns (file: seq<byte>)
    requires AllFit(bs) && (trailer.Some? ==> Fits(trailer.value))
    ensures file == FileBytes(front, bs, trailer)
  {
    hide RecordBytes, Fits;
    file := front;
    for k := 0 to |bs|
      invariant front + AllBytes(bs) == file + AllBytes(bs[k..])
    {
      var out := BuildRecord(bs[k]);
      assert bs[k..][0] == bs[k] && bs[k..][1..] == bs[k + 1..];
      Associates(file, out, AllBytes(bs[k + 1..]));
      file := file + out;
    }
    assert file + AllBytes(bs[|bs|..]) == file;
    if trailer.Some? {
      var out := BuildRecord(trailer.value);
      file := file + out;
    }
  }

  /** What was written is what is read: the strict scan of the written file lists its data records, loading
      them gives their words and events, and the run is the events asked for, in order. */
  lemma FileReadsBack(front: seq<byte>, bs: seq<Batch>, trailer: Option<Batch>, c: Option<Clauses>,
      schemas: seq<Schema>,
      tags: Option<seq<nat>>)
    requires |front| > 0 && AllFit(bs) && (trailer.Some? ==> Fits(trailer.value))
    ensures
      var file := FileBytes(front, bs, trailer);
      var found := Scan(file, |front|, TrailerPosition(front, bs, trailer), false);
      && found.Some? && |found.value| == |bs|
      && (forall k :: 0 <= k < |bs| ==> found.value[k].count == |bs[k].events|)
      && (forall k :: 0 <= k < |found.value| ==> Uncompressed(file, found.value[k].offset))
      && RecordsOk(LoadAll(file, found.value))
      && FileRun(LoadAll(file, found.value), Binding(c, schemas), tags, 0)
         == Items(Wanted(OfTags(PlainsOf(bs), tags), c, schemas))
  {
    hide FileBytes, Scan, Load, Uncompressed, TrailerPosition, FileRun, Wanted, OfTags, Items, Binding, Fits, RecordsOk;
    ScanWritten(front, bs, trailer);
    EntriesLoad(front, bs, trailer);
    EntryCounts(|front|, bs);
    LoadedAre(FileBytes(front, bs, trailer), Entries(|front|, bs), PlainsOf(bs));
    PlainRun(PlainsOf(bs), c, schemas, tags);
  }

  lemma {:induction false} EntryCounts(off: nat, bs: seq<Batch>)
    ensures forall k :: 0 <= k < |bs| ==> Entries(off, bs)[k].count == |bs[k].events|
    decreases |bs|
  {
    hide RecordLength;
    if bs != [] {
      EntryCounts(off + RecordLength(bs[0]), bs[1..]);
    }
  }

  /** Writer and reader end to end, as code: write the file, index it by scanning, load its records and keep
      every event the reader hands out. Each is a slice reading as the bytes that went in. */
  method WriteThenRead(front: seq<byte>, bs: seq<Batch>, trailer: Option<Batch>, c: Option<Clauses>,
      schemas: seq<Schema>,
      tags: Option<seq<nat>>)
    returns (kept: seq<OwnedEvent>, it: EventIter)
    requires |front| > 0 && AllFit(bs) && (trailer.Some? ==> Fits(trailer.value))
    ensures
      var evs := Wanted(OfTags(PlainsOf(bs), tags), c, schemas);
      |kept| == |evs| && forall k :: 0 <= k < |kept| ==> Reads(kept[k], evs[k], it.repr)
  {
    hide FileBytes, Scan, Load, Uncompressed, Wanted, OfTags, Fits, Reads, FileEventIndex.Valid, EventIter.Valid;
    var file := WriteFile(front, bs, trailer);
    ScanWritten(front, bs, trailer);
    EntriesLoad(front, bs, trailer);
    var pos := if trailer.Some? then |file| - RecordLength(trailer.value) else 0;
    TrailerAtEnd(front, bs, trailer);
    var index := BuildIndexByScanning(file, |front|, pos, false);
    var found := FoundOf(index.value.records);
    LoadedAre(file, found, PlainsOf(bs));
    var records := LoadRecords(file, found);
    kept, it := ReadFile(records, PlainsOf(bs), c, schemas, tags);
  }

  lemma TrailerAtEnd(front: seq<byte>, bs: seq<Batch>, trailer: Option<Batch>)
    requires AllFit(bs) && (trailer.Some? ==> Fits(trailer.value))
    ensures
      var size := |FileBytes(front, bs, trailer)|;
      trailer.Some? ==> TrailerPosition(front, bs, trailer) == size - RecordLength(trailer.value)
  {
    hide RecordBytes, Fits, RecordLength;
    if trailer.Some? {
      RecordBytesLength(trailer.value);
    }
  }

  // ---- Opened by its trailer --------------------------------------------------------------

  /** The rows a writer keeps of its data records. */
  function RowsOf(found: seq<Found>): (r: seq<Row>)
    ensures |r| == |found|
  {
    seq(|found|, k requires 0 <= k < |found| => Row(found[k].offset, found[k].length, found[k].count))
  }

  predicate Between(found: seq<Found>, first: nat, end: nat)
  {
    forall k :: 0 <= k < |found| ==>
      first <= found[k].offset && found[k].offset + found[k].length <= end && found[k].length > 0
  }

  /** Rows of records between the first data and the trailer are all kept; a row before the data and one at
      the trailer are not. */
  lemma {:induction false} RowsKept(rows: seq<Row>, found: seq<Found>, own: seq<Row>, r: nat, fileLen: nat, first: nat,
      pos: nat)
    requires r + |found| + |own| == |rows| && rows[r..] == RowsOf(found) + own && Between(found, first, pos)
    requires pos <= fileLen
    requires own == [] || own == [Row(pos, fileLen - pos, 1)]
    ensures Kept(rows, r, fileLen, first, pos) == Some(found)
    decreases |found|
  {
    if found != [] {
      assert rows[r] == rows[r..][0] == RowsOf(found)[0];
      assert rows[r + 1..] == rows[r..][1..] == RowsOf(found[1..]) + own;
      RowsKept(rows, found[1..], own, r + 1, fileLen, first, pos);
      assert [found[0]] + found[1..] == found;
    } else if own != [] {
      assert rows[r] == rows[r..][0] == own[0];
      assert Kept(rows, r + 1, fileLen, first, pos) == Some([]);
    }
  }

  lemma {:induction false} EntriesBetween(front: seq<byte>, bs: seq<Batch>)
    requires AllFit(bs)
    ensures Between(Entries(|front|, bs), |front|, |front| + |AllBytes(bs)|)
    decreases |bs|
  {
    hide RecordBytes, Fits, RecordLength;
    if bs != [] {
      FrontGrows(front, bs, None);
      EntriesBetween(front + RecordBytes(bs[0]), bs[1..]);
      LengthPositive(bs[0]);
    }
  }

  lemma LengthPositive(b: Batch)
    ensures RecordLength(b) > 0
  {
  }

  /** A trailer with a row for every data record, with or without one for the dictionary and one for itself,
      indexes the written file as a strict scan does. */
  lemma TrailerIndexesWritten(front: seq<byte>, bs: seq<Batch>, trailer: Batch, dict: seq<Row>, own: seq<Row>,
      userWords: seq<byte>)
    requires |front| > 0 && AllFit(bs) && Fits(trailer)
    requires dict == [] || (|dict| == 1 && 0 <= dict[0].position < |front| && dict[0].length >= 0 && dict[0].entries >= 0)
    requires
      var pos := |front| + |AllBytes(bs)|;
      own == [] || own == [Row(pos, |FileBytes(front, bs, Some(trailer))| - pos, 1)]
    requires
      var rows := dict + RowsOf(Entries(|front|, bs)) + own;
      AllInRange(rows) && |userWords| == 16 * |rows|
    ensures
      var file := FileBytes(front, bs, Some(trailer));
      var pos := TrailerPosition(front, bs, Some(trailer));
      var rows := RowsFrom(TrailerBank(dict + RowsOf(Entries(|front|, bs)) + own, userWords));
      && rows.Some?
      && Kept(rows.value, 0, |file|, |front|, pos) == Some(Entries(|front|, bs))
      && Scan(file, |front|, pos, false) == Some(Entries(|front|, bs))
  {
    hide RecordBytes, Fits, Scan, TrailerBank, RowsFrom, AllInRange;
    var found, pos := Entries(|front|, bs), |front| + |AllBytes(bs)|;
    var rows := dict + RowsOf(found) + own;
    TrailerReadsBack(rows, userWords);
    ScanWritten(front, bs, Some(trailer));
    EntriesBetween(front, bs);
    var fileLen := |FileBytes(front, bs, Some(trailer))|;
    assert rows[|dict|..] == RowsOf(found) + own;
    RowsKept(rows, found, own, |dict|, fileLen, |front|, pos);
    if dict != [] {
      assert rows[0] == dict[0];
    }
  }

  // ---- Opened for salvage -------------------------------------------------------------------

  function Tiles(bs: seq<Batch>): (r: seq<Tile>)
    ensures |r| == |bs|
  {
    if bs == [] then [] else [Whole(RecordLength(bs[0]))] + Tiles(bs[1..])
  }

  /** From `off` on the file is these tiles, and these are their records with events. */
  ghost predicate TiledAs(file: seq<byte>, off: nat, tiles: seq<Tile>, found: seq<Found>)
  {
    Tiled(file, off, tiles) && Undamaged(file, off, tiles) == found
  }

  lemma {:induction false} WrittenIsTiled(front: seq<byte>, bs: seq<Batch>)
    requires AllFit(bs)
    ensures TiledAs(FileBytes(front, bs, None), |front|, Tiles(bs), Entries(|front|, bs))
    decreases |bs|
  {
    hide FileBytes, RecordBytes, ParseAt, HeaderOf, RecordLength;
    if bs == [] {
      NothingWritten(front);
    } else {
      hide TiledAs, Uncompressed;
      var b, file := bs[0], FileBytes(front, bs, None);
      FrontGrows(front, bs, None);
      var later := AllBytes(bs[1..]) + TrailerBytes(None);
      hide AllBytes, TrailerBytes;
      assert file == front + RecordBytes(b) + later;
      WrittenIsTiled(front + RecordBytes(b), bs[1..]);
      HeaderInFile(front, b, later);
      HeaderCounts(b);
      EndOfRecord(front, b, later);
      hide Fits;
      OneMoreTile(file, |front|, HeaderOf(b), Tiles(bs[1..]), Entries(|front| + RecordLength(b), bs[1..]));
    }
  }

  lemma OneMoreTile(file: seq<byte>, off: nat, h: RecordHeader, rest: seq<Tile>, found: seq<Found>)
    requires ParseAt(file, off) == Some(h) && CountFits(h) && h.eventCount > 0
    requires RECORD_HEADER_SIZE <= h.recordLength && off + h.recordLength <= |file|
    requires TiledAs(file, off + h.recordLength, rest, found)
    ensures TiledAs(file, off, [Whole(h.recordLength)] + rest, [Found(off, h.recordLength, h.eventCount)] + found)
  {
    hide ParseAt, CountFits;
    assert ([Whole(h.recordLength)] + rest)[1..] == rest;
  }

  lemma NothingWritten(front: seq<byte>)
    ensures FileBytes(front, [], None) == front
  {
  }

  lemma EndOfRecord(front: seq<byte>, b: Batch, after: seq<byte>)
    requires Fits(b)
    ensures RECORD_HEADER_SIZE <= RecordLength(b) && |front| + RecordLength(b) <= |front + RecordBytes(b) + after|
    ensures HeaderOf(b).recordLength == RecordLength(b)
  {
    RecordBytesLength(b);
    hide RecordBytes;
  }

  /** A written file, opened for salvage behind its own file header: every record comes back, but for the
      first when that is the dictionary and the last when that is the trailer. */
  method SalvageWritten(h: FileHeader, words: seq<u32>, bs: seq<Batch>, hasSchemas: nat -> bool,
      holdsIndex: nat -> bool)
    returns (r: Option<FileEventIndex>)
    requires WritesFile(h, words, false) && h.headerLength == 56 && 1 <= words[4] % 256 <= HIPO_VERSION
    requires bs != [] && AllFit(bs)
    ensures r.Some? && fresh(r.value) && r.value.Valid()
    ensures
      var kept := if hasSchemas(56) then Entries(56, bs)[1..] else Entries(56, bs);
      var n := |kept|;
      FoundOf(r.value.records) == if n > 0 && holdsIndex(kept[n - 1].offset) then kept[..n - 1] else kept
  {
    hide FileBytes, RecordBytes, ParseAt, ParseFileHeader, FileEventIndex.Valid, FileImage, RecordLength, Fits, Tiled,
         Undamaged,
         FoundOf;
    var front := FileImage(words, false);
    var file := WriteFile(front, bs, None);
    FrontGrows(front, bs, None);
    assert file == front + (RecordBytes(bs[0]) + (AllBytes(bs[1..]) + []));
    FileHeaderParses(h, words, false, RecordBytes(bs[0]) + (AllBytes(bs[1..]) + []));
    WrittenIsTiled(front, bs);
    WrittenIsTiled(front + RecordBytes(bs[0]), bs[1..]);
    assert |front| == 56;
    r := SalvageTiled(file, hasSchemas, holdsIndex, 56, Tiles(bs));
    assert Tiles(bs)[1..] == Tiles(bs[1..]);
    assert Entries(56, bs)[1..] == Entries(56 + RecordLength(bs[0]), bs[1..]);
  }
}
