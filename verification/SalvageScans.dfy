/** Salvage of a damaged file: which records come back (src/read/inner.rs). */
module SalvageScans {
  import opened Bytes
  import opened EventIndexes
  import opened RecordScanning
  import opened FileHeaders

  /** A stretch of the file: a record, a record whose header no longer parses, or a record the file
      ends inside of. */
  datatype Tile = Whole(length: nat) | Damaged(length: nat) | Cut(length: nat)

  predicate WholeAt(file: seq<byte>, off: nat, length: nat)
  {
    && ParseAt(file, off).Some? && ParseAt(file, off).value.recordLength == length
    && RECORD_HEADER_SIZE <= length && off + length <= |file|
  }

  /** The header does not parse and the body holds no false header on the grid. */
  ghost predicate DamagedAt(file: seq<byte>, off: nat, length: nat)
  {
    && 0 < length && length % 4 == 0 && off + length <= |file| && ParseAt(file, off).None?
    && forall x: nat :: OnGrid(off, x) && x < off + length ==> !Accepts(file, x)
  }

  /** The writer stopped in the middle of this one. */
  ghost predicate CutAt(file: seq<byte>, off: nat, length: nat)
  {
    && off + length == |file|
    && (ParseAt(file, off).Some? ==> off + ParseAt(file, off).value.recordLength > |file|)
    && forall x: nat :: OnGrid(off, x) ==> !Accepts(file, x)
  }

  /** From `off` on the file is these tiles, end to end. */
  ghost predicate Tiled(file: seq<byte>, off: nat, tiles: seq<Tile>)
    decreases |tiles|
  {
    if tiles == [] then off == |file|
    else
      match tiles[0]
      case Whole(n) => WholeAt(file, off, n) && Tiled(file, off + n, tiles[1..])
      case Damaged(n) => DamagedAt(file, off, n) && Tiled(file, off + n, tiles[1..])
      case Cut(n) => CutAt(file, off, n) && tiles[1..] == []
  }

  /** The undamaged record at `off`, when its count is plausible and it holds events. */
  function RecordAt(file: seq<byte>, off: nat): (r: seq<Found>)
    requires ParseAt(file, off).Some?
  {
    var h := ParseAt(file, off).value;
    if CountFits(h) && h.eventCount > 0 then [Found(off, h.recordLength, h.eventCount)] else []
  }

  /** The undamaged records. */
  ghost function Undamaged(file: seq<byte>, off: nat, tiles: seq<Tile>): (r: seq<Found>)
    requires Tiled(file, off, tiles)
    decreases |tiles|
  {
    if tiles == [] then []
    else
      match tiles[0]
      case Whole(n) => RecordAt(file, off) + Undamaged(file, off + n, tiles[1..])
      case Damaged(n) => Undamaged(file, off + n, tiles[1..])
      case Cut(n) => []
  }

  /** `find_first_record` passes over a stretch without an acceptable header. */
  lemma {:induction false} SkipsStretch(file: seq<byte>, off: nat, end: nat)
    requires OnGrid(off, end) && forall x: nat :: OnGrid(off, x) && x < end ==> !Accepts(file, x)
    ensures FirstRecord(file, off) == FirstRecord(file, end)
    decreases end - off
  {
    hide Accepts;
    if off < end {
      assert !Accepts(file, off);
      assert forall x: nat :: OnGrid(off + 4, x) ==> OnGrid(off, x);
      SkipsStretch(file, off + 4, end);
      NothingPastEnd(file, off, end);
    }
  }

  lemma NothingPastEnd(file: seq<byte>, off: nat, end: nat)
    requires off <= end
    ensures off + RECORD_HEADER_SIZE > |file| ==> FirstRecord(file, off) == None && FirstRecord(file, end) == None
  {
  }

  /** Resynchronising anywhere before a tile lands on what is left of the undamaged records. */
  lemma {:induction false} ResyncFinds(file: seq<byte>, off: nat, tiles: seq<Tile>)
    requires Tiled(file, off, tiles) && off > 0
    ensures FirstRecord(file, off).None? ==> Undamaged(file, off, tiles) == []
    ensures FirstRecord(file, off).Some? ==>
      Scan(file, FirstRecord(file, off).value, 0, true) == Some(Undamaged(file, off, tiles))
    decreases |tiles|, 2
  {
    hide ParseAt, Scan, RecordAt;
    if tiles != [] {
      match tiles[0] {
        case Whole(n) =>
          SalvageFinds(file, off, tiles);
        case Damaged(n) =>
          SkipsStretch(file, off, off + n);
          ResyncFinds(file, off + n, tiles[1..]);
        case Cut(n) =>
          FirstRecordIs(file, off);
      }
    }
  }

  /** A salvage scan indexes exactly the undamaged records with events, wherever the damage is. */
  lemma {:induction false} SalvageFinds(file: seq<byte>, off: nat, tiles: seq<Tile>)
    requires Tiled(file, off, tiles) && off > 0
    ensures Scan(file, off, 0, true) == Some(Undamaged(file, off, tiles))
    decreases |tiles|, 1
  {
    hide ParseAt;
    if tiles != [] {
      match tiles[0] {
        case Whole(n) =>
          SalvageFinds(file, off + n, tiles[1..]);
          assert [] + Undamaged(file, off + n, tiles[1..]) == Undamaged(file, off + n, tiles[1..]);
        case Damaged(n) =>
          FromDamage(file, off, tiles);
        case Cut(n) =>
          FirstRecordIs(file, off + 4);
          assert forall x: nat :: OnGrid(off + 4, x) ==> OnGrid(off, x);
      }
    }
  }

  lemma FromDamage(file: seq<byte>, off: nat, tiles: seq<Tile>)
    requires Tiled(file, off, tiles) && off > 0 && tiles != [] && tiles[0].Damaged?
    ensures Scan(file, off, 0, true) == Some(Undamaged(file, off, tiles))
    decreases |tiles|, 0
  {
    hide ParseAt, Undamaged;
    var n := tiles[0].length;
    SkipsStretch(file, off, off + n);
    ResyncFinds(file, off + n, tiles[1..]);
    UndamagedSkips(file, off, tiles);
    assert !Accepts(file, off);
    if off + RECORD_HEADER_SIZE > |file| {
      NothingPastEnd(file, off, off + n);
    }
  }

  lemma UndamagedSkips(file: seq<byte>, off: nat, tiles: seq<Tile>)
    requires Tiled(file, off, tiles) && tiles != [] && tiles[0].Damaged?
    ensures Undamaged(file, off, tiles) == Undamaged(file, off + tiles[0].length, tiles[1..])
  {
  }

  // ---- The record at offset 0 -------------------------------------------------

  /** With no trailer to skip the scan is given trailer position 0, and so skips a record that
      really is at offset 0. */
  lemma RecordAtZeroIsSkipped(file: seq<byte>, tiles: seq<Tile>)
    requires Tiled(file, 0, tiles) && tiles != [] && tiles[0].Whole?
    ensures Scan(file, 0, 0, true) == Some(Undamaged(file, tiles[0].length, tiles[1..]))
    ensures Undamaged(file, 0, tiles) == RecordAt(file, 0) + Undamaged(file, tiles[0].length, tiles[1..])
  {
    hide ParseAt;
    var n := tiles[0].length;
    SalvageFinds(file, n, tiles[1..]);
    assert [] + Undamaged(file, n, tiles[1..]) == Undamaged(file, n, tiles[1..]);
  }

  /** The salvage scan is complete exactly when no undamaged record with events sits at offset 0. */
  lemma CompleteIffNotAtZero(file: seq<byte>, off: nat, tiles: seq<Tile>)
    requires Tiled(file, off, tiles)
    ensures Scan(file, off, 0, true) == Some(Undamaged(file, off, tiles)) <==>
      !(off == 0 && tiles != [] && tiles[0].Whole? && RecordAt(file, off) != [])
  {
    hide ParseAt, Undamaged, Scan, RecordAt;
    if off > 0 {
      SalvageFinds(file, off, tiles);
    } else if tiles == [] {
      NothingAtZero(file);
    } else {
      match tiles[0] {
        case Whole(n) =>
          RecordAtZeroIsSkipped(file, tiles);
          var own, later := RecordAt(file, 0), Undamaged(file, n, tiles[1..]);
          assert |own + later| == |own| + |later| && (own == [] ==> own + later == later);
        case Damaged(n) =>
          DamageAtZero(file, tiles);
        case Cut(n) =>
          CutAtZero(file, tiles);
      }
    }
  }

  lemma NothingAtZero(file: seq<byte>)
    requires Tiled(file, 0, [])
    ensures Scan(file, 0, 0, true) == Some(Undamaged(file, 0, []))
  {
  }

  lemma DamageAtZero(file: seq<byte>, tiles: seq<Tile>)
    requires Tiled(file, 0, tiles) && tiles != [] && tiles[0].Damaged?
    ensures Scan(file, 0, 0, true) == Some(Undamaged(file, 0, tiles))
  {
    hide ParseAt, Undamaged;
    var n := tiles[0].length;
    SkipsStretch(file, 0, n);
    ResyncFinds(file, n, tiles[1..]);
    UndamagedSkips(file, 0, tiles);
    assert !Accepts(file, 0);
    if RECORD_HEADER_SIZE > |file| {
      NothingPastEnd(file, 0, n);
    }
  }

  lemma CutAtZero(file: seq<byte>, tiles: seq<Tile>)
    requires Tiled(file, 0, tiles) && tiles != [] && tiles[0].Cut?
    ensures Scan(file, 0, 0, true) == Some(Undamaged(file, 0, tiles))
  {
    hide ParseAt;
    FirstRecordIs(file, 4);
    assert forall x: nat :: OnGrid(4, x) ==> OnGrid(0, x);
  }

  // ---- The whole salvage --------------------------------------------------------

  /** The records left when a last one that carries the file's own index is taken back. */
  function WithoutTrailer(found: seq<Found>, holdsIndex: nat -> bool): seq<Found>
  {
    if found != [] && holdsIndex(found[|found| - 1].offset) then found[..|found| - 1] else found
  }

  /** `salvage_from_source`. `hasSchemas` and `holdsIndex` say what decoding the record at an offset
      finds. */
  method SalvageFromSource(file: seq<byte>, hasSchemas: nat -> bool, holdsIndex: nat -> bool)
    returns (r: Option<FileEventIndex>, ghost firstData: nat)
    ensures r.None? <==> FirstRecord(file, ScanFrom(file)).None?
    ensures r.Some? ==>
      && fresh(r.value) && r.value.Valid()
      && firstData == FirstData(file, FirstRecord(file, ScanFrom(file)).value, hasSchemas)
      && Scan(file, firstData, 0, true).Some?
      && FoundOf(r.value.records) == WithoutTrailer(Scan(file, firstData, 0, true).value, holdsIndex)
      && Apart(FoundOf(r.value.records), firstData, |file|)
  {
    hide ParseAt, Scan, FirstRecord, FileEventIndex.Valid, Apart;
    firstData := 0;
    var first := FindFirstRecord(file, ScanFrom(file));
    if first.None? {
      return None, 0;
    }
    FirstRecordIs(file, ScanFrom(file));
    var start := FirstData(file, first.value, hasSchemas);
    SalvageIsSafe(file, start, 0);
    var index := BuildIndexByScanning(file, start, 0, true);
    firstData := start;
    var n := |index.value.records|;
    ghost var found := Scan(file, start, 0, true).value;
    if n > 0 && holdsIndex(index.value.records[n - 1].fileOffset) {
      index.value.PopLast();
      assert FoundOf(index.value.records) == found[..n - 1];
    }
    ApartPrefix(found, start, |file|);
    r := index;
  }

  lemma ApartPrefix(found: seq<Found>, from: nat, end: nat)
    requires Apart(found, from, end)
    ensures found != [] ==> Apart(found[..|found| - 1], from, end)
  {
  }

  /** After the file header, when there is one. */
  function ScanFrom(file: seq<byte>): (from: nat)
    ensures ParseFileHeader(file).None? ==> from == 0
    ensures ParseFileHeader(file).Some? ==> from >= ParseFileHeader(file).value.headerLength && from >= 56
  {
    if ParseFileHeader(file).Some? then Max(ParseFileHeader(file).value.headerLength, FILE_HEADER_SIZE) else 0
  }

  /** Data starts after the first record when it is a dictionary, at it otherwise. */
  function FirstData(file: seq<byte>, first: nat, hasSchemas: nat -> bool): nat
    requires ParseAt(file, first).Some?
  {
    if hasSchemas(first) then first + ParseAt(file, first).value.recordLength else first
  }

  // ---- What opening a damaged file gives -----------------------------------------

  /** A place in the file and the tiles from there on. */
  datatype Stretch = Stretch(at: nat, tiles: seq<Tile>)

  /** The first undamaged record and all that follows it. */
  function FirstWhole(off: nat, tiles: seq<Tile>): (r: Option<Stretch>)
    ensures r.Some? ==> r.value.tiles != [] && r.value.tiles[0].Whole?
    decreases |tiles|
  {
    if tiles == [] then None
    else
      match tiles[0]
      case Whole(_) => Some(Stretch(off, tiles))
      case Damaged(n) => FirstWhole(off + n, tiles[1..])
      case Cut(_) => None
  }

  lemma {:induction false} FirstFound(file: seq<byte>, off: nat, tiles: seq<Tile>)
    requires Tiled(file, off, tiles)
    ensures FirstWhole(off, tiles).None? ==> FirstRecord(file, off) == None
    ensures FirstWhole(off, tiles).Some? ==>
      && FirstRecord(file, off) == Some(FirstWhole(off, tiles).value.at)
      && Tiled(file, FirstWhole(off, tiles).value.at, FirstWhole(off, tiles).value.tiles)
    decreases |tiles|
  {
    hide ParseAt;
    if tiles == [] {
      NothingPastEnd(file, off, off);
    } else {
      match tiles[0] {
        case Whole(n) =>
        case Damaged(n) =>
          FirstFound(file, off + n, tiles[1..]);
          SkipsStretch(file, off, off + n);
        case Cut(n) =>
          FirstRecordIs(file, off);
      }
    }
  }

  /** The data: from the first undamaged record on, or after it when it is a dictionary. */
  function DataFrom(first: Stretch, hasSchemas: nat -> bool): Stretch
    requires first.tiles != [] && first.tiles[0].Whole?
  {
    if hasSchemas(first.at) then Stretch(first.at + first.tiles[0].length, first.tiles[1..]) else first
  }

  /** Every undamaged record of the data with events, but for one at offset 0. */
  ghost function Recovered(file: seq<byte>, data: Stretch): (r: seq<Found>)
    requires Tiled(file, data.at, data.tiles)
  {
    if data.at == 0 && data.tiles != [] && data.tiles[0].Whole? then Undamaged(file, data.tiles[0].length, data.tiles[1..])
    else Undamaged(file, data.at, data.tiles)
  }

  lemma DataScanned(file: seq<byte>, first: Stretch, hasSchemas: nat -> bool)
    requires first.tiles != [] && first.tiles[0].Whole? && Tiled(file, first.at, first.tiles)
    ensures ParseAt(file, first.at).Some? && FirstData(file, first.at, hasSchemas) == DataFrom(first, hasSchemas).at
    ensures
      var data := DataFrom(first, hasSchemas);
      Tiled(file, data.at, data.tiles) && Scan(file, data.at, 0, true) == Some(Recovered(file, data))
  {
    hide ParseAt, Scan, Undamaged;
    var data := DataFrom(first, hasSchemas);
    if data.at == 0 {
      RecordAtZeroIsSkipped(file, data.tiles);
    } else {
      SalvageFinds(file, data.at, data.tiles);
    }
  }

  /** Opening a damaged file for salvage, the tiles beginning behind the file header when it parses and at
      the start when it does not: it fails exactly when no undamaged record is left; else it
      indexes every undamaged record of the data that holds events, dictionary and trailer excluded. */
  method SalvageTiled(file: seq<byte>, hasSchemas: nat -> bool, holdsIndex: nat -> bool, ghost from: nat,
      ghost tiles: seq<Tile>)
    returns (r: Option<FileEventIndex>)
    requires ParseFileHeader(file).None? ==> from == 0
    requires ParseFileHeader(file).Some? ==> from == Max(ParseFileHeader(file).value.headerLength, 56)
    requires Tiled(file, from, tiles)
    ensures r.None? <==> FirstWhole(from, tiles).None?
    ensures r.Some? ==>
      var data := DataFrom(FirstWhole(from, tiles).value, hasSchemas);
      && fresh(r.value) && r.value.Valid() && Tiled(file, data.at, data.tiles)
      && FoundOf(r.value.records) == WithoutTrailer(Recovered(file, data), holdsIndex)
  {
    hide ParseAt, ParseFileHeader, Scan, FirstRecord, FirstWhole, FirstData, FileEventIndex.Valid, Apart, Tiled,
         Recovered;
    assert from == ScanFrom(file);
    FirstFound(file, from, tiles);
    ghost var start;
    r, start := SalvageFromSource(file, hasSchemas, holdsIndex);
    if r.Some? {
      DataScanned(file, FirstWhole(from, tiles).value, hasSchemas);
    }
  }
}
