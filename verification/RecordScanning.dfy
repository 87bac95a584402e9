/** Finding the records of a file by walking it: the strict scan, and the salvage scan that steps
    around damage (src/read/inner.rs, src/wire/record_header.rs). */
module RecordScanning {
  import opened Bytes
  import opened EventIndexes

  const RECORD_HEADER_SIZE := 56
  const RH_RECORD_LENGTH := 0
  const RH_HEADER_LENGTH := 8
  const RH_EVENT_COUNT := 12
  const RH_INDEX_ARRAY_LEN := 16
  const RH_BIT_INFO := 20
  const RH_USER_HEADER_LEN := 24
  const RH_MAGIC_NUMBER := 28
  const RH_DATA_LENGTH := 32
  const RH_COMP_WORD := 36
  const RH_USER_WORD1 := 40
  const HEADER_MAGIC := 0xc0da_0100
  const HEADER_MAGIC_BE := 0x0001_dac0
  const COMP_TYPE_UNIT := 0x1000_0000
  const LAST_COMPRESSION := 14
  const PAD1_UNIT := 0x10_0000

  // ---- Record headers -----------------------------------------------------

  datatype RecordHeader = RecordHeader(
    recordLength: nat,
    headerLength: nat,
    eventCount: nat,
    indexArrayLength: nat,
    compression: nat,
    userHeaderLength: nat,
    userHeaderPadding: nat,
    dataLength: nat,
    userWord1: nat)

  /** A header word in the file's own byte order. */
  function Word(s: seq<byte>, off: nat, big: bool): (v: nat)
    requires off + 4 <= |s|
    ensures v < U32_LIMIT
  {
    if big then
      s[off + 3] as int + 256 * (s[off + 2] as int + 256 * (s[off + 1] as int + 256 * s[off] as int))
    else
      ReadU32(s, off)
  }

  /** Two words of the file's own byte order. */
  function LongWord(s: seq<byte>, off: nat, big: bool): (v: nat)
    requires off + 8 <= |s|
  {
    if big then U32_LIMIT * Word(s, off, big) + Word(s, off + 4, big)
    else Word(s, off, big) + U32_LIMIT * Word(s, off + 4, big)
  }

  /** `RecordHeader::parse`: either byte order, a known codec, no header longer than its record. */
  function ParseRecordHeader(s: seq<byte>): (r: Option<RecordHeader>)
    ensures r.Some? ==> r.value.headerLength <= r.value.recordLength
  {
    if |s| < RECORD_HEADER_SIZE then None
    else
      var magic := ReadU32(s, RH_MAGIC_NUMBER);
      if magic != HEADER_MAGIC && magic != HEADER_MAGIC_BE then None
      else
        var big := magic == HEADER_MAGIC_BE;
        var tag := Word(s, RH_COMP_WORD, big) / COMP_TYPE_UNIT;
        var length := 4 * Word(s, RH_RECORD_LENGTH, big);
        var headerLength := Min(4 * Word(s, RH_HEADER_LENGTH, big), U32_LIMIT - 1);
        if tag > LAST_COMPRESSION || headerLength > length then None
        else
          Some(RecordHeader(length, headerLength, Word(s, RH_EVENT_COUNT, big), Word(s, RH_INDEX_ARRAY_LEN, big), tag,
                            Word(s, RH_USER_HEADER_LEN, big), Word(s, RH_BIT_INFO, big) / PAD1_UNIT % 4,
                            Word(s, RH_DATA_LENGTH, big), LongWord(s, RH_USER_WORD1, big)))
  }

  function ParseAt(file: seq<byte>, off: nat): (r: Option<RecordHeader>)
    ensures r.Some? ==> off + RECORD_HEADER_SIZE <= |file|
  {
    if off + RECORD_HEADER_SIZE > |file| then None
    else ParseRecordHeader(file[off..off + RECORD_HEADER_SIZE])
  }

  /** The index array cannot hold more events than it has words for. */
  predicate CountFits(h: RecordHeader)
  {
    h.eventCount * 4 <= h.indexArrayLength
  }

  // ---- Resynchronising ------------------------------------------------------

  /** Something that parses as a record and claims a length the file has. */
  predicate Accepts(file: seq<byte>, off: nat)
  {
    && ParseAt(file, off).Some?
    && var total := ParseAt(file, off).value.recordLength;
       total >= RECORD_HEADER_SIZE && off + total <= |file|
  }

  predicate OnGrid(from: nat, off: nat)
  {
    from <= off && (off - from) % 4 == 0
  }

  /** `find_first_record`: the first accepted place on the 4-byte grid, or none at all. */
  method FindFirstRecord(file: seq<byte>, from: nat) returns (r: Option<nat>)
    ensures r == FirstRecord(file, from)
  {
    var off := from;
    while off + RECORD_HEADER_SIZE <= |file|
      invariant FirstRecord(file, from) == FirstRecord(file, off)
      decreases |file| - off
    {
      if Accepts(file, off) {
        return Some(off);
      }
      off := off + 4;
    }
    r := None;
  }

  function FirstRecord(file: seq<byte>, from: nat): (r: Option<nat>)
    ensures r.Some? ==> from <= r.value && Accepts(file, r.value)
    decreases |file| - from
  {
    if from + RECORD_HEADER_SIZE > |file| then None
    else if Accepts(file, from) then Some(from)
    else FirstRecord(file, from + 4)
  }

  lemma {:induction false} FirstRecordIs(file: seq<byte>, from: nat)
    ensures FirstRecord(file, from).Some? ==>
      var at := FirstRecord(file, from).value;
      OnGrid(from, at) && Accepts(file, at) && at + RECORD_HEADER_SIZE <= |file|
        && forall off: nat :: OnGrid(from, off) && off < at ==> !Accepts(file, off)
    ensures FirstRecord(file, from).None? ==> forall off: nat :: OnGrid(from, off) ==> !Accepts(file, off)
    decreases |file| - from
  {
    hide Accepts;
    if from + RECORD_HEADER_SIZE > |file| {
      PastTheEnd(file, from);
    } else if !Accepts(file, from) {
      FirstRecordIs(file, from + 4);
      assert forall off: nat :: OnGrid(from, off) ==> off == from || OnGrid(from + 4, off);
    }
  }

  /** A place from which a resynchronised scan may go on: a header parses there, and the record it claims is
      no shorter than a header and no longer than the rest of the file. */
  predicate Plausible(file: seq<byte>, off: nat)
  {
    match ParseAt(file, off)
    case None => false
    case Some(h) => 56 <= h.recordLength <= |file| - off
  }

  /** Resynchronising lands on the first such place on the 4-byte grid, and nowhere when there is none. */
  lemma FirstRecordMeans(file: seq<byte>, from: nat)
    ensures FirstRecord(file, from).Some? ==>
      var at := FirstRecord(file, from).value;
      && from <= at && (at - from) % 4 == 0 && Plausible(file, at)
      && forall off: nat :: from <= off < at && (off - from) % 4 == 0 ==> !Plausible(file, off)
    ensures FirstRecord(file, from).None? ==>
      forall off: nat :: from <= off && (off - from) % 4 == 0 ==> !Plausible(file, off)
  {
    FirstRecordIs(file, from);
    hide ParseAt, FirstRecord;
    forall off: nat
      ensures Accepts(file, off) <==> Plausible(file, off)
    {
    }
  }

  lemma PastTheEnd(file: seq<byte>, from: nat)
    requires from + RECORD_HEADER_SIZE > |file|
    ensures forall off: nat :: from <= off ==> !Accepts(file, off)
  {
    hide ParseRecordHeader;
  }

  // ---- The scan ---------------------------------------------------------------

  datatype Found = Found(offset: nat, length: nat, count: nat)

  /** What `build_index_by_scanning` indexes from `off` on; `None` is its error. */
  function Scan(file: seq<byte>, off: nat, trailerPos: nat, salvage: bool): (r: Option<seq<Found>>)
    decreases |file| - off
  {
    if off + RECORD_HEADER_SIZE > |file| then Some([])
    else
      match ParseAt(file, off)
      case None =>
        if !salvage then None
        else
          FirstRecordIs(file, off + 4);
          (match FirstRecord(file, off + 4)
           case None => Some([])
           case Some(next) => Scan(file, next, trailerPos, salvage))
      case Some(h) =>
        if h.recordLength == 0 then Some([])
        else if salvage && off + h.recordLength > |file| then Some([])
        else if !CountFits(h) then
          if !salvage then None else Scan(file, off + h.recordLength, trailerPos, salvage)
        else
          match Scan(file, off + h.recordLength, trailerPos, salvage)
          case None => None
          case Some(rest) =>
            Some((if h.eventCount > 0 && off != trailerPos then [Found(off, h.recordLength, h.eventCount)] else []) + rest)
  }

  /** Whatever the file, each record listed is one whose header parses, that is not the trailer, and whose
      claimed events its index array has the words for: four bytes an event. */
  ghost predicate HonestlyListed(file: seq<byte>, f: Found, trailerPos: nat)
  {
    && f.offset != trailerPos && f.count > 0 && ParseAt(file, f.offset).Some?
    && var h := ParseAt(file, f.offset).value;
       h.recordLength == f.length && h.eventCount == f.count && 4 * f.count <= h.indexArrayLength
  }

  lemma {:induction false} ListedAreHonest(file: seq<byte>, off: nat, trailerPos: nat, salvage: bool)
    ensures Scan(file, off, trailerPos, salvage).Some? ==>
      forall k :: 0 <= k < |Scan(file, off, trailerPos, salvage).value| ==>
        HonestlyListed(file, Scan(file, off, trailerPos, salvage).value[k], trailerPos)
    decreases |file| - off
  {
    hide ParseAt, FirstRecord;
    if off + RECORD_HEADER_SIZE <= |file| {
      match ParseAt(file, off) {
        case None =>
          FirstRecordIs(file, off + 4);
          if salvage && FirstRecord(file, off + 4).Some? {
            ListedAreHonest(file, FirstRecord(file, off + 4).value, trailerPos, salvage);
          }
        case Some(h) =>
          if h.recordLength > 0 {
            ListedAreHonest(file, off + h.recordLength, trailerPos, salvage);
          }
      }
    }
  }

  /** A header that claims more events than its index array has words for ends a strict scan in an error;
      a salvage scan steps over that record, and lists it in no place. */
  lemma OverclaimIsRefused(file: seq<byte>, off: nat, trailerPos: nat, h: RecordHeader)
    requires ParseAt(file, off) == Some(h) && 0 < h.recordLength && 4 * h.eventCount > h.indexArrayLength
    ensures Scan(file, off, trailerPos, false) == None
    ensures off + h.recordLength <= |file| ==>
      Scan(file, off, trailerPos, true) == Scan(file, off + h.recordLength, trailerPos, true)
  {
    hide ParseRecordHeader, FirstRecord;
  }

  function FoundOf(spans: seq<RecordSpan>): (r: seq<Found>)
    ensures |r| == |spans|
  {
    seq(|spans|, k requires 0 <= k < |spans| => Found(spans[k].fileOffset, spans[k].recordLength, spans[k].eventCount))
  }

  function Indexed(off: nat, h: RecordHeader, trailerPos: nat): seq<Found>
  {
    if h.eventCount > 0 && off != trailerPos then [Found(off, h.recordLength, h.eventCount)] else []
  }

  lemma ScanStep(file: seq<byte>, off: nat, h: RecordHeader, trailerPos: nat, salvage: bool, done: seq<Found>)
    requires ParseAt(file, off) == Some(h) && h.recordLength > 0 && CountFits(h)
    requires salvage ==> off + h.recordLength <= |file|
    ensures
      var here, next := Scan(file, off, trailerPos, salvage), Scan(file, off + h.recordLength, trailerPos, salvage);
      && (here.None? <==> next.None?)
      && (here.Some? ==> done + here.value == done + Indexed(off, h, trailerPos) + next.value)
  {
    hide ParseAt, FirstRecord, CountFits;
    var next := Scan(file, off + h.recordLength, trailerPos, salvage);
    if next.Some? {
      assert done + (Indexed(off, h, trailerPos) + next.value) == done + Indexed(off, h, trailerPos) + next.value;
    }
  }

  /** A record onto the index, unless it is empty or the trailer. */
  method Note(index: FileEventIndex, off: nat, h: RecordHeader, trailerPos: nat)
    requires index.Valid()
    modifies index
    ensures index.Valid() && FoundOf(index.records) == old(FoundOf(index.records)) + Indexed(off, h, trailerPos)
  {
    hide Chained, Total;
    if h.eventCount > 0 && off != trailerPos {
      index.Push(off, h.recordLength, h.eventCount);
    }
  }

  /** `build_index_by_scanning`. It terminates on any bytes at all. */
  method BuildIndexByScanning(file: seq<byte>, first: nat, trailerPos: nat, salvage: bool)
    returns (r: Option<FileEventIndex>)
    ensures r.None? <==> Scan(file, first, trailerPos, salvage).None?
    ensures r.Some? ==>
      fresh(r.value) && r.value.Valid() && FoundOf(r.value.records) == Scan(file, first, trailerPos, salvage).value
  {
    hide ParseAt, FirstRecord, FileEventIndex.Valid, CountFits, FoundOf, Indexed;
    var index := new FileEventIndex();
    var off := first;
    ghost var whole := Scan(file, first, trailerPos, salvage);
    while off + RECORD_HEADER_SIZE <= |file|
      invariant fresh(index) && index.Valid()
      invariant whole.None? <==> Scan(file, off, trailerPos, salvage).None?
      invariant whole.Some? ==> whole.value == FoundOf(index.records) + Scan(file, off, trailerPos, salvage).value
      decreases |file| - off
    {
      match ParseAt(file, off) {
        case None =>
          if !salvage {
            return None;
          }
          FirstRecordIs(file, off + 4);
          var next := FindFirstRecord(file, off + 4);
          if next.None? {
            return Some(index);
          }
          off := next.value;
        case Some(h) =>
          if h.recordLength == 0 || (salvage && off + h.recordLength > |file|) {
            return Some(index);
          }
          if !CountFits(h) {
            if !salvage {
              return None;
            }
          } else {
            ScanStep(file, off, h, trailerPos, salvage, FoundOf(index.records));
            Note(index, off, h, trailerPos);
          }
          off := off + h.recordLength;
      }
    }
    r := Some(index);
  }

  // ---- What a salvage scan always gives -----------------------------------------

  predicate Apart(found: seq<Found>, from: nat, end: nat)
  {
    && (forall k :: 0 <= k < |found| ==> from <= found[k].offset && 0 < found[k].length && found[k].offset + found[k].length <= end)
    && (forall k :: 0 <= k < |found| ==> found[k].count > 0)
    && forall i, j :: 0 <= i < j < |found| ==> found[i].offset + found[i].length <= found[j].offset
  }

  /** One step of a salvage scan: where it goes on, and what it lists here. */
  lemma SalvageStep(file: seq<byte>, off: nat, trailerPos: nat) returns (next: nat, own: seq<Found>, more: bool)
    ensures more ==>
      && off < next && |own| <= 1
      && (Scan(file, off, trailerPos, true).None? <==> Scan(file, next, trailerPos, true).None?)
      && (Scan(file, next, trailerPos, true).Some? ==>
            Scan(file, off, trailerPos, true).value == own + Scan(file, next, trailerPos, true).value)
      && (own != [] ==> own[0].offset == off && off + own[0].length == next <= |file| && own[0].count > 0)
      && next <= |file|
    ensures !more ==> Scan(file, off, trailerPos, true) == Some([])
  {
    hide ParseAt, FirstRecord, CountFits;
    next, own, more := off, [], false;
    if off + RECORD_HEADER_SIZE <= |file| {
      match ParseAt(file, off) {
        case None =>
          FirstRecordIs(file, off + 4);
          if FirstRecord(file, off + 4).Some? {
            next, more := FirstRecord(file, off + 4).value, true;
          }
        case Some(h) =>
          if h.recordLength > 0 && off + h.recordLength <= |file| {
            next, more := off + h.recordLength, true;
            own := if CountFits(h) then Indexed(off, h, trailerPos) else [];
          }
      }
    }
    if more && Scan(file, next, trailerPos, true).Some? && own == [] {
      assert own + Scan(file, next, trailerPos, true).value == Scan(file, next, trailerPos, true).value;
    }
  }

  /** On any bytes: it never fails, and its records ascend, do not overlap, lie inside the file and
      hold events. */
  lemma {:induction false} SalvageIsSafe(file: seq<byte>, off: nat, trailerPos: nat)
    ensures Scan(file, off, trailerPos, true).Some? && Apart(Scan(file, off, trailerPos, true).value, off, |file|)
    decreases |file| - off
  {
    hide Scan;
    var next, own, more := SalvageStep(file, off, trailerPos);
    if more {
      SalvageIsSafe(file, next, trailerPos);
      hide Apart;
      var rest := Scan(file, next, trailerPos, true).value;
      if own != [] {
        ApartCons(own[0], rest, |file|);
        assert own == [own[0]];
      } else {
        ApartWider(rest, next, off, |file|);
        assert own + rest == rest;
      }
    }
  }

  lemma ApartWider(found: seq<Found>, from: nat, lo: nat, end: nat)
    requires Apart(found, from, end) && lo <= from
    ensures Apart(found, lo, end)
  {
  }

  /** One more record in front. */
  lemma ApartCons(f: Found, rest: seq<Found>, end: nat)
    requires Apart(rest, f.offset + f.length, end) && f.length > 0 && f.count > 0 && f.offset + f.length <= end
    ensures Apart([f] + rest, f.offset, end)
  {
    var all := [f] + rest;
    assert forall k :: 1 <= k < |all| ==> all[k] == rest[k - 1];
    forall i, j | 0 <= i < j < |all|
      ensures all[i].offset + all[i].length <= all[j].offset
    {
      assert all[j] == rest[j - 1];
    }
  }
}
