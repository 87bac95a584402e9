/** Where the batch of tag updates stops protecting: events shorter than their own tag field, and
    events without their magic (`set_event_tags`, src/read/chain.rs). */
module ShortEvents {
  import opened Bytes
  import opened Events
  import opened EventIndexes
  import opened ChainIndexes
  import opened RecordScanning
  import opened BlobRecords
  import opened RecordHeaders
  import opened FileHeaders
  import opened TagPatches
  import opened TagRereads

  // ---- What one write may touch ---------------------------------------------------

  /** An uncompressed record whose events, of any length, lie in the file. */
  predicate Lies(file: seq<byte>, off: nat, l: RecordLayout)
  {
    Layout(file, off) == Some(l) && off + l.dataStart + l.offsets[|l.offsets| - 1] <= |file|
  }

  /** Events lie one after the other. */
  lemma InOrder(file: seq<byte>, off: nat, l: RecordLayout, i: nat, j: nat)
    requires Lies(file, off, l) && i <= j < |l.offsets|
    ensures l.offsets[i] <= l.offsets[j] <= l.offsets[|l.offsets| - 1]
  {
    LayoutRises(file, off, l, i, j);
    LayoutRises(file, off, l, j, |l.offsets| - 1);
  }

  /** The file after event `e` was given a tag. */
  function Tagged(file: seq<byte>, off: nat, l: RecordLayout, e: nat, tag: u32): seq<byte>
    requires e < |l.offsets|
  {
    WriteAt(file, EventStart(off, l, e) + EH_TAG, U32LE(tag))
  }

  /** It is the write the batch makes for that event. */
  lemma TaggedIsPatch(files: Files, f: nat, off: nat, l: RecordLayout, e: nat, tag: u32)
    requires f < |files| && Layout(files[f], off) == Some(l) && e + 1 < |l.offsets|
    ensures SpotOf(files, Target(f, off, e, tag)) == Some(Spot(f, EventStart(off, l, e), tag))
    ensures Patch(files, Spot(f, EventStart(off, l, e), tag)) == files[f := Tagged(files[f], off, l, e, tag)]
  {
  }

  lemma Written(file: seq<byte>, at: nat, patch: seq<byte>, x: nat)
    ensures |WriteAt(file, at, patch)| >= |file|
    ensures |WriteAt(file, at, patch)| == |file| <==> at + |patch| <= |file| || (patch == [] && at <= |file|)
    ensures at <= x < at + |patch| ==> x < |WriteAt(file, at, patch)| && WriteAt(file, at, patch)[x] == patch[x - at]
    ensures x < |file| && !(at <= x < at + |patch|) ==> WriteAt(file, at, patch)[x] == file[x]
  {
  }

  /** Some tag puts another byte there. */
  lemma OtherByte(b: byte, j: nat) returns (tag: u32)
    requires j < 4
    ensures U32LE(tag)[j] != b
  {
    tag := if b != 0 then 0 else if j == 0 then 1 else if j == 1 then 256 else if j == 2 then 0x1_0000 else 0x100_0000;
  }

  predicate KeepsBytes(was: seq<byte>, now: seq<byte>, lo: nat, hi: nat)
  {
    forall x: nat :: lo <= x < hi && x < |was| ==> x < |now| && now[x] == was[x]
  }

  /** Whatever tag event `e` is given, nothing outside the event changes. */
  ghost predicate StaysHome(file: seq<byte>, off: nat, l: RecordLayout, e: nat)
    requires e + 1 < |l.offsets|
  {
    forall tag: u32 :: TagStays(file, off, l, e, tag)
  }

  predicate TagStays(file: seq<byte>, off: nat, l: RecordLayout, e: nat, tag: u32)
    requires e + 1 < |l.offsets|
  {
    var after := Tagged(file, off, l, e, tag);
    && |after| == |file|
    && KeepsBytes(file, after, 0, EventStart(off, l, e)) && KeepsBytes(file, after, EventStart(off, l, e + 1), |file|)
  }

  lemma KeptRange(file: seq<byte>, at: nat, patch: seq<byte>, lo: nat, hi: nat)
    requires hi <= at || at + |patch| <= lo
    ensures KeepsBytes(file, WriteAt(file, at, patch), lo, hi)
  {
    var now := WriteAt(file, at, patch);
    forall x: nat | lo <= x < hi && x < |file|
      ensures x < |now| && now[x] == file[x]
    {
      Written(file, at, patch, x);
    }
  }

  /** A tag write stays inside its event exactly when the event is at least twelve bytes long. */
  lemma StaysHomeIff(file: seq<byte>, off: nat, l: RecordLayout, e: nat)
    requires Lies(file, off, l) && e + 1 < |l.offsets|
    ensures StaysHome(file, off, l, e) <==> l.offsets[e] + EH_RESERVED <= l.offsets[e + 1]
  {
    InOrder(file, off, l, e, e + 1);
    if l.offsets[e] + EH_RESERVED <= l.offsets[e + 1] {
      LongStaysHome(file, off, l, e);
    } else {
      ShortStrays(file, off, l, e);
    }
  }

  lemma LongStaysHome(file: seq<byte>, off: nat, l: RecordLayout, e: nat)
    requires Lies(file, off, l) && e + 1 < |l.offsets| && l.offsets[e] + EH_RESERVED <= l.offsets[e + 1]
    ensures StaysHome(file, off, l, e)
  {
    LiesInside(file, off, l, e + 1);
    hide Lies, TagStays;
    forall tag: u32
      ensures TagStays(file, off, l, e, tag)
    {
      LongTagStays(file, off, l, e, tag);
    }
  }

  lemma LongTagStays(file: seq<byte>, off: nat, l: RecordLayout, e: nat, tag: u32)
    requires e + 1 < |l.offsets| && l.offsets[e] + EH_RESERVED <= l.offsets[e + 1] && EventStart(off, l, e + 1) <= |file|
    ensures TagStays(file, off, l, e, tag)
  {
    hide U32LE, WriteAt, KeepsBytes;
    Written(file, EventStart(off, l, e) + EH_TAG, U32LE(tag), 0);
    KeptRange(file, EventStart(off, l, e) + EH_TAG, U32LE(tag), 0, EventStart(off, l, e));
    KeptRange(file, EventStart(off, l, e) + EH_TAG, U32LE(tag), EventStart(off, l, e + 1), |file|);
  }

  lemma ShortStrays(file: seq<byte>, off: nat, l: RecordLayout, e: nat)
    requires Lies(file, off, l) && e + 1 < |l.offsets| && l.offsets[e + 1] < l.offsets[e] + EH_RESERVED
    ensures !StaysHome(file, off, l, e)
  {
    hide Lies, U32LE, WriteAt;
    var last := EventStart(off, l, e) + EH_RESERVED - 1;
    var tag := OtherByte(if last < |file| then file[last] else 0, 3);
    Written(file, EventStart(off, l, e) + EH_TAG, U32LE(tag), last);
    assert !TagStays(file, off, l, e, tag);
  }

  lemma LiesInside(file: seq<byte>, off: nat, l: RecordLayout, k: nat)
    requires Lies(file, off, l) && k < |l.offsets|
    ensures EventStart(off, l, k) <= |file|
  {
    InOrder(file, off, l, k, |l.offsets| - 1);
  }

  /** Whatever tag event `e` is given, the record's other events keep their bytes. */
  ghost predicate KeepsNeighbours(file: seq<byte>, off: nat, l: RecordLayout, e: nat)
    requires e < |l.offsets|
  {
    forall tag: u32, k: nat :: k != e && k + 1 < |l.offsets| ==>
      KeepsBytes(file, Tagged(file, off, l, e, tag), EventStart(off, l, k), EventStart(off, l, k + 1))
  }

  /** The other events are spared exactly when the event is at least twelve bytes long, or no later
      event of the record has a byte that far on. */
  lemma KeepsNeighboursIff(file: seq<byte>, off: nat, l: RecordLayout, e: nat)
    requires Lies(file, off, l) && e + 1 < |l.offsets|
    ensures KeepsNeighbours(file, off, l, e) <==>
      || l.offsets[e] + EH_RESERVED <= l.offsets[e + 1]
      || l.offsets[|l.offsets| - 1] <= Max(l.offsets[e + 1], l.offsets[e] + EH_TAG)
  {
    var far := Max(l.offsets[e + 1], l.offsets[e] + EH_TAG);
    if l.offsets[e] + EH_RESERVED <= l.offsets[e + 1] || l.offsets[|l.offsets| - 1] <= far {
      SparedWhenFar(file, off, l, e);
    } else {
      HitWhenNear(file, off, l, e, far);
    }
  }

  lemma SparedWhenFar(file: seq<byte>, off: nat, l: RecordLayout, e: nat)
    requires Lies(file, off, l) && e + 1 < |l.offsets|
    requires l.offsets[e] + EH_RESERVED <= l.offsets[e + 1] || l.offsets[|l.offsets| - 1] <= Max(l.offsets[e + 1], l.offsets[e] + EH_TAG)
    ensures KeepsNeighbours(file, off, l, e)
  {
    hide Lies, U32LE, WriteAt, KeepsBytes;
    forall tag: u32, k: nat | k != e && k + 1 < |l.offsets|
      ensures KeepsBytes(file, Tagged(file, off, l, e, tag), EventStart(off, l, k), EventStart(off, l, k + 1))
    {
      InOrder(file, off, l, k, k + 1);
      InOrder(file, off, l, k + 1, |l.offsets| - 1);
      if k < e {
        InOrder(file, off, l, k + 1, e);
      } else {
        InOrder(file, off, l, e + 1, k);
      }
      if EventStart(off, l, k) < EventStart(off, l, k + 1) {
        KeptRange(file, EventStart(off, l, e) + EH_TAG, U32LE(tag), EventStart(off, l, k), EventStart(off, l, k + 1));
      } else {
        NothingToKeep(file, Tagged(file, off, l, e, tag), EventStart(off, l, k), EventStart(off, l, k + 1));
      }
    }
  }

  lemma NothingToKeep(was: seq<byte>, now: seq<byte>, lo: nat, hi: nat)
    requires hi <= lo
    ensures KeepsBytes(was, now, lo, hi)
  {
  }

  lemma HitWhenNear(file: seq<byte>, off: nat, l: RecordLayout, e: nat, far: nat)
    requires Lies(file, off, l) && e + 1 < |l.offsets|
    requires far == Max(l.offsets[e + 1], l.offsets[e] + EH_TAG) < l.offsets[|l.offsets| - 1]
    requires l.offsets[e + 1] < l.offsets[e] + EH_RESERVED
    ensures !KeepsNeighbours(file, off, l, e)
  {
    var k := Holding(file, off, l, e + 1, far);
    LiesInside(file, off, l, k + 1);
    hide Lies, U32LE, WriteAt;
    var x := off + l.dataStart + far;
    var tag := OtherByte(file[x], far - l.offsets[e] - EH_TAG);
    Written(file, EventStart(off, l, e) + EH_TAG, U32LE(tag), x);
    assert !KeepsBytes(file, Tagged(file, off, l, e, tag), EventStart(off, l, k), EventStart(off, l, k + 1));
  }

  /** The event from `i` on that holds a byte. */
  lemma {:induction false} Holding(file: seq<byte>, off: nat, l: RecordLayout, i: nat, far: nat) returns (k: nat)
    requires Lies(file, off, l) && i < |l.offsets| && l.offsets[i] <= far < l.offsets[|l.offsets| - 1]
    ensures i <= k && k + 1 < |l.offsets| && l.offsets[k] <= far < l.offsets[k + 1]
    decreases |l.offsets| - i
  {
    hide Lies;
    if far < l.offsets[i + 1] {
      k := i;
    } else {
      k := Holding(file, off, l, i + 1, far);
    }
  }

  /** No write into a record strays exactly when every event of it has room for its tag. */
  lemma LongEventsAreSafe(file: seq<byte>, off: nat, l: RecordLayout)
    requires Lies(file, off, l)
    ensures (forall e :: 0 <= e < |l.offsets| - 1 ==> l.offsets[e] + EH_RESERVED <= l.offsets[e + 1])
            <==> (forall e :: 0 <= e < |l.offsets| - 1 ==> StaysHome(file, off, l, e))
  {
    hide Lies, StaysHome;
    if forall e :: 0 <= e < |l.offsets| - 1 ==> StaysHome(file, off, l, e) {
      forall e | 0 <= e < |l.offsets| - 1
        ensures l.offsets[e] + EH_RESERVED <= l.offsets[e + 1]
      {
        StaysHomeIff(file, off, l, e);
      }
    } else {
      var e :| 0 <= e < |l.offsets| - 1 && !StaysHome(file, off, l, e);
      StaysHomeIff(file, off, l, e);
    }
  }

  // ---- Two batches ------------------------------------------------------------------

  /** A file header of 56 bytes and no trailer; the file's number is of no account. */
  function FileWords(number: u32): seq<u32>
  {
    [number, 14, 0, 0, HIPO_VERSION, 0, HEADER_MAGIC, 0, 0, 0, 0, 0, 0]
  }

  /** An uncompressed record of this many words in all, two events. */
  function RecordWords(n: u32): seq<u32>
  {
    [n, 0, 14, 2, 8, 0, 0, HEADER_MAGIC, 0, 0, 0, 0, 0, 0]
  }

  /** A file of one record: the two headers, an index of two event lengths, and the events. */
  function TwoEvents(n: u32, a: byte, b: byte, data: seq<byte>): (file: seq<byte>)
    ensures |file| == 120 + |data|
  {
    FileImage(FileWords(n), false) + (Image(RecordWords(n), false) + ([a, 0, 0, 0, b, 0, 0, 0] + data))
  }

  lemma HeadersOfTwo(n: u32, a: byte, b: byte, data: seq<byte>)
    requires n >= 16
    ensures ParseFileHeader(TwoEvents(n, a, b, data)) == Some(FileHeader(56, 0, 0))
    ensures ParseAt(TwoEvents(n, a, b, data), 56) == Some(RecordHeader(4 * n as int, 56, 2, 8, 0, 0, 0, 0, 0))
    ensures TwoEvents(n, a, b, data)[112..120] == [a, 0, 0, 0, b, 0, 0, 0]
    ensures TwoEvents(n, a, b, data)[120..] == data
  {
    var header, front, rest := FileImage(FileWords(n), false), Image(RecordWords(n), false),
        [a, 0, 0, 0, b, 0, 0, 0] + data;
    hide FileImage, Image, ParseFileHeader, ParseRecordHeader, FileWords, RecordWords;
    FileWordsParse(n, front + rest);
    RecordWordsParse(n);
    ThreeParts(header, front, rest);
    assert rest[..8] == [a, 0, 0, 0, b, 0, 0, 0] && rest[8..] == data;
    hide TwoEvents;
    SliceOfSlice(TwoEvents(n, a, b, data), 112, 120 + |data|, 0, 8);
    SliceOfSlice(TwoEvents(n, a, b, data), 112, 120 + |data|, 8, 8 + |data|);
  }

  lemma FileWordsParse(n: u32, rest: seq<byte>)
    ensures |FileImage(FileWords(n), false)| == 56
    ensures ParseFileHeader(FileImage(FileWords(n), false) + rest) == Some(FileHeader(56, 0, 0))
  {
    hide FileImage, ParseFileHeader;
    FileHeaderParses(FileHeader(56, 0, 0), FileWords(n), false, rest);
  }

  lemma RecordWordsParse(n: u32)
    requires n >= 16
    ensures |Image(RecordWords(n), false)| == 56
    ensures ParseRecordHeader(Image(RecordWords(n), false)) == Some(RecordHeader(4 * n as int, 56, 2, 8, 0, 0, 0, 0, 0))
  {
    hide Image, ParseRecordHeader;
    WrittenParses(RecordHeader(4 * n as int, 56, 2, 8, 0, 0, 0, 0, 0), RecordWords(n), false);
  }

  lemma ThreeParts(a: seq<byte>, b: seq<byte>, c: seq<byte>)
    requires |a| == 56 && |b| == 56
    ensures (a + (b + c))[56..112] == b && (a + (b + c))[112..] == c
  {
  }

  lemma TwoEventsLayout(n: u32, a: byte, b: byte, data: seq<byte>)
    requires n >= 16
    ensures Layout(TwoEvents(n, a, b, data), 56) == Some(RecordLayout(64, [0, a as int, a as int + b as int]))
  {
    HeadersOfTwo(n, a, b, data);
    hide ParseAt, TwoEvents;
    var index := TwoEvents(n, a, b, data)[112..120];
    assert ReadU32(index, 0) == a as int && ReadU32(index, 4) == b as int;
    hide ReadU32;
    assert EventOffsets(index, 0) == [0];
    assert EventOffsets(index, 1) == [0, a as int];
    assert EventOffsets(index, 2) == [0, a as int, a as int + b as int];
  }

  /** A chain opens such a file and indexes its record, when the record ends with the file. */
  lemma TwoEventsOpen(n: u32, a: byte, b: byte, data: seq<byte>)
    requires n >= 16 && 4 * n as int == 64 + |data|
    ensures OpensTo(TwoEvents(n, a, b, data), FoundOf(OneSpan(56, 4 * n as int)[0]))
  {
    hide ParseAt, TwoEvents, ParseFileHeader, Scan, FoundOf;
    HeadersOfTwo(n, a, b, data);
    OneRecordScanned(TwoEvents(n, a, b, data), 56, RecordHeader(4 * n as int, 56, 2, 8, 0, 0, 0, 0, 0));
    OneSpanFound(56, 4 * n as int);
  }

  lemma OneSpanFound(off: nat, length: nat)
    ensures FoundOf(OneSpan(off, length)[0]) == [Found(off, length, 2)]
  {
  }

  /** A record that ends with the file is all a scan finds from it on. */
  lemma OneRecordScanned(file: seq<byte>, off: nat, h: RecordHeader)
    requires ParseAt(file, off) == Some(h) && off > 0 && off + h.recordLength == |file|
    requires CountFits(h) && h.eventCount > 0 && h.recordLength > 0
    ensures Scan(file, off, 0, false) == Some([Found(off, h.recordLength, h.eventCount)])
  {
    hide ParseAt, CountFits;
    assert Scan(file, |file|, 0, false) == Some([]);
    assert [Found(off, h.recordLength, h.eventCount)] + [] == [Found(off, h.recordLength, h.eventCount)];
  }

  predicate HasAt(file: seq<byte>, at: nat, w: seq<byte>)
  {
    at + |w| <= |file| && file[at..at + |w|] == w
  }

  lemma DataHas(n: u32, a: byte, b: byte, data: seq<byte>, at: nat, w: seq<byte>)
    requires n >= 16 && HasAt(data, at, w)
    ensures HasAt(TwoEvents(n, a, b, data), 120 + at, w)
  {
    HeadersOfTwo(n, a, b, data);
    hide TwoEvents;
    SliceOfSlice(TwoEvents(n, a, b, data), 120, 120 + |data|, at, at + |w|);
  }

  function OneSpan(off: nat, length: nat): Spans
  {
    [[RecordSpan(off, length, 2, 0)]]
  }

  lemma OneSpanIndexed(off: nat, length: nat)
    ensures IndexesOk(OneSpan(off, length)) && IsOffsets(OneSpan(off, length), [0, 2])
    ensures ChainTotal(OneSpan(off, length)) == 2
    ensures Start(OneSpan(off, length), (0, 0)) == 0
  {
    var spans := OneSpan(off, length);
    var counts := Counts(spans[0]);
    assert counts == [2] && counts[..0] == [] && Sum([2]) == 2 + Sum([]);
    assert Total(spans[0]) == 2;
    assert Totals(spans) == [2] && Totals(spans)[..0] == [] && Totals(spans)[..1] == [2];
  }

  /** Both events of the record can be placed, and nowhere else. */
  lemma PlaceInRecord(off: nat, length: nat, file: seq<byte>, l: RecordLayout, g: nat, tag: u32)
    requires Layout(file, off) == Some(l) && |l.offsets| == 3 && g < 2
    ensures !Refused(OneSpan(off, length), [file], (g, tag))
    ensures forall spot :: Places(OneSpan(off, length), [file], (g, tag), spot) ==>
      spot == Spot(0, EventStart(off, l, g), tag)
    ensures forall done :: AllInside([file], done) && UpdateBarred(OneSpan(off, length), [file], done, (g, tag)) ==>
      !MagicAt(PatchAll([file], done), Spot(0, EventStart(off, l, g), tag))
  {
    OneSpanIndexed(off, length);
    LaidOutUnlessUnfit(file, off);
    hide Layout, Start, IndexesOk, MagicAt, PatchAll, Unfit;
    forall t | Targets(OneSpan(off, length), g, tag, t)
      ensures t == Target(0, off, g, tag)
    {
    }
  }

  /** Two updates of one file: each is made only behind its magic, the second as the first left it. */
  ghost predicate BothTagged(file: seq<byte>, s0: Spot, s1: Spot, r: Result<nat, PatchError>, after: Files)
    requires s0.file == 0 && s1.file == 0
  {
    if !MagicAt([file], s0) then r == Err(BadEvent(0)) && after == [file]
    else if !MagicAt(Patch([file], s0), s1) then r == Err(BadEvent(1)) && after == Patch([file], s0)
    else r == Ok(2) && after == Patch(Patch([file], s0), s1)
  }

  lemma WhatWasTagged(file: seq<byte>, s0: Spot, s1: Spot, spots: seq<Spot>, r: Result<nat, PatchError>, after: Files)
    requires s0.file == 0 && s1.file == 0 && spots <= [s0, s1]
    requires AllInside([file], spots) && after == PatchAll([file], spots)
    requires forall k :: 0 <= k < |spots| ==> MagicLeft([file], spots, k)
    requires r.Ok? ==> r.value == |spots| == 2
    requires r.Err? ==> r.error == BadEvent(|spots|) && |spots| < 2 && !MagicAt(after, [s0, s1][|spots|])
    ensures BothTagged(file, s0, s1, r, after)
  {
    PatchesOfTwo(file, s0, s1);
    hide MagicAt, PatchAll, Patch;
    if |spots| > 0 {
      assert MagicLeft([file], spots, 0) && spots[..0] == [];
    }
    if |spots| > 1 {
      assert MagicLeft([file], spots, 1) && spots[..1] == [s0];
    }
    assert spots == [] || spots == [s0] || spots == [s0, s1];
  }

  lemma BothInRange(off: nat, length: nat, file: seq<byte>, l: RecordLayout, t0: u32, t1: u32)
    requires Layout(file, off) == Some(l) && |l.offsets| == 3
    ensures AllInRange(OneSpan(off, length), [(0, t0), (1, t1)])
    ensures !AnyRefused(OneSpan(off, length), [file], [(0, t0), (1, t1)])
  {
    OneSpanIndexed(off, length);
    PlaceInRecord(off, length, file, l, 0, t0);
    PlaceInRecord(off, length, file, l, 1, t1);
    hide Layout, Refused, OneSpan, ChainTotal, IndexesOk, IsOffsets;
  }

  lemma BothPlaced(off: nat, length: nat, file: seq<byte>, l: RecordLayout, updates: seq<(nat, u32)>, spots: seq<Spot>,
      k: nat)
    requires Layout(file, off) == Some(l) && |l.offsets| == 3 && k < |updates| && updates[k].0 < 2
    requires k < |spots| ==> Places(OneSpan(off, length), [file], updates[k], spots[k])
    requires k == |spots| ==> AllInside([file], spots) && UpdateBarred(OneSpan(off, length), [file], spots, updates[k])
    ensures
      var own := Spot(0, EventStart(off, l, updates[k].0), updates[k].1);
      (k < |spots| ==> spots[k] == own) && (k == |spots| ==> !MagicAt(PatchAll([file], spots), own))
  {
    PlaceInRecord(off, length, file, l, updates[k].0, updates[k].1);
    hide Layout, Places, UpdateBarred, MagicAt, PatchAll, OneSpan;
  }

  lemma BatchOfTwo(off: nat, length: nat, file: seq<byte>, l: RecordLayout, updates: seq<(nat, u32)>, spots: seq<Spot>,
      r: Result<nat, PatchError>, after: Files)
    requires Layout(file, off) == Some(l) && |l.offsets| == 3 && |updates| == 2 && updates[0].0 == 0
    requires updates[1].0 == 1
    requires AllInside([file], spots) && after == PatchAll([file], spots) && |spots| <= 2
    requires forall k :: 0 <= k < |spots| ==>
      Places(OneSpan(off, length), [file], updates[k], spots[k]) && MagicLeft([file], spots, k)
    requires r.Ok? ==> r.value == |spots| == 2
    requires r.Err? ==>
      r.error == BadEvent(|spots|) && |spots| < 2 && UpdateBarred(OneSpan(off, length), [file], spots, updates[|spots|])
    ensures BothTagged(file, Spot(0, EventStart(off, l, 0), updates[0].1),
      Spot(0, EventStart(off, l, 1), updates[1].1), r, after)
  {
    hide Layout, Places, MagicAt, MagicLeft, UpdateBarred, PatchAll, OneSpan, EventStart, BothTagged;
    if spots != [] || r.Err? {
      BothPlaced(off, length, file, l, updates, spots, 0);
    }
    if |spots| == 2 || (|spots| == 1 && r.Err?) {
      BothPlaced(off, length, file, l, updates, spots, 1);
    }
    WhatWasTagged(file, Spot(0, EventStart(off, l, 0), updates[0].1), Spot(0, EventStart(off, l, 1), updates[1].1),
      spots, r, after);
  }

  /** The batch of two updates, one an event of a two-event record. */
  method RetagBoth(off: nat, length: nat, file: seq<byte>, ghost l: RecordLayout, t0: u32, t1: u32)
    returns (r: Result<nat, PatchError>, after: Files)
    requires Layout(file, off) == Some(l) && |l.offsets| == 3
    ensures BothTagged(file, Spot(0, EventStart(off, l, 0), t0), Spot(0, EventStart(off, l, 1), t1), r, after)
  {
    var disk := new Disk([file]);
    OneSpanIndexed(off, length);
    BothInRange(off, length, file, l, t0, t1);
    hide Layout, IndexesOk, IsOffsets, ChainTotal, AllInRange, AnyRefused, Places, MagicAt, MagicLeft, UpdateBarred,
         PatchAll, OneSpan, EventStart, BothTagged;
    ghost var spots;
    r, spots := disk.SetEventTags(OneSpan(off, length), [0, 2], [(0, t0), (1, t1)]);
    after := disk.files;
    BatchOfTwo(off, length, file, l, [(0, t0), (1, t1)], spots, r, after);
  }

  lemma PatchesOfTwo(file: seq<byte>, s0: Spot, s1: Spot)
    requires s0.file == 0 && s1.file == 0
    ensures AllInside([file], []) && PatchAll([file], []) == [file]
    ensures AllInside([file], [s0]) && PatchAll([file], [s0]) == Patch([file], s0)
    ensures AllInside([file], [s0, s1]) && PatchAll([file], [s0, s1]) == Patch(Patch([file], s0), s1)
  {
    assert [s0][..0] == [] && [s0, s1][..1] == [s0];
  }

  /** Sixteen bytes of event: magic, and nothing else set. */
  function Plain(): (r: seq<byte>)
    ensures |r| == 16
  {
    EVENT_MAGIC + Zeros(12)
  }

  /** A file of two plain events but for the second's bytes. */
  function HalfDamaged(second: seq<byte>): (file: seq<byte>)
    requires |second| == 16
  {
    TwoEvents(24, 16, 16, Plain() + second)
  }

  /** The promise of no partial change, broken: the second event's bytes do not start with its magic.
      A chain opens the file, both updates name events of its patchable record, the batch fails, and
      the first update is on disk. */
  method HalfDoneBatch(second: seq<byte>, tag: u32)
    returns (r: Result<nat, PatchError>, after: Files, ghost l: RecordLayout)
    requires |second| == 16 && second[..4] != EVENT_MAGIC && tag != 0
    ensures OpensTo(HalfDamaged(second), FoundOf(OneSpan(56, 96)[0])) && Layout(HalfDamaged(second), 56) == Some(l)
    ensures |l.offsets| == 3 && l.offsets[1] == l.offsets[0] + 16 && l.offsets[2] == l.offsets[1] + 16
    ensures r == Err(BadEvent(1)) && after == [Tagged(HalfDamaged(second), 56, l, 0, tag)] != [HalfDamaged(second)]
  {
    l := RecordLayout(64, [0, 16, 32]);
    var file := HalfDamaged(second);
    HalfDamagedShape(second, l);
    hide HalfDamaged, Layout, Patch, MagicAt, OpensTo, HasAt;
    FirstTagged(file, l, tag);
    r, after := RetagBoth(56, 96, file, l, tag, tag);
  }

  lemma HalfDamagedShape(second: seq<byte>, l: RecordLayout)
    requires |second| == 16 && l == RecordLayout(64, [0, 16, 32]) && second[..4] != EVENT_MAGIC
    ensures OpensTo(HalfDamaged(second), FoundOf(OneSpan(56, 96)[0]))
    ensures Layout(HalfDamaged(second), 56) == Some(l) && |HalfDamaged(second)| == 152
    ensures HasAt(HalfDamaged(second), 120, EVENT_MAGIC) && HasAt(HalfDamaged(second), 128, Zeros(4))
    ensures !HasAt(HalfDamaged(second), 136, EVENT_MAGIC)
  {
    var data := Plain() + second;
    PlainSlices(second);
    hide Plain, TwoEvents, Layout, OpensTo, OneSpan, FoundOf;
    TwoEventsOpen(24, 16, 16, data);
    TwoEventsLayout(24, 16, 16, data);
    DataHas(24, 16, 16, data, 0, EVENT_MAGIC);
    DataHas(24, 16, 16, data, 8, Zeros(4));
    DataHas(24, 16, 16, data, 16, second[..4]);
  }

  lemma PlainSlices(second: seq<byte>)
    requires |second| >= 4
    ensures HasAt(Plain() + second, 0, EVENT_MAGIC) && HasAt(Plain() + second, 8, Zeros(4))
    ensures HasAt(Plain() + second, 16, second[..4])
  {
    assert Plain()[0..4] == EVENT_MAGIC && Plain()[8..12] == Zeros(4);
  }

  lemma FirstTagged(file: seq<byte>, l: RecordLayout, tag: u32)
    requires |file| == 152 && HasAt(file, 120, EVENT_MAGIC) && HasAt(file, 128, Zeros(4))
    requires !HasAt(file, 136, EVENT_MAGIC)
    requires Layout(file, 56) == Some(l) && |l.offsets| == 3 && EventStart(56, l, 0) == 120 && tag != 0
    ensures MagicAt([file], Spot(0, 120, tag)) && !MagicAt(Patch([file], Spot(0, 120, tag)), Spot(0, 136, tag))
    ensures Patch([file], Spot(0, 120, tag)) == [Tagged(file, 56, l, 0, tag)] != [file]
  {
    var now := Tagged(file, 56, l, 0, tag);
    assert now == WriteAt(file, 128, U32LE(tag));
    hide Layout, U32LE;
    TaggedIsPatch([file], 0, 56, l, 0, tag);
    hide Patch, Tagged;
    assert [file][0 := now] == [now];
    assert now[128..132] == U32LE(tag) && now[136..140] == file[136..140];
    hide WriteAt;
    ReadU32OfWord(tag, now, 128);
    assert file[128..132] == Zeros(4) ==> ReadU32(file, 128) == 0 by {
      ZerosReadZero(file, 128);
    }
  }

  lemma ZerosReadZero(s: seq<byte>, off: nat)
    requires off + 4 <= |s|
    ensures s[off..off + 4] == Zeros(4) ==> ReadU32(s, off) == 0
  {
    assert s[off..off + 4][0] == s[off] && s[off..off + 4][1] == s[off + 1];
    assert s[off..off + 4][2] == s[off + 2] && s[off..off + 4][3] == s[off + 3];
  }

  /** A file whose record's index array lists an event of eight bytes, magic and size word, before one of sixteen. */
  function ShortFirst(word: seq<byte>, second: seq<byte>): (file: seq<byte>)
    requires |word| == 4 && |second| == 16
  {
    TwoEvents(22, 8, 16, EVENT_MAGIC + word + second)
  }

  /** The tag of an eight-byte event is written over the next event's magic: a chain opens the file,
      its record is undamaged, both updates are good, and the second fails on damage the first has
      done. */
  method ShortEventBatch(word: seq<byte>, second: seq<byte>, tag: u32)
    returns (r: Result<nat, PatchError>, after: Files, ghost l: RecordLayout)
    requires |word| == 4 && |second| == 16 && second[..4] == EVENT_MAGIC != U32LE(tag)
    ensures OpensTo(ShortFirst(word, second), FoundOf(OneSpan(56, 88)[0]))
    ensures Layout(ShortFirst(word, second), 56) == Some(l)
    ensures |l.offsets| == 3 && l.offsets[1] == l.offsets[0] + 8 && l.offsets[2] == l.offsets[1] + 16
    ensures MagicAt([ShortFirst(word, second)], Spot(0, EventStart(56, l, 0), tag))
    ensures MagicAt([ShortFirst(word, second)], Spot(0, EventStart(56, l, 1), tag))
    ensures r == Err(BadEvent(1)) && after == [Tagged(ShortFirst(word, second), 56, l, 0, tag)]
    ensures !MagicAt(after, Spot(0, EventStart(56, l, 1), tag))
  {
    l := RecordLayout(64, [0, 8, 24]);
    var file := ShortFirst(word, second);
    ShortFirstShape(word, second, l);
    hide ShortFirst, Layout, Patch, MagicAt, OpensTo, HasAt;
    MagicOverwritten(file, l, tag);
    r, after := RetagBoth(56, 88, file, l, tag, tag);
  }

  lemma ShortFirstShape(word: seq<byte>, second: seq<byte>, l: RecordLayout)
    requires |word| == 4 && |second| == 16 && l == RecordLayout(64, [0, 8, 24]) && second[..4] == EVENT_MAGIC
    ensures OpensTo(ShortFirst(word, second), FoundOf(OneSpan(56, 88)[0]))
    ensures Layout(ShortFirst(word, second), 56) == Some(l) && |ShortFirst(word, second)| == 144
    ensures HasAt(ShortFirst(word, second), 120, EVENT_MAGIC) && HasAt(ShortFirst(word, second), 128, EVENT_MAGIC)
  {
    var data := EVENT_MAGIC + word + second;
    MagicAfterEight(word, second);
    hide TwoEvents, Layout, OpensTo, OneSpan, FoundOf, HasAt;
    TwoEventsOpen(22, 8, 16, data);
    TwoEventsLayout(22, 8, 16, data);
    DataHas(22, 8, 16, data, 0, EVENT_MAGIC);
    DataHas(22, 8, 16, data, 8, EVENT_MAGIC);
  }

  lemma MagicAfterEight(word: seq<byte>, second: seq<byte>)
    requires |word| == 4 && |second| >= 4 && second[..4] == EVENT_MAGIC
    ensures HasAt(EVENT_MAGIC + word + second, 0, EVENT_MAGIC) && HasAt(EVENT_MAGIC + word + second, 8, EVENT_MAGIC)
  {
    assert (EVENT_MAGIC + word + second)[8..12] == second[..4];
  }

  lemma MagicOverwritten(file: seq<byte>, l: RecordLayout, tag: u32)
    requires |file| == 144 && HasAt(file, 120, EVENT_MAGIC) && HasAt(file, 128, EVENT_MAGIC)
    requires U32LE(tag) != EVENT_MAGIC
    requires Layout(file, 56) == Some(l) && |l.offsets| == 3 && EventStart(56, l, 0) == 120
    ensures MagicAt([file], Spot(0, 120, tag)) && MagicAt([file], Spot(0, 128, tag))
    ensures Patch([file], Spot(0, 120, tag)) == [Tagged(file, 56, l, 0, tag)]
    ensures !MagicAt([Tagged(file, 56, l, 0, tag)], Spot(0, 128, tag))
  {
    var now := Tagged(file, 56, l, 0, tag);
    assert now == WriteAt(file, 128, U32LE(tag));
    hide Layout, U32LE;
    TaggedIsPatch([file], 0, 56, l, 0, tag);
    hide Patch, Tagged;
    assert [file][0 := now] == [now];
    assert now[128..132] == U32LE(tag);
  }
}
