/** What readers find after tags were rewritten in place: the same records, the same events, only
    the targeted tags replaced (src/read/chain.rs). */
module TagRereads {
  import opened Bytes
  import opened Events
  import opened RecordScanning
  import opened BlobRecords
  import opened TagPatches

  predicate Covers(s: Spot, f: nat, x: nat)
  {
    s.file == f && s.start + EH_TAG <= x < s.start + EH_RESERVED
  }

  /** Every write lies inside its file. */
  predicate InBounds(files: Files, spots: seq<Spot>)
  {
    forall k :: 0 <= k < |spots| ==> Inside(files, spots[k]) && spots[k].start + EH_RESERVED <= |files[spots[k].file]|
  }

  /** The tag the last update of the event leaves, if it has any. */
  function LastTag(spots: seq<Spot>, f: nat, start: nat): (r: Option<u32>)
  {
    if spots == [] then None
    else
      var s := spots[|spots| - 1];
      if s.file == f && s.start == start then Some(s.tag) else LastTag(spots[..|spots| - 1], f, start)
  }

  /** No byte outside the four tag bytes of a targeted event changes, and no file changes length. */
  lemma {:induction false} OnlyTagBytesChange(files: Files, spots: seq<Spot>, f: nat)
    requires InBounds(files, spots) && f < |files|
    ensures |PatchAll(files, spots)[f]| == |files[f]|
    ensures forall x: nat :: x < |files[f]| && (forall k :: 0 <= k < |spots| ==> !Covers(spots[k], f, x)) ==>
      PatchAll(files, spots)[f][x] == files[f][x]
  {
    if spots != [] {
      var n := |spots| - 1;
      assert InBounds(files, spots[..n]) by { InBoundsPrefix(files, spots); }
      OnlyTagBytesChange(files, spots[..n], f);
      hide U32LE;
      forall x: nat | x < |files[f]| && (forall k :: 0 <= k < |spots| ==> !Covers(spots[k], f, x))
        ensures PatchAll(files, spots)[f][x] == files[f][x]
      {
        assert forall k :: 0 <= k < n ==> !Covers(spots[..n][k], f, x);
        assert !Covers(spots[n], f, x);
      }
      if spots[n].file == f {
        assert |PatchAll(files, spots[..n])[f]| == |files[f]|;
      }
    }
  }

  lemma InBoundsPrefix(files: Files, spots: seq<Spot>)
    requires InBounds(files, spots) && spots != []
    ensures InBounds(files, spots[..|spots| - 1])
  {
  }

  /** Another event's tag bytes do not meet this one's. */
  predicate ApartFrom(s: Spot, f: nat, start: nat)
  {
    s.file != f || s.start == start || s.start + 4 <= start || start + 4 <= s.start
  }

  /** The tag bytes of an event hold its last update, or what they held. */
  lemma {:induction false} LastUpdateWins(files: Files, spots: seq<Spot>, f: nat, start: nat)
    requires InBounds(files, spots) && f < |files| && start + EH_RESERVED <= |files[f]|
    requires forall k :: 0 <= k < |spots| ==> ApartFrom(spots[k], f, start)
    ensures |PatchAll(files, spots)[f]| == |files[f]|
    ensures PatchAll(files, spots)[f][start + EH_TAG..start + EH_RESERVED]
      == match LastTag(spots, f, start) case None => files[f][start + EH_TAG..start + EH_RESERVED] case Some(tag) => U32LE(tag)
  {
    OnlyTagBytesChange(files, spots, f);
    if spots != [] {
      var n := |spots| - 1;
      InBoundsPrefix(files, spots);
      LastUpdateWins(files, spots[..n], f, start);
      OnlyTagBytesChange(files, spots[..n], f);
      assert ApartFrom(spots[n], f, start);
      if spots[n].file == f {
        OneWrite(PatchAll(files, spots[..n])[f], spots[n].start, spots[n].tag, start);
      }
    }
  }

  lemma OneWrite(file: seq<byte>, at: nat, tag: u32, start: nat)
    requires at + EH_RESERVED <= |file| && start + EH_RESERVED <= |file|
    requires at == start || at + 4 <= start || start + 4 <= at
    ensures
      var after := WriteAt(file, at + EH_TAG, U32LE(tag));
      && |after| == |file|
      && after[start + EH_TAG..start + EH_RESERVED] == if at == start then U32LE(tag) else file[start + EH_TAG..start + EH_RESERVED]
  {
    hide U32LE;
  }

  // ---- Whole records ------------------------------------------------------------------

  /** An uncompressed record inside the file, with its first `count` events inside the record. */
  predicate RecordFits(file: seq<byte>, off: nat, length: nat, l: RecordLayout, count: nat)
  {
    && Layout(file, off) == Some(l) && off + length <= |file|
    && ParseAt(file, off).value.headerLength >= RECORD_HEADER_SIZE
    && count < |l.offsets| && l.dataStart + l.offsets[count] <= length
  }

  /** The event is long enough for its own tag. */
  predicate Room(l: RecordLayout, e: nat)
  {
    e + 1 < |l.offsets| && l.offsets[e] + EH_RESERVED <= l.offsets[e + 1]
  }

  function EventStart(off: nat, l: RecordLayout, e: nat): nat
    requires e < |l.offsets|
  {
    off + l.dataStart + l.offsets[e]
  }

  function EventAt(file: seq<byte>, off: nat, l: RecordLayout, e: nat): seq<byte>
    requires e + 1 < |l.offsets| && EventStart(off, l, e) <= EventStart(off, l, e + 1) <= |file|
  {
    file[EventStart(off, l, e)..EventStart(off, l, e + 1)]
  }

  /** The update is of an event of this record with room for it, or of one that lies elsewhere. */
  predicate Aimed(s: Spot, f: nat, off: nat, length: nat, l: RecordLayout, count: nat)
  {
    s.file == f ==>
      s.start + EH_RESERVED <= off || off + length <= s.start
      || exists e :: 0 <= e < count && Room(l, e) && s.start == EventStart(off, l, e)
  }

  /** An event with another tag. */
  function Retagged(ev: seq<byte>, tag: u32): (r: seq<byte>)
    requires |ev| >= EH_RESERVED
    ensures |r| == |ev|
  {
    ev[..EH_TAG] + U32LE(tag) + ev[EH_RESERVED..]
  }

  /** Readers see the new tag and nothing else new; of an event too short for a header they read
      no tag, no size and no structure, before and after. */
  lemma RetaggedReads(ev: seq<byte>, tag: u32)
    requires |ev| >= EH_RESERVED
    ensures EventTag(Retagged(ev, tag)) == if |ev| >= EVENT_HEADER_SIZE then tag else 0
    ensures EventSize(Retagged(ev, tag)) == EventSize(ev)
    ensures Structures(Retagged(ev, tag)) == Structures(ev)
    ensures Retagged(ev, tag)[EH_RESERVED..] == ev[EH_RESERVED..]
  {
    hide Walk, U32LE, ReadU32;
    var r := Retagged(ev, tag);
    if |ev| >= EVENT_HEADER_SIZE {
      assert r[EH_TAG..EH_TAG + 4] == U32LE(tag);
      ReadU32OfWord(tag, r, EH_TAG);
      assert r[EH_SIZE..EH_SIZE + 4] == ev[EH_SIZE..EH_SIZE + 4];
      SameWindowSameWord(r, EH_SIZE, ev, EH_SIZE);
      SameWalk(ev, r, EVENT_HEADER_SIZE, WalkEnd(ev));
    } else {
      WalkShort(ev, EVENT_HEADER_SIZE, 0);
      WalkShort(r, EVENT_HEADER_SIZE, 0);
    }
  }

  lemma SliceOfSlice(s: seq<byte>, lo: nat, hi: nat, i: nat, j: nat)
    requires lo <= hi <= |s| && i <= j <= hi - lo
    ensures s[lo..hi][i..j] == s[lo + i..lo + j]
  {
    var a, b := s[lo..hi][i..j], s[lo + i..lo + j];
    assert |a| == |b|;
    forall k | 0 <= k < |a|
      ensures a[k] == b[k]
    {
      assert s[lo..hi][i + k] == s[lo + i + k];
    }
  }

  lemma SameSlice(a: seq<byte>, b: seq<byte>, lo: nat, hi: nat)
    requires lo <= hi <= |a| == |b| && forall x: nat :: lo <= x < hi ==> b[x] == a[x]
    ensures b[lo..hi] == a[lo..hi]
  {
  }

  /** One step of the walk, as a function of the bytes from `pos` on. */
  lemma WalkStep(buf: seq<byte>, pos: nat, end: nat)
    requires pos + BANK_STRUCTURE_SIZE <= end <= |buf|
    ensures ParseHeader(buf[pos..|buf|]).Some?
    ensures
      var h := ParseHeader(buf[pos..|buf|]).value;
      var next := pos + BANK_STRUCTURE_SIZE + h.size;
      Walk(buf, pos, end)
        == if next > end then [] else [Structure(h, buf[pos + BANK_STRUCTURE_SIZE..next])] + Walk(buf, next, end)
  {
    assert buf[pos..] == buf[pos..|buf|];
  }

  lemma {:induction false} SameWalk(a: seq<byte>, b: seq<byte>, pos: nat, end: nat)
    requires end <= |a| == |b| && forall x: nat :: pos <= x < |a| ==> b[x] == a[x]
    ensures Walk(a, pos, end) == Walk(b, pos, end)
    decreases end - pos
  {
    if pos + BANK_STRUCTURE_SIZE <= end {
      SameSlice(a, b, pos, |a|);
      WalkStep(a, pos, end);
      WalkStep(b, pos, end);
      hide ParseHeader, Walk;
      var next := pos + BANK_STRUCTURE_SIZE + ParseHeader(a[pos..|a|]).value.size;
      if next <= end {
        SameSlice(a, b, pos + BANK_STRUCTURE_SIZE, next);
        SameWalk(a, b, next, end);
      }
    } else {
      NoWalk(a, pos, end);
      NoWalk(b, pos, end);
    }
  }

  lemma NoWalk(buf: seq<byte>, pos: nat, end: nat)
    requires end <= |buf| && end < pos + BANK_STRUCTURE_SIZE
    ensures Walk(buf, pos, end) == []
  {
  }

  /** The event lies in the record, after the record's front. */
  lemma EventInside(file: seq<byte>, off: nat, length: nat, l: RecordLayout, count: nat, e: nat)
    requires RecordFits(file, off, length, l, count) && e < count
    ensures off + l.dataStart <= EventStart(off, l, e) <= EventStart(off, l, e + 1) <= off + length <= |file|
  {
    hide Layout, ParseAt;
    LayoutRises(file, off, l, e, e + 1);
    LayoutRises(file, off, l, e + 1, count);
  }

  /** A write aimed at some event stays out of every other event. */
  lemma AimedStaysInEvent(s: Spot, f: nat, file: seq<byte>, off: nat, length: nat, l: RecordLayout, count: nat, e: nat)
    requires RecordFits(file, off, length, l, count) && Aimed(s, f, off, length, l, count) && e < count
    ensures Room(l, e) ==> ApartFrom(s, f, EventStart(off, l, e))
    ensures forall x: nat :: EventStart(off, l, e) <= x < EventStart(off, l, e + 1) && Covers(s, f, x) ==>
      Room(l, e) && s.start == EventStart(off, l, e)
  {
    EventInside(file, off, length, l, count, e);
    hide Layout, ParseAt;
    if s.file == f {
      if k :| 0 <= k < count && Room(l, k) && s.start == EventStart(off, l, k) {
        if k < e {
          LayoutRises(file, off, l, k + 1, e);
        } else if e < k {
          LayoutRises(file, off, l, e + 1, k);
        }
      }
    }
  }

  lemma AimedSparesFront(s: Spot, f: nat, file: seq<byte>, off: nat, length: nat, l: RecordLayout, count: nat)
    requires RecordFits(file, off, length, l, count) && Aimed(s, f, off, length, l, count)
    ensures forall x: nat :: off <= x < off + l.dataStart ==> !Covers(s, f, x)
  {
    hide Layout, ParseAt;
    FrontInside(file, off, length, l, count);
  }

  lemma FrontInside(file: seq<byte>, off: nat, length: nat, l: RecordLayout, count: nat)
    requires RecordFits(file, off, length, l, count)
    ensures l.dataStart <= length && RECORD_HEADER_SIZE <= l.dataStart
    ensures ParseAt(file, off).Some?
    ensures ParseAt(file, off).value.headerLength + ParseAt(file, off).value.indexArrayLength <= l.dataStart
  {
  }

  /** The layout is read from the record's front alone. */
  lemma SameFrontSameLayout(a: seq<byte>, b: seq<byte>, off: nat, length: nat, l: RecordLayout, count: nat)
    requires RecordFits(a, off, length, l, count) && |b| == |a|
    requires forall x: nat :: off <= x < off + l.dataStart ==> x < |a| && a[x] == b[x]
    ensures Layout(b, off) == Layout(a, off)
  {
    hide ParseRecordHeader, EventOffsets;
    FrontInside(a, off, length, l, count);
    assert a[off..off + RECORD_HEADER_SIZE] == b[off..off + RECORD_HEADER_SIZE];
    var h := ParseAt(a, off).value;
    assert a[off + h.headerLength..off + h.headerLength + h.indexArrayLength]
        == b[off + h.headerLength..off + h.headerLength + h.indexArrayLength];
  }

  /** After the batch the record has the same layout, and each of its events is what it was, with
      its last new tag if it was given one. */
  lemma RecordReadsBack(files: Files, spots: seq<Spot>, f: nat, off: nat, length: nat, l: RecordLayout, count: nat)
    requires InBounds(files, spots) && f < |files| && RecordFits(files[f], off, length, l, count)
    requires forall k :: 0 <= k < |spots| ==> Aimed(spots[k], f, off, length, l, count)
    ensures |PatchAll(files, spots)[f]| == |files[f]| && Layout(PatchAll(files, spots)[f], off) == Some(l)
    ensures forall e :: 0 <= e < count ==> e + 1 < |l.offsets| && EventReads(files, spots, f, off, l, e)
  {
    hide Layout, PatchAll, LastTag, RecordFits, Aimed;
    OnlyTagBytesChange(files, spots, f);
    forall x: nat, k | off <= x < off + l.dataStart && 0 <= k < |spots|
      ensures !Covers(spots[k], f, x)
    {
      AimedSparesFront(spots[k], f, files[f], off, length, l, count);
    }
    FrontInside(files[f], off, length, l, count);
    InFile(files[f], off, length, l, count);
    SameFrontSameLayout(files[f], PatchAll(files, spots)[f], off, length, l, count);
    forall e | 0 <= e < count
      ensures EventReads(files, spots, f, off, l, e)
    {
      EventReadsBack(files, spots, f, off, length, l, count, e);
    }
  }

  lemma InFile(file: seq<byte>, off: nat, length: nat, l: RecordLayout, count: nat)
    requires RecordFits(file, off, length, l, count)
    ensures off + length <= |file| && Layout(file, off) == Some(l) && count < |l.offsets|
  {
  }

  /** The event has its last new tag; one without room for a tag is what it was. */
  predicate EventReads(files: Files, spots: seq<Spot>, f: nat, off: nat, l: RecordLayout, e: nat)
    requires (forall k :: 0 <= k < |spots| ==> Inside(files, spots[k])) && f < |files| && e + 1 < |l.offsets|
  {
    && EventStart(off, l, e) <= EventStart(off, l, e + 1) <= |files[f]|
    && EventStart(off, l, e + 1) <= |PatchAll(files, spots)[f]|
    && var before, after := EventAt(files[f], off, l, e), EventAt(PatchAll(files, spots)[f], off, l, e);
    if !Room(l, e) then after == before
    else after == match LastTag(spots, f, EventStart(off, l, e)) case None => before case Some(tag) => Retagged(before, tag)
  }

  lemma EventReadsBack(files: Files, spots: seq<Spot>, f: nat, off: nat, length: nat, l: RecordLayout, count: nat,
      e: nat)
    requires InBounds(files, spots) && f < |files| && RecordFits(files[f], off, length, l, count) && e < count
    requires forall k :: 0 <= k < |spots| ==> Aimed(spots[k], f, off, length, l, count)
    ensures EventReads(files, spots, f, off, l, e)
  {
    EventInside(files[f], off, length, l, count, e);
    hide Layout, PatchAll, LastTag, Aimed, U32LE, ParseAt, Covers;
    var start, end := EventStart(off, l, e), EventStart(off, l, e + 1);
    forall k | 0 <= k < |spots|
      ensures Room(l, e) ==> ApartFrom(spots[k], f, start)
      ensures forall x: nat :: start <= x < end && Covers(spots[k], f, x) ==> Room(l, e) && spots[k].start == start
    {
      AimedStaysInEvent(spots[k], f, files[f], off, length, l, count, e);
    }
    OnlyTagBytesChange(files, spots, f);
    var was, now := files[f], PatchAll(files, spots)[f];
    if Room(l, e) {
      LastUpdateWins(files, spots, f, start);
      TagBytesCovered(spots, f, start, end);
      PiecesOfEvent(was, now, start, end, LastTag(spots, f, start));
    } else {
      SameSlice(was, now, start, end);
    }
  }

  lemma TagBytesCovered(spots: seq<Spot>, f: nat, start: nat, end: nat)
    requires forall k, x: nat :: 0 <= k < |spots| && start <= x < end && Covers(spots[k], f, x) ==>
      spots[k].start == start
    ensures forall k, x: nat :: 0 <= k < |spots| && start <= x < end && Covers(spots[k], f, x) ==>
      start + EH_TAG <= x < start + EH_RESERVED
  {
  }

  lemma PiecesOfEvent(was: seq<byte>, now: seq<byte>, start: nat, end: nat, tag: Option<u32>)
    requires |was| == |now| && start + EH_RESERVED <= end <= |was|
    requires forall x: nat :: start <= x < end && !(start + EH_TAG <= x < start + EH_RESERVED) ==> now[x] == was[x]
    requires now[start + EH_TAG..start + EH_RESERVED]
      == match tag case None => was[start + EH_TAG..start + EH_RESERVED] case Some(t) => U32LE(t)
    ensures now[start..end] == match tag case None => was[start..end] case Some(t) => Retagged(was[start..end], t)
  {
    hide U32LE;
    var a, b := was[start..end], now[start..end];
    assert b == b[..EH_TAG] + b[EH_TAG..EH_RESERVED] + b[EH_RESERVED..];
    assert a == a[..EH_TAG] + a[EH_TAG..EH_RESERVED] + a[EH_RESERVED..];
    SliceOfSlice(now, start, end, EH_TAG, EH_RESERVED);
    SliceOfSlice(was, start, end, EH_TAG, EH_RESERVED);
    assert b[..EH_TAG] == a[..EH_TAG];
    assert b[EH_RESERVED..] == a[EH_RESERVED..];
  }
}
