/** A batch of tag updates over a whole chain: every event of every file against the updates that
    name it by its number (`set_event_tags`, src/read/chain.rs). */
module ChainRetags {
  import opened Bytes
  import opened Events
  import opened EventIndexes
  import opened ChainIndexes
  import opened TagPatches
  import opened TagRereads

  /** The span lies in the file; if the record there can be patched, the events the index counts lie
      in it. They may be of any length, and the record may list more. */
  ghost predicate Sits(file: seq<byte>, span: RecordSpan)
  {
    && span.fileOffset + span.recordLength <= |file|
    && var l := Layout(file, span.fileOffset);
    l.Some? ==> RecordFits(file, span.fileOffset, span.recordLength, l.value, span.eventCount)
  }

  ghost predicate SpansApart(spans: seq<RecordSpan>)
  {
    forall i, j :: 0 <= i < j < |spans| ==> spans[i].fileOffset + spans[i].recordLength <= spans[j].fileOffset
  }

  /** The index describes the files. */
  ghost predicate OnDisk(spans: Spans, files: Files)
  {
    && IndexesOk(spans) && |files| == |spans|
    && (forall fi :: 0 <= fi < |spans| ==> SpansApart(spans[fi]))
    && forall t: (nat, nat) :: IsRecord(spans, t) ==> Sits(files[t.0], spans[t.0][t.1])
  }

  function SpanAt(spans: Spans, t: (nat, nat)): RecordSpan
    requires IsRecord(spans, t)
  {
    spans[t.0][t.1]
  }

  /** The tag the last of the updates naming event `g` gives it. */
  function LastUpdate(updates: seq<(nat, u32)>, g: nat): Option<u32>
  {
    if updates == [] then None
    else
      var u := updates[|updates| - 1];
      if u.0 == g then Some(u.1) else LastUpdate(updates[..|updates| - 1], g)
  }

  /** If event `g` can be patched it is long enough for its own tag. */
  ghost predicate Roomy(spans: Spans, files: Files, g: nat)
  {
    forall t: (nat, nat), e: nat :: IsAt(spans, g, t, e) ==>
      t.0 < |files| && (Layout(files[t.0], SpanAt(spans, t).fileOffset).Some? ==>
                          Room(Layout(files[t.0], SpanAt(spans, t).fileOffset).value, e))
  }

  ghost predicate AllRoomy(spans: Spans, files: Files, updates: seq<(nat, u32)>)
  {
    forall k :: 0 <= k < |updates| ==> Roomy(spans, files, updates[k].0)
  }

  /** `spot` is the start of event `e` of record `t`, and there is room for a tag. */
  ghost predicate SpotAt(spans: Spans, files: Files, spot: Spot, t: (nat, nat), e: nat)
    requires OnDisk(spans, files)
  {
    && IsRecord(spans, t) && Layout(files[t.0], SpanAt(spans, t).fileOffset).Some?
    && var l := Layout(files[t.0], SpanAt(spans, t).fileOffset).value;
    e < SpanAt(spans, t).eventCount && Room(l, e) && spot.file == t.0 && spot.start == EventStart(SpanAt(spans, t).fileOffset, l, e)
  }

  /** An update's write goes to the event the update names. */
  lemma PlacedIsSpot(spans: Spans, files: Files, update: (nat, u32), spot: Spot) returns (t: (nat, nat), e: nat)
    requires OnDisk(spans, files) && Places(spans, files, update, spot) && Roomy(spans, files, update.0)
    ensures IsAt(spans, update.0, t, e) && SpotAt(spans, files, spot, t, e) && spot.tag == update.1
  {
    hide Layout, Start, IndexesOk, RecordFits, SpansApart;
    var target :| Targets(spans, update.0, update.1, target) && target.file < |files| && SpotOf(files, target) == Some(spot);
    var rec: (nat, nat), i: nat :| IsAt(spans, update.0, rec, i) && target == Target(rec.0, spans[rec.0][rec.1].fileOffset, i, update.1);
    t, e := rec, i;
    assert Sits(files[t.0], spans[t.0][t.1]);
  }

  /** The tag bytes of a named event, and those before them, are inside its record. */
  lemma SpotInside(spans: Spans, files: Files, spot: Spot, t: (nat, nat), e: nat)
    requires OnDisk(spans, files) && SpotAt(spans, files, spot, t, e)
    ensures SpanAt(spans, t).fileOffset <= spot.start
    ensures spot.start + EH_RESERVED <= SpanAt(spans, t).fileOffset + SpanAt(spans, t).recordLength <= |files[t.0]|
  {
    hide Layout, IndexesOk, SpansApart;
    var span := SpanAt(spans, t);
    assert Sits(files[t.0], span);
    EventInside(files[t.0], span.fileOffset, span.recordLength, Layout(files[t.0], span.fileOffset).value,
      span.eventCount, e);
  }

  lemma RecordsApart(spans: Spans, files: Files, t: (nat, nat), u: (nat, nat))
    requires OnDisk(spans, files) && IsRecord(spans, t) && IsRecord(spans, u) && t.0 == u.0 && t != u
    ensures
      var a, b := SpanAt(spans, t), SpanAt(spans, u);
      a.fileOffset + a.recordLength <= b.fileOffset || b.fileOffset + b.recordLength <= a.fileOffset
  {
    hide IndexesOk, Sits;
    assert SpansApart(spans[t.0]);
  }

  /** Writes aimed at one record stay out of every other. */
  lemma SpotOutside(spans: Spans, files: Files, spot: Spot, t: (nat, nat), e: nat, u: (nat, nat))
    requires OnDisk(spans, files) && SpotAt(spans, files, spot, t, e) && IsRecord(spans, u) && u != t
    requires spot.file == u.0
    ensures
      var span := SpanAt(spans, u);
      spot.start + EH_RESERVED <= span.fileOffset || span.fileOffset + span.recordLength <= spot.start
  {
    SpotInside(spans, files, spot, t, e);
    RecordsApart(spans, files, t, u);
  }

  lemma SameRecordApart(file: seq<byte>, off: nat, l: RecordLayout, e: nat, d: nat)
    requires Layout(file, off) == Some(l) && Room(l, e) && Room(l, d) && e < d
    ensures EventStart(off, l, e) + EH_RESERVED <= EventStart(off, l, d)
  {
    hide Layout;
    LayoutRises(file, off, l, e + 1, d);
  }

  /** Different events with room for a tag start at least twelve bytes apart. */
  lemma EventsApart(spans: Spans, files: Files, spot: Spot, other: Spot, t: (nat, nat), e: nat, u: (nat, nat), d: nat)
    requires OnDisk(spans, files) && SpotAt(spans, files, spot, t, e) && SpotAt(spans, files, other, u, d)
    requires spot.file == other.file && (t != u || e != d)
    ensures spot.start + EH_RESERVED <= other.start || other.start + EH_RESERVED <= spot.start
  {
    hide OnDisk, Layout, EventStart, Room;
    if t != u {
      SpotInside(spans, files, spot, t, e);
      SpotInside(spans, files, other, u, d);
      SpotFile(spans, files, other, u, d);
      SpotOutside(spans, files, spot, t, e, u);
    } else {
      SpotFile(spans, files, spot, t, e);
      FileThere(spans, files, t);
      var l := Layout(files[t.0], SpanAt(spans, t).fileOffset).value;
      if e < d {
        SameRecordApart(files[t.0], SpanAt(spans, t).fileOffset, l, e, d);
      } else {
        SameRecordApart(files[t.0], SpanAt(spans, t).fileOffset, l, d, e);
      }
    }
  }

  /** Two named events start at the same place only when they are the same event. */
  lemma SameSpotSameEvent(spans: Spans, files: Files, spot: Spot, other: Spot, t: (nat, nat), e: nat, u: (nat, nat),
      d: nat)
    requires OnDisk(spans, files) && SpotAt(spans, files, spot, t, e) && SpotAt(spans, files, other, u, d)
    ensures spot.file == other.file && spot.start == other.start <==> t == u && e == d
  {
    hide OnDisk, Layout, EventStart, Room;
    if spot.file == other.file && (t != u || e != d) {
      EventsApart(spans, files, spot, other, t, e, u, d);
    }
  }

  ghost predicate AllPlaced(spans: Spans, files: Files, updates: seq<(nat, u32)>, spots: seq<Spot>)
  {
    && |spots| == |updates| && AllRoomy(spans, files, updates)
    && forall k :: 0 <= k < |updates| ==> Places(spans, files, updates[k], spots[k])
  }

  /** The last write to an event's tag is the last update of its number. */
  lemma {:induction false} LastWriteIsLastUpdate(spans: Spans, files: Files, updates: seq<(nat, u32)>,
      spots: seq<Spot>, g: nat, own: Spot,
    t: (nat, nat), e: nat)
    requires OnDisk(spans, files) && AllPlaced(spans, files, updates, spots)
    requires IsAt(spans, g, t, e) && SpotAt(spans, files, own, t, e)
    ensures LastTag(spots, t.0, own.start) == LastUpdate(updates, g)
    decreases |updates|
  {
    hide OnDisk, SpotAt, Places, Start;
    if updates != [] {
      var n := |updates| - 1;
      LastWriteIsLastUpdate(spans, files, updates[..n], spots[..n], g, own, t, e);
      var u, d := PlacedIsSpot(spans, files, updates[n], spots[n]);
      SameSpotSameEvent(spans, files, spots[n], own, u, d, t, e);
      SpotFile(spans, files, own, t, e);
      NumberDecides(spans, files, updates[n].0, u, d, g, t, e);
    }
  }

  lemma SpotFile(spans: Spans, files: Files, spot: Spot, t: (nat, nat), e: nat)
    requires OnDisk(spans, files) && SpotAt(spans, files, spot, t, e)
    ensures IsRecord(spans, t) && spot.file == t.0
  {
  }

  lemma NumberDecides(spans: Spans, files: Files, a: nat, t: (nat, nat), e: nat, b: nat, u: (nat, nat), d: nat)
    requires OnDisk(spans, files) && IsAt(spans, a, t, e) && IsAt(spans, b, u, d)
    ensures a == b <==> t == u && e == d
  {
    if a == b {
      OneRecord(spans, a, t, e, u, d);
    }
  }

  /** Event `e` of a patchable record is what it was, with its last new tag if some update names it. */
  ghost predicate EventIsUpdated(spans: Spans, files: Files, after: Files, updates: seq<(nat, u32)>, t: (nat, nat),
      e: nat)
    requires IsRecord(spans, t) && t.0 < |files| == |after|
  {
    var span := SpanAt(spans, t);
    var l := Layout(files[t.0], span.fileOffset);
    && l.Some? && e + 1 < |l.value.offsets|
    && EventStart(span.fileOffset, l.value, e) <= EventStart(span.fileOffset, l.value, e + 1) <= |files[t.0]|
    && |after[t.0]| == |files[t.0]|
    && var was, now := EventAt(files[t.0], span.fileOffset, l.value, e),
        EventAt(after[t.0], span.fileOffset, l.value, e);
    match LastUpdate(updates, Start(spans, t) + e)
    case None => now == was
    case Some(x) => |was| >= EH_RESERVED && now == Retagged(was, x)
  }

  /** A patchable record keeps its layout and its events, retagged; any other keeps its bytes. */
  ghost predicate RecordIsUpdated(spans: Spans, files: Files, after: Files, updates: seq<(nat, u32)>, t: (nat, nat))
    requires IsRecord(spans, t)
  {
    && t.0 < |files| == |after|
    && if Layout(files[t.0], SpanAt(spans, t).fileOffset).Some? then RecordIsRetagged(spans, files, after, updates, t)
       else RecordIsUntouched(files[t.0], after[t.0], SpanAt(spans, t))
  }

  ghost predicate RecordIsRetagged(spans: Spans, files: Files, after: Files, updates: seq<(nat, u32)>, t: (nat, nat))
    requires IsRecord(spans, t) && t.0 < |files| == |after|
  {
    && Layout(after[t.0], SpanAt(spans, t).fileOffset) == Layout(files[t.0], SpanAt(spans, t).fileOffset)
    && forall e :: 0 <= e < SpanAt(spans, t).eventCount ==> EventIsUpdated(spans, files, after, updates, t, e)
  }

  predicate RecordIsUntouched(was: seq<byte>, now: seq<byte>, span: RecordSpan)
  {
    && span.fileOffset + span.recordLength <= |was| == |now|
    && now[span.fileOffset..span.fileOffset + span.recordLength] == was[span.fileOffset..span.fileOffset + span.recordLength]
  }

  lemma AllInBounds(spans: Spans, files: Files, updates: seq<(nat, u32)>, spots: seq<Spot>)
    requires OnDisk(spans, files) && AllPlaced(spans, files, updates, spots)
    ensures InBounds(files, spots)
  {
    hide OnDisk, SpotAt, Places, Start;
    forall k | 0 <= k < |spots|
      ensures Inside(files, spots[k]) && spots[k].start + EH_RESERVED <= |files[spots[k].file]|
    {
      var t, e := PlacedIsSpot(spans, files, updates[k], spots[k]);
      SpotInside(spans, files, spots[k], t, e);
      SpotFile(spans, files, spots[k], t, e);
      FileThere(spans, files, t);
    }
  }

  lemma FileThere(spans: Spans, files: Files, t: (nat, nat))
    requires OnDisk(spans, files) && IsRecord(spans, t)
    ensures t.0 < |files| == |spans| && Sits(files[t.0], SpanAt(spans, t))
  {
  }

  /** Every write is aimed, as seen from any record that can be patched. */
  lemma AllAimed(spans: Spans, files: Files, updates: seq<(nat, u32)>, spots: seq<Spot>, u: (nat, nat), l: RecordLayout)
    requires OnDisk(spans, files) && AllPlaced(spans, files, updates, spots) && IsRecord(spans, u)
    requires Layout(files[u.0], SpanAt(spans, u).fileOffset) == Some(l)
    ensures forall k :: 0 <= k < |spots| ==>
      Aimed(spots[k], u.0, SpanAt(spans, u).fileOffset, SpanAt(spans, u).recordLength, l, SpanAt(spans, u).eventCount)
  {
    hide OnDisk, Places, Start, Layout;
    forall k | 0 <= k < |spots|
      ensures Aimed(spots[k], u.0, SpanAt(spans, u).fileOffset, SpanAt(spans, u).recordLength, l,
        SpanAt(spans, u).eventCount)
    {
      var t, e := PlacedIsSpot(spans, files, updates[k], spots[k]);
      if spots[k].file == u.0 && t != u {
        SpotOutside(spans, files, spots[k], t, e, u);
      }
    }
  }

  /** After a batch, every event of every record that can be patched reads as before, but for the
      tag of its last update; and every other record is the same bytes. */
  lemma BatchReadsBack(spans: Spans, files: Files, updates: seq<(nat, u32)>, spots: seq<Spot>, t: (nat, nat))
    requires OnDisk(spans, files) && AllPlaced(spans, files, updates, spots) && IsRecord(spans, t)
    ensures InBounds(files, spots)
    ensures RecordIsUpdated(spans, files, PatchAll(files, spots), updates, t)
  {
    AllInBounds(spans, files, updates, spots);
    FileThere(spans, files, t);
    hide OnDisk, Layout, PatchAll, AllPlaced, InBounds, RecordIsRetagged, RecordIsUntouched;
    if Layout(files[t.0], SpanAt(spans, t).fileOffset).Some? {
      PatchedRecord(spans, files, updates, spots, t);
    } else {
      UntouchedRecord(spans, files, updates, spots, t);
    }
  }

  lemma PatchedRecord(spans: Spans, files: Files, updates: seq<(nat, u32)>, spots: seq<Spot>, t: (nat, nat))
    requires OnDisk(spans, files) && AllPlaced(spans, files, updates, spots) && IsRecord(spans, t)
    requires InBounds(files, spots)
    requires t.0 < |files| && Layout(files[t.0], SpanAt(spans, t).fileOffset).Some?
    ensures RecordIsRetagged(spans, files, PatchAll(files, spots), updates, t)
  {
    FileThere(spans, files, t);
    var span := SpanAt(spans, t);
    var l := Layout(files[t.0], span.fileOffset).value;
    AllAimed(spans, files, updates, spots, t, l);
    RecordReadsBack(files, spots, t.0, span.fileOffset, span.recordLength, l, span.eventCount);
    hide OnDisk, Layout, PatchAll, AllPlaced, RecordFits, EventIsUpdated, EventReads, Aimed, InBounds;
    forall e | 0 <= e < span.eventCount
      ensures EventIsUpdated(spans, files, PatchAll(files, spots), updates, t, e)
    {
      PatchedEvent(spans, files, updates, spots, t, e, l);
    }
  }

  lemma PatchedEvent(spans: Spans, files: Files, updates: seq<(nat, u32)>, spots: seq<Spot>, t: (nat, nat), e: nat,
      l: RecordLayout)
    requires OnDisk(spans, files) && AllPlaced(spans, files, updates, spots) && IsRecord(spans, t)
    requires InBounds(files, spots)
    requires t.0 < |files| && Layout(files[t.0], SpanAt(spans, t).fileOffset) == Some(l)
    requires e < SpanAt(spans, t).eventCount
    requires e + 1 < |l.offsets| && EventReads(files, spots, t.0, SpanAt(spans, t).fileOffset, l, e)
    ensures EventIsUpdated(spans, files, PatchAll(files, spots), updates, t, e)
  {
    hide OnDisk, Layout, PatchAll, AllPlaced, Start, LastTag, LastUpdate, InBounds, EventAt, Retagged, EventStart,
         Room, SpanAt;
    SameLength(files, spots, t.0);
    EventOfRecord(spans, files, t, e, l);
    LastTagIsUpdate(spans, files, updates, spots, t, e, l);
    InsideAll(files, spots);
    if Room(l, e) {
      RoomMeans(files[t.0], l, e, SpanAt(spans, t).fileOffset);
    }
  }

  /** What the writes leave of the event's tag, by the updates of its number; none names an event
      without room. */
  lemma LastTagIsUpdate(spans: Spans, files: Files, updates: seq<(nat, u32)>, spots: seq<Spot>, t: (nat, nat), e: nat,
      l: RecordLayout)
    requires OnDisk(spans, files) && AllPlaced(spans, files, updates, spots) && IsRecord(spans, t)
    requires t.0 < |files| && Layout(files[t.0], SpanAt(spans, t).fileOffset) == Some(l)
    requires e < SpanAt(spans, t).eventCount
    requires e + 1 < |l.offsets|
    ensures Room(l, e) ==>
      LastTag(spots, t.0, EventStart(SpanAt(spans, t).fileOffset, l, e)) == LastUpdate(updates, Start(spans, t) + e)
    ensures !Room(l, e) ==> LastUpdate(updates, Start(spans, t) + e) == None
  {
    EventOfRecord(spans, files, t, e, l);
    hide OnDisk, Layout, Places, Start, LastTag, LastUpdate, SpotAt, EventStart, Room, AllRoomy;
    if Room(l, e) {
      var own := OwnSpot(spans, files, t, e, l);
      LastWriteIsLastUpdate(spans, files, updates, spots, Start(spans, t) + e, own, t, e);
    } else {
      NoRoomNoUpdate(spans, files, updates, t, e, l);
    }
  }

  lemma RoomMeans(file: seq<byte>, l: RecordLayout, e: nat, off: nat)
    requires Room(l, e) && EventStart(off, l, e) <= EventStart(off, l, e + 1) <= |file|
    ensures |EventAt(file, off, l, e)| >= EH_RESERVED
  {
  }

  lemma EventOfRecord(spans: Spans, files: Files, t: (nat, nat), e: nat, l: RecordLayout)
    requires OnDisk(spans, files) && IsRecord(spans, t) && e < SpanAt(spans, t).eventCount && t.0 < |files|
    requires Layout(files[t.0], SpanAt(spans, t).fileOffset) == Some(l)
    ensures e + 1 < |l.offsets| && IsAt(spans, Start(spans, t) + e, t, e)
    ensures EventStart(SpanAt(spans, t).fileOffset, l, e) <= EventStart(SpanAt(spans, t).fileOffset, l, e + 1) <= |files[t.0]|
  {
    hide Layout, IndexesOk, SpansApart, Start;
    FileThere(spans, files, t);
    var span := SpanAt(spans, t);
    EventInside(files[t.0], span.fileOffset, span.recordLength, l, span.eventCount, e);
  }

  lemma OwnSpot(spans: Spans, files: Files, t: (nat, nat), e: nat, l: RecordLayout) returns (own: Spot)
    requires OnDisk(spans, files) && IsRecord(spans, t) && e < SpanAt(spans, t).eventCount && t.0 < |files|
    requires Layout(files[t.0], SpanAt(spans, t).fileOffset) == Some(l) && Room(l, e)
    ensures SpotAt(spans, files, own, t, e) && own.start == EventStart(SpanAt(spans, t).fileOffset, l, e)
  {
    hide Layout, IndexesOk, SpansApart, Start;
    own := Spot(t.0, EventStart(SpanAt(spans, t).fileOffset, l, e), 0);
  }

  /** No update names an event that is too short for a tag. */
  lemma {:induction false} NoRoomNoUpdate(spans: Spans, files: Files, updates: seq<(nat, u32)>, t: (nat, nat), e: nat,
      l: RecordLayout)
    requires IsRecord(spans, t) && IsAt(spans, Start(spans, t) + e, t, e) && AllRoomy(spans, files, updates) && t.0 < |files|
    requires Layout(files[t.0], SpanAt(spans, t).fileOffset) == Some(l) && !Room(l, e)
    ensures LastUpdate(updates, Start(spans, t) + e) == None
    decreases |updates|
  {
    hide Layout, Start, Room;
    if updates != [] {
      var n := |updates| - 1;
      assert Roomy(spans, files, updates[n].0);
      NoRoomNoUpdate(spans, files, updates[..n], t, e, l);
    }
  }

  lemma UntouchedRecord(spans: Spans, files: Files, updates: seq<(nat, u32)>, spots: seq<Spot>, u: (nat, nat))
    requires OnDisk(spans, files) && AllPlaced(spans, files, updates, spots) && IsRecord(spans, u)
    requires InBounds(files, spots)
    requires u.0 < |files| && Layout(files[u.0], SpanAt(spans, u).fileOffset).None?
    ensures RecordIsUntouched(files[u.0], PatchAll(files, spots)[u.0], SpanAt(spans, u))
  {
    hide OnDisk, Layout, PatchAll, AllPlaced, InBounds, Sits;
    FileThere(spans, files, u);
    SitsInside(files[u.0], SpanAt(spans, u));
    InsideAll(files, spots);
    SameLength(files, spots, u.0);
    var span, was, now := SpanAt(spans, u), files[u.0], PatchAll(files, spots)[u.0];
    forall x: nat | span.fileOffset <= x < span.fileOffset + span.recordLength
      ensures now[x] == was[x]
    {
      UntouchedByte(spans, files, updates, spots, u, x);
    }
    SameSlice(was, now, span.fileOffset, span.fileOffset + span.recordLength);
  }

  lemma SitsInside(file: seq<byte>, span: RecordSpan)
    requires Sits(file, span)
    ensures span.fileOffset + span.recordLength <= |file|
  {
  }

  lemma InsideAll(files: Files, spots: seq<Spot>)
    requires InBounds(files, spots)
    ensures forall k :: 0 <= k < |spots| ==> Inside(files, spots[k])
  {
  }

  lemma SameLength(files: Files, spots: seq<Spot>, f: nat)
    requires InBounds(files, spots) && f < |files|
    ensures |PatchAll(files, spots)[f]| == |files[f]|
  {
    OnlyTagBytesChange(files, spots, f);
  }

  lemma UntouchedByte(spans: Spans, files: Files, updates: seq<(nat, u32)>, spots: seq<Spot>, u: (nat, nat), x: nat)
    requires OnDisk(spans, files) && AllPlaced(spans, files, updates, spots) && IsRecord(spans, u)
    requires InBounds(files, spots)
    requires u.0 < |files| && Layout(files[u.0], SpanAt(spans, u).fileOffset).None?
    requires SpanAt(spans, u).fileOffset <= x < SpanAt(spans, u).fileOffset + SpanAt(spans, u).recordLength <= |files[u.0]|
    ensures |PatchAll(files, spots)[u.0]| == |files[u.0]| && PatchAll(files, spots)[u.0][x] == files[u.0][x]
  {
    hide OnDisk, Layout, PatchAll, Places, InBounds, Covers;
    forall k | 0 <= k < |spots|
      ensures !Covers(spots[k], u.0, x)
    {
      MissesRecord(spans, files, updates[k], spots[k], u, x);
    }
    OnlyTagBytesChange(files, spots, u.0);
  }

  lemma MissesRecord(spans: Spans, files: Files, update: (nat, u32), spot: Spot, u: (nat, nat), x: nat)
    requires OnDisk(spans, files) && Places(spans, files, update, spot) && Roomy(spans, files, update.0)
    requires IsRecord(spans, u) && u.0 < |files|
    requires Layout(files[u.0], SpanAt(spans, u).fileOffset).None?
    requires SpanAt(spans, u).fileOffset <= x < SpanAt(spans, u).fileOffset + SpanAt(spans, u).recordLength
    ensures !Covers(spot, u.0, x)
  {
    hide OnDisk, Layout, Places, Start;
    var t, e := PlacedIsSpot(spans, files, update, spot);
    if spot.file == u.0 {
      SpotOutside(spans, files, spot, t, e, u);
    }
  }

  // ---- When a batch goes through ----------------------------------------------------

  /** The update's event starts with its magic. */
  ghost predicate HasMagic(spans: Spans, files: Files, update: (nat, u32))
  {
    exists spot :: Places(spans, files, update, spot) && MagicAt(files, spot)
  }

  /** Update `j` is the first whose event lacks its magic. */
  ghost predicate FirstWithoutMagic(spans: Spans, files: Files, updates: seq<(nat, u32)>, j: nat)
  {
    j < |updates| && !HasMagic(spans, files, updates[j]) && forall i :: 0 <= i < j ==>
      HasMagic(spans, files, updates[i])
  }

  lemma WriteSparesMagic(spans: Spans, files: Files, update: (nat, u32), done: Spot, spot: Spot, t: (nat, nat), e: nat,
      x: nat)
    requires OnDisk(spans, files) && Places(spans, files, update, done) && Roomy(spans, files, update.0)
    requires SpotAt(spans, files, spot, t, e)
    requires spot.start <= x < spot.start + 4
    ensures !Covers(done, spot.file, x)
  {
    hide OnDisk, SpotAt, Places;
    var u, d := PlacedIsSpot(spans, files, update, done);
    if done.file == spot.file && done.start != spot.start {
      SameSpotSameEvent(spans, files, done, spot, u, d, t, e);
      EventsApart(spans, files, done, spot, u, d, t, e);
    }
  }

  /** No tag write reaches the magic of any event. */
  lemma MagicSurvives(spans: Spans, files: Files, updates: seq<(nat, u32)>, spots: seq<Spot>, spot: Spot,
      t: (nat, nat), e: nat)
    requires OnDisk(spans, files) && AllPlaced(spans, files, updates, spots) && SpotAt(spans, files, spot, t, e)
    ensures InBounds(files, spots)
    ensures MagicAt(PatchAll(files, spots), spot) <==> MagicAt(files, spot)
  {
    hide OnDisk, SpotAt, AllPlaced, PatchAll, InBounds, Sits;
    AllInBounds(spans, files, updates, spots);
    SpotInside(spans, files, spot, t, e);
    SpotFile(spans, files, spot, t, e);
    FileThere(spans, files, t);
    InsideAll(files, spots);
    SameLength(files, spots, spot.file);
    var was, now := files[spot.file], PatchAll(files, spots)[spot.file];
    forall x: nat | spot.start <= x < spot.start + 4
      ensures now[x] == was[x]
    {
      MagicByteSurvives(spans, files, updates, spots, spot, t, e, x);
    }
    SameSlice(was, now, spot.start, spot.start + 4);
  }

  lemma MagicByteSurvives(spans: Spans, files: Files, updates: seq<(nat, u32)>, spots: seq<Spot>, spot: Spot,
      t: (nat, nat), e: nat, x: nat)
    requires OnDisk(spans, files) && AllPlaced(spans, files, updates, spots) && SpotAt(spans, files, spot, t, e)
    requires InBounds(files, spots)
    requires spot.start <= x < spot.start + 4 && spot.file < |files| && x < |files[spot.file]|
    ensures |PatchAll(files, spots)[spot.file]| == |files[spot.file]|
    ensures PatchAll(files, spots)[spot.file][x] == files[spot.file][x]
  {
    hide OnDisk, SpotAt, Places, PatchAll, Covers, InBounds;
    forall k | 0 <= k < |spots|
      ensures !Covers(spots[k], spot.file, x)
    {
      WriteSparesMagic(spans, files, updates[k], spots[k], spot, t, e, x);
    }
    OnlyTagBytesChange(files, spots, spot.file);
  }

  /** An update that is in range and not refused has exactly one place. */
  lemma PlaceOfTarget(spans: Spans, files: Files, update: (nat, u32), target: Target)
    requires OnDisk(spans, files) && Targets(spans, update.0, update.1, target) && target.file < |files|
    requires !Refused(spans, files, update)
    ensures SpotOf(files, target).Some? && Places(spans, files, update, SpotOf(files, target).value)
    ensures forall spot :: Places(spans, files, update, spot) ==> spot == SpotOf(files, target).value
  {
    hide Layout, Start, IndexesOk, RecordFits, SpansApart, Unfit;
    var rec: (nat, nat), i: nat :| IsAt(spans, update.0, rec, i) && target == Target(rec.0, spans[rec.0][rec.1].fileOffset, i, update.1);
    FileThere(spans, files, rec);
    var span := SpanAt(spans, rec);
    LaidOutUnlessUnfit(files[rec.0], span.fileOffset);
    InFile(files[rec.0], span.fileOffset, span.recordLength, Layout(files[rec.0], span.fileOffset).value,
      span.eventCount);
    forall spot | Places(spans, files, update, spot)
      ensures spot == SpotOf(files, target).value
    {
      var other :| Targets(spans, update.0, update.1, other) && other.file < |files| && SpotOf(files, other) == Some(spot);
      SameTarget(spans, update.0, update.1, target, other);
    }
  }

  /** What barred an update after the earlier writes was missing before them. */
  lemma BarredLacksMagic(spans: Spans, files: Files, updates: seq<(nat, u32)>, spots: seq<Spot>, update: (nat, u32))
    requires OnDisk(spans, files) && AllPlaced(spans, files, updates, spots) && !Refused(spans, files, update)
    requires Roomy(spans, files, update.0)
    requires AllInside(files, spots) && UpdateBarred(spans, files, spots, update)
    ensures !HasMagic(spans, files, update)
  {
    hide OnDisk, Layout, PatchAll, AllPlaced, Places, Refused, SpotOf, Targets, MagicAt;
    var target :| Targets(spans, update.0, update.1, target) && Barred(files, spots, target);
    PlaceOfTarget(spans, files, update, target);
    var spot := SpotOf(files, target).value;
    var t, e := PlacedIsSpot(spans, files, update, spot);
    MagicSurvives(spans, files, updates, spots, spot, t, e);
  }

  lemma AllPlacedPrefix(spans: Spans, files: Files, updates: seq<(nat, u32)>, spots: seq<Spot>, k: nat)
    requires AllPlaced(spans, files, updates, spots) && k <= |spots|
    ensures AllPlaced(spans, files, updates[..k], spots[..k])
  {
    hide Places;
  }

  /** A write that was made found the magic that was there from the start. */
  lemma WrittenHasMagic(spans: Spans, files: Files, updates: seq<(nat, u32)>, spots: seq<Spot>, k: nat)
    requires OnDisk(spans, files) && AllPlaced(spans, files, updates, spots) && AllInside(files, spots)
    requires k < |spots| && MagicLeft(files, spots, k)
    ensures HasMagic(spans, files, updates[k])
  {
    AllPlacedPrefix(spans, files, updates, spots, k);
    hide OnDisk, Layout, PatchAll, Places, MagicAt;
    assert Places(spans, files, updates[k], spots[k]);
    var t, e := PlacedIsSpot(spans, files, updates[k], spots[k]);
    MagicSurvives(spans, files, updates[..k], spots[..k], spots[k], t, e);
  }

  /** Every magic is there, or the first update's is not. */
  ghost predicate NothingHalfDone(spans: Spans, files: Files, updates: seq<(nat, u32)>)
  {
    (forall k :: 0 <= k < |updates| ==> HasMagic(spans, files, updates[k])) || !HasMagic(spans, files, updates[0])
  }

  /** It goes through exactly when every event named has its magic; it stops at the first that lacks
      it, with the updates before it done; and it is all or nothing exactly when none lacks its magic
      or the first update's event does. */
  ghost predicate BatchOutcome(spans: Spans, files: Files, updates: seq<(nat, u32)>, r: Result<nat, PatchError>,
      done: nat)
  {
    && (r.Ok? <==> forall k :: 0 <= k < |updates| ==> HasMagic(spans, files, updates[k]))
    && (forall j: nat :: r == Err(BadEvent(j)) <==> FirstWithoutMagic(spans, files, updates, j))
    && (r.Err? ==> r == Err(BadEvent(done)))
    && (r.Ok? || done == 0 <==> NothingHalfDone(spans, files, updates))
  }

  /** The batch as a whole. What it did is the updates before `done` and nothing else. An index out
      of range or a record that cannot be patched refuses it unchanged; otherwise the magics of the
      events named decide. */
  method Retag(disk: Disk, spans: Spans, offsets: seq<nat>, updates: seq<(nat, u32)>)
    returns (r: Result<nat, PatchError>, ghost done: nat)
    requires OnDisk(spans, disk.files) && (IsOffsets(spans, offsets) || (spans == [] && offsets == []))
    modifies disk
    ensures done <= |updates| && (r.Ok? ==> done == |updates|) && (done == 0 ==> disk.files == old(disk.files))
    ensures AllRoomy(spans, old(disk.files), updates) ==>
      forall t :: IsRecord(spans, t) ==> RecordIsUpdated(spans, old(disk.files), disk.files, updates[..done], t)
    ensures (r.Err? && r.error.OutOfRange?) <==> !AllInRange(spans, updates)
    ensures (r.Err? && r.error.Unpatchable?) <==>
      AllInRange(spans, updates) && AnyRefused(spans, old(disk.files), updates)
    ensures r.Err? && !r.error.BadEvent? ==> disk.files == old(disk.files) && done == 0
    ensures AllInRange(spans, updates) && (exists k :: 0 <= k < |updates| && NamesCompressed(spans, old(disk.files), updates[k])) ==>
      r.Err? && r.error.Unpatchable? && disk.files == old(disk.files)
    ensures AllInRange(spans, updates) && !AnyRefused(spans, old(disk.files), updates) && AllRoomy(spans, old(disk.files), updates) ==>
      BatchOutcome(spans, old(disk.files), updates, r, done)
  {
    ghost var before := disk.files;
    hide OnDisk, Layout, PatchAll, Places, InBounds, RecordIsUpdated, AllInRange, AnyRefused, IsOffsets, IsRecord,
         MagicLeft, UpdateBarred, HasMagic, BatchOutcome, AllRoomy, AllPlaced, NamesCompressed;
    FilesAndSpans(spans, before);
    NothingPatched(before);
    ghost var spots;
    r, spots := disk.SetEventTags(spans, offsets, updates);
    done := |spots|;
    if AllRoomy(spans, before, updates) {
      WritesRead(spans, before, updates, spots);
      if !r.Err? || r.error.BadEvent? {
        Verdict(spans, before, updates, spots, r);
      }
    }
  }

  lemma WritesRead(spans: Spans, files: Files, updates: seq<(nat, u32)>, spots: seq<Spot>)
    requires OnDisk(spans, files) && AllRoomy(spans, files, updates) && |spots| <= |updates| && AllInside(files, spots)
    requires forall k :: 0 <= k < |spots| ==> Places(spans, files, updates[k], spots[k])
    ensures AllPlaced(spans, files, updates[..|spots|], spots)
    ensures forall t :: IsRecord(spans, t) ==>
      RecordIsUpdated(spans, files, PatchAll(files, spots), updates[..|spots|], t)
  {
    hide OnDisk, AllRoomy, Places, PatchAll, RecordIsUpdated, IsRecord;
    RoomyPrefix(spans, files, updates, |spots|);
    forall t | IsRecord(spans, t)
      ensures RecordIsUpdated(spans, files, PatchAll(files, spots), updates[..|spots|], t)
    {
      BatchReadsBack(spans, files, updates[..|spots|], spots, t);
    }
  }

  lemma RoomyPrefix(spans: Spans, files: Files, updates: seq<(nat, u32)>, k: nat)
    requires AllRoomy(spans, files, updates) && k <= |updates|
    ensures AllRoomy(spans, files, updates[..k])
  {
    hide Roomy;
  }

  /** How far the writes got tells which events have their magic. */
  lemma Verdict(spans: Spans, files: Files, updates: seq<(nat, u32)>, spots: seq<Spot>, r: Result<nat, PatchError>)
    requires OnDisk(spans, files) && |spots| <= |updates| && AllPlaced(spans, files, updates[..|spots|], spots)
    requires AllInside(files, spots)
    requires forall k :: 0 <= k < |spots| ==> MagicLeft(files, spots, k)
    requires r.Ok? ==> |spots| == |updates|
    requires r.Err? ==>
      r == Err(BadEvent(|spots|)) && |spots| < |updates| && UpdateBarred(spans, files, spots, updates[|spots|])
    requires !AnyRefused(spans, files, updates) && AllRoomy(spans, files, updates)
    ensures BatchOutcome(spans, files, updates, r, |spots|)
  {
    var n := |spots|;
    hide OnDisk, HasMagic, UpdateBarred, MagicLeft, AllPlaced, Refused, AllInside;
    forall k | 0 <= k < n
      ensures HasMagic(spans, files, updates[k])
    {
      WrittenHasMagic(spans, files, updates[..n], spots, k);
    }
    if r.Err? {
      BarredLacksMagic(spans, files, updates[..n], spots, updates[n]);
    }
  }

  lemma FilesAndSpans(spans: Spans, files: Files)
    requires OnDisk(spans, files)
    ensures IndexesOk(spans) && |files| == |spans|
  {
  }
}
