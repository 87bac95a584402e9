/** Rewriting tags in a written file gives the file that writing the retagged events would have given
    (`set_event_tags`, src/read/chain.rs). */
module RetaggedFiles {
  import opened Bytes
  import opened Events
  import opened EventIndexes
  import opened ChainIndexes
  import opened RecordScanning
  import opened RecordHeaders
  import opened EventIters
  import opened BlobRecords
  import opened PlainRuns
  import opened WrittenFiles
  import opened TagPatches
  import opened TagRereads

  // ---- One event of a list ------------------------------------------------------------

  function Retag(evs: seq<seq<byte>>, i: nat, tag: u32): (r: seq<seq<byte>>)
    requires i < |evs| && |evs[i]| >= EH_RESERVED
    ensures |r| == |evs|
  {
    evs[i := Retagged(evs[i], tag)]
  }

  /** Replacing an item by one of its length replaces its bytes. */
  lemma FlattenUpdate<T>(ss: seq<seq<T>>, i: nat, x: seq<T>)
    requires i < |ss|
    ensures Flatten(ss) == Flatten(ss[..i]) + ss[i] + Flatten(ss[i + 1..])
    ensures Flatten(ss[i := x]) == Flatten(ss[..i]) + x + Flatten(ss[i + 1..])
  {
    assert ss == ss[..i] + [ss[i]] + ss[i + 1..];
    assert ss[i := x] == ss[..i] + [x] + ss[i + 1..];
    hide Flatten;
    FlattenSnoc(ss[..i], ss[i]);
    FlattenSnoc(ss[..i], x);
    FlattenAppend(ss[..i] + [ss[i]], ss[i + 1..]);
    FlattenAppend(ss[..i] + [x], ss[i + 1..]);
  }

  lemma {:induction false} SameLengthWords(a: seq<seq<byte>>, b: seq<seq<byte>>)
    requires |a| == |b| && forall k :: 0 <= k < |a| ==> |a[k]| == |b[k]|
    ensures LengthWords(a) == LengthWords(b)
  {
    hide LengthWord;
    if a != [] {
      SameLengthWords(a[..|a| - 1], b[..|b| - 1]);
      assert LengthWord(a[|a| - 1]) == LengthWord(b[|b| - 1]) by {
        SameWord(a[|a| - 1], b[|b| - 1]);
      }
    }
  }

  lemma SameWord(a: seq<byte>, b: seq<byte>)
    requires |a| == |b|
    ensures LengthWord(a) == LengthWord(b)
  {
  }

  /** A write inside the middle of three parts. */
  lemma WriteInMiddle(a: seq<byte>, ev: seq<byte>, c: seq<byte>, tag: u32)
    requires |ev| >= EH_RESERVED
    ensures |Retagged(ev, tag)| == |ev|
    ensures WriteAt(a + ev + c, |a| + EH_TAG, U32LE(tag)) == a + Retagged(ev, tag) + c
  {
    hide U32LE;
  }

  /** The tag write for event `i` of a record, as a change of the list of events. */
  lemma PayloadRetagged(before: seq<byte>, header: seq<byte>, evs: seq<seq<byte>>, user: seq<byte>, rest: seq<byte>,
      i: nat,
      tag: u32)
    requires i < |evs| && |evs[i]| >= EH_RESERVED
    ensures
      var start := |before| + |header| + 4 * |evs| + |user| + Starts(evs)[i];
      WriteAt(before + header + Payload(evs, user, rest), start + EH_TAG, U32LE(tag))
        == before + header + Payload(Retag(evs, i, tag), user, rest)
    ensures |Flatten(Retag(evs, i, tag))| == |Flatten(evs)|
  {
    var x := Retagged(evs[i], tag);
    PayloadParts(before, header, evs, user, rest, i, evs[i]);
    PayloadParts(before, header, evs, user, rest, i, x);
    assert evs[i := evs[i]] == evs;
    hide Flatten, LengthWords, U32LE, WriteAt, Payload, Retagged;
    var front, back := before + header + LengthWords(evs) + user + Flatten(evs[..i]), Flatten(evs[i + 1..]) + rest;
    WriteInMiddle(front, evs[i], back, tag);
    SameLengthWords(evs, Retag(evs, i, tag));
    FlattenUpdate(evs, i, x);
  }

  lemma PayloadParts(before: seq<byte>, header: seq<byte>, evs: seq<seq<byte>>, user: seq<byte>, rest: seq<byte>,
      i: nat,
      x: seq<byte>)
    requires i < |evs|
    ensures
      var front := before + header + LengthWords(evs[i := x]) + user + Flatten(evs[..i]);
      && before + header + Payload(evs[i := x], user, rest) == front + x + (Flatten(evs[i + 1..]) + rest)
      && |front| == |before| + |header| + 4 * |evs| + |user| + Starts(evs)[i]
  {
    FlattenUpdate(evs, i, x);
    FlattenLength(evs[..i]);
    assert Lengths(evs[..i]) == Lengths(evs)[..i];
    PayloadSplits(evs[i := x], user, rest);
    hide Flatten, LengthWords, Payload, Sum;
    Regroup(before + header, LengthWords(evs[i := x]), user, Flatten(evs[..i]), x, Flatten(evs[i + 1..]), rest);
  }

  lemma Regroup(a: seq<byte>, b: seq<byte>, c: seq<byte>, d: seq<byte>, e: seq<byte>, f: seq<byte>, g: seq<byte>)
    ensures a + (b + (c + (d + e + f) + g)) == a + b + c + d + e + (f + g)
  {
  }

  // ---- One record of a written file -----------------------------------------------------

  /** Every event is one that a builder finishes: long enough for its tag, and marked. */
  predicate Taggable(evs: seq<seq<byte>>)
  {
    forall i :: 0 <= i < |evs| ==> |evs[i]| >= 12 && evs[i][..4] == [0x45, 0x56, 0x4e, 0x54]
  }

  function RetagBatch(b: Batch, i: nat, tag: u32): Batch
    requires i < |b.events| && |b.events[i]| >= EH_RESERVED
  {
    b.(events := Retag(b.events, i, tag))
  }

  lemma SameShape(b: Batch, i: nat, tag: u32)
    requires Fits(b) && i < |b.events| && |b.events[i]| >= EH_RESERVED
    ensures Fits(RetagBatch(b, i, tag)) && RecordLength(RetagBatch(b, i, tag)) == RecordLength(b)
    ensures HeaderWords(RetagBatch(b, i, tag)) == HeaderWords(b)
    ensures PayloadLength(RetagBatch(b, i, tag)) == PayloadLength(b)
  {
    PayloadRetagged([], [], b.events, [], [], i, tag);
    hide Flatten, Payload, WriteAt, Retagged;
  }

  lemma StillTaggable(evs: seq<seq<byte>>, i: nat, tag: u32)
    requires Taggable(evs) && i < |evs|
    ensures Taggable(Retag(evs, i, tag))
  {
    hide U32LE;
    assert Retagged(evs[i], tag)[..4] == evs[i][..4];
  }

  /** Where event `i` of the record starts. */
  function EventPlace(off: nat, b: Batch, i: nat): nat
    requires i < |b.events|
  {
    off + RECORD_HEADER_SIZE + 4 * |b.events| + Sum(Lengths(b.events)[..i])
  }

  /** The three parts of a written record, seen from the file. */
  lemma RecordParts(before: seq<byte>, b: Batch, after: seq<byte>)
    requires Fits(b)
    ensures before + RecordBytes(b) + after
      == before + Image(HeaderWords(b), false) + Payload(b.events, [], Zeros(Padding(PayloadLength(b))) + after)
  {
    PayloadSplits(b.events, [], []);
    PayloadSplits(b.events, [], Zeros(Padding(PayloadLength(b))) + after);
    hide Image, Payload, Flatten, LengthWords, HeaderWords;
    var index, data, pad := LengthWords(b.events), Flatten(b.events), Zeros(Padding(PayloadLength(b)));
    assert Payload(b.events, [], []) == index + data;
    assert Payload(b.events, [], pad + after) == index + data + (pad + after);
    Regroup3(before, Image(HeaderWords(b), false), index + data, pad, after);
  }

  lemma Regroup3(a: seq<byte>, b: seq<byte>, c: seq<byte>, d: seq<byte>, e: seq<byte>)
    ensures a + (b + (c + d)) + e == a + b + (c + (d + e))
  {
  }

  /** Any event of a written record can be placed: it starts where its bytes are, behind its magic. */
  lemma PlacedInRecord(before: seq<byte>, b: Batch, after: seq<byte>, i: nat, tag: u32)
    requires Fits(b) && i < |b.events| && Taggable(b.events)
    ensures
      var file := before + RecordBytes(b) + after;
      && !Unfit(file, |before|)
      && SpotOf([file], Target(0, |before|, i, tag)) == Some(Spot(0, EventPlace(|before|, b, i), tag))
      && MagicAt([file], Spot(0, EventPlace(|before|, b, i), tag))
  {
    hide RecordBytes, Layout, Unfit, MagicAt, Fits, Taggable, EventPlace, Starts;
    LaidOutRecord(before, b, after);
    LaidOutUnlessUnfit(before + RecordBytes(b) + after, |before|);
    StartOf(|before|, b, i);
    MagicInRecord(before, b, after, i, tag);
  }

  lemma LaidOutRecord(before: seq<byte>, b: Batch, after: seq<byte>)
    requires Fits(b)
    ensures Layout(before + RecordBytes(b) + after, |before|)
      == Some(RecordLayout(RECORD_HEADER_SIZE + 4 * |b.events|, Starts(b.events)))
  {
    hide Image, Payload, HeaderWords, RecordBytes, ParseAt, Flatten, Starts, Layout;
    HeaderInFile(before, b, after);
    RecordParts(before, b, after);
    WrittenLayout(before, Image(HeaderWords(b), false), HeaderOf(b), b.events, [],
      Zeros(Padding(PayloadLength(b))) + after);
  }

  lemma MagicInRecord(before: seq<byte>, b: Batch, after: seq<byte>, i: nat, tag: u32)
    requires Fits(b) && i < |b.events| && Taggable(b.events)
    ensures MagicAt([before + RecordBytes(b) + after], Spot(0, EventPlace(|before|, b, i), tag))
  {
    hide Image, Payload, HeaderWords, RecordBytes, Flatten, Starts, EventPlace, Fits;
    RecordParts(before, b, after);
    EventInPayload(before, Image(HeaderWords(b), false), b.events, [], Zeros(Padding(PayloadLength(b))) + after, i);
    StartOf(|before|, b, i);
    MagicOfEvent(before + RecordBytes(b) + after, EventPlace(|before|, b, i), b.events[i]);
  }

  lemma StartOf(off: nat, b: Batch, i: nat)
    requires i < |b.events|
    ensures EventPlace(off, b, i) == off + RECORD_HEADER_SIZE + 4 * |b.events| + Starts(b.events)[i]
  {
  }

  lemma MagicOfEvent(file: seq<byte>, start: nat, ev: seq<byte>)
    requires start + |ev| <= |file| && file[start..start + |ev|] == ev && |ev| >= 4 && ev[..4] == EVENT_MAGIC
    ensures start + 4 <= |file| && file[start..start + 4] == EVENT_MAGIC
  {
    assert file[start..start + 4] == file[start..start + |ev|][..4];
  }

  /** The write changes the record into the one written with the event retagged. */
  lemma RecordRetagged(before: seq<byte>, b: Batch, after: seq<byte>, i: nat, tag: u32)
    requires Fits(b) && i < |b.events| && |b.events[i]| >= EH_RESERVED
    ensures Fits(RetagBatch(b, i, tag))
    ensures Patch([before + RecordBytes(b) + after], Spot(0, EventPlace(|before|, b, i), tag))
      == [before + RecordBytes(RetagBatch(b, i, tag)) + after]
  {
    SameShape(b, i, tag);
    var header, rest := Image(HeaderWords(b), false), Zeros(Padding(PayloadLength(b))) + after;
    RecordParts(before, b, after);
    RecordParts(before, RetagBatch(b, i, tag), after);
    hide Image, Payload, HeaderWords, RecordBytes, Flatten, Starts, Sum, WriteAt, PayloadLength, Retag;
    PayloadRetagged(before, header, b.events, [], rest, i, tag);
    StartOf(|before|, b, i);
  }

  // ---- Any record of the file -------------------------------------------------------------

  /** The file around record `k`, and the file with another record of its length there. */
  lemma {:induction false} Around(front: seq<byte>, bs: seq<Batch>, trailer: Option<Batch>, k: nat, other: Batch)
    returns (before: seq<byte>, after: seq<byte>)
    requires AllFit(bs) && (trailer.Some? ==> Fits(trailer.value)) && k < |bs| && Fits(other)
    ensures AllFit(bs[k := other])
    ensures FileBytes(front, bs, trailer) == before + RecordBytes(bs[k]) + after
    ensures FileBytes(front, bs[k := other], trailer) == before + RecordBytes(other) + after
    ensures |before| == Entries(|front|, bs)[k].offset
    decreases k
  {
    hide RecordBytes, Fits, RecordLength, FileBytes;
    assert AllFit(bs[k := other]);
    FrontGrows(front, bs, trailer);
    FrontGrows(front, bs[k := other], trailer);
    if k == 0 {
      before, after := front, AllBytes(bs[1..]) + TrailerBytes(trailer);
      assert bs[k := other][1..] == bs[1..];
    } else {
      before, after := Around(front + RecordBytes(bs[0]), bs[1..], trailer, k - 1, other);
      assert bs[k := other][1..] == bs[1..][k - 1 := other];
    }
  }

  function Groups(bs: seq<Batch>): (r: seq<seq<seq<byte>>>)
    ensures |r| == |bs|
  {
    seq(|bs|, k requires 0 <= k < |bs| => bs[k].events)
  }

  /** Every event of the file, in order. */
  function EventsIn(bs: seq<Batch>): (r: seq<seq<byte>>)
  {
    Flatten(Groups(bs))
  }

  predicate AllTaggable(bs: seq<Batch>)
  {
    forall k :: 0 <= k < |bs| ==> Taggable(bs[k].events)
  }

  /** Event `e` of record `k` is event `g` of the file. */
  predicate IsEvent(bs: seq<Batch>, g: nat, k: nat, e: nat)
  {
    k < |bs| && e < |bs[k].events| && g == Sum(Lengths(Groups(bs))[..k]) + e
  }

  function RetagIn(bs: seq<Batch>, k: nat, e: nat, tag: u32): (r: seq<Batch>)
    requires k < |bs| && e < |bs[k].events| && |bs[k].events[e]| >= EH_RESERVED
  {
    bs[k := RetagBatch(bs[k], e, tag)]
  }

  lemma EventHere(bs: seq<Batch>, g: nat, k: nat, e: nat)
    requires IsEvent(bs, g, k, e)
    ensures g < |EventsIn(bs)| && EventsIn(bs)[g] == bs[k].events[e]
  {
    hide Flatten, Sum;
    FlattenSlice(Groups(bs), k);
    var at := Sum(Lengths(Groups(bs))[..k]);
    assert Flatten(Groups(bs))[at..at + |bs[k].events|][e] == Flatten(Groups(bs))[g];
  }

  /** Retagging in the record is retagging in the file's list of events. */
  lemma RetagInIs(bs: seq<Batch>, g: nat, k: nat, e: nat, tag: u32)
    requires IsEvent(bs, g, k, e) && |bs[k].events[e]| >= EH_RESERVED
    ensures g < |EventsIn(bs)| && |EventsIn(bs)[g]| >= EH_RESERVED
    ensures EventsIn(RetagIn(bs, k, e, tag)) == Retag(EventsIn(bs), g, tag)
  {
    EventHere(bs, g, k, e);
    var groups, x := Groups(bs), Retag(bs[k].events, e, tag);
    FlattenUpdate(groups, k, x);
    FlattenLength(groups[..k]);
    assert Lengths(groups[..k]) == Lengths(groups)[..k];
    assert Groups(RetagIn(bs, k, e, tag)) == groups[k := x];
    hide Flatten, Sum, Retagged;
    var pre, post := Flatten(groups[..k]), Flatten(groups[k + 1..]);
    assert pre + x + post == (pre + bs[k].events + post)[|pre| + e := x[e]];
  }

  // ---- A batch over the whole file ----------------------------------------------------------

  predicate AllBelow(updates: seq<(nat, u32)>, n: nat)
  {
    forall k :: 0 <= k < |updates| ==> updates[k].0 < n
  }

  /** The updates in order, on the list of events. */
  function TagAll(evs: seq<seq<byte>>, updates: seq<(nat, u32)>): (r: seq<seq<byte>>)
    requires AllBelow(updates, |evs|) && Taggable(evs)
    ensures |r| == |evs| && Taggable(r)
  {
    if updates == [] then evs
    else
      var n := |updates| - 1;
      var before := TagAll(evs, updates[..n]);
      StillTaggable(before, updates[n].0, updates[n].1);
      Retag(before, updates[n].0, updates[n].1)
  }

  /** The same records but for the bytes of their events. */
  ghost predicate Alike(bs: seq<Batch>, now: seq<Batch>)
  {
    && |now| == |bs|
    && forall k :: 0 <= k < |bs| ==>
      now[k] == bs[k].(events := now[k].events) && Lengths(now[k].events) == Lengths(bs[k].events)
      && RecordLength(now[k]) == RecordLength(bs[k])
  }

  lemma {:induction false} SameEntries(off: nat, bs: seq<Batch>, now: seq<Batch>)
    requires Alike(bs, now)
    ensures Entries(off, now) == Entries(off, bs)
    decreases |bs|
  {
    hide RecordLength;
    if bs != [] {
      SameEntries(off + RecordLength(bs[0]), bs[1..], now[1..]);
      assert |Lengths(now[0].events)| == |Lengths(bs[0].events)|;
    }
  }

  lemma RetagInAlike(bs: seq<Batch>, now: seq<Batch>, k: nat, e: nat, tag: u32)
    requires Alike(bs, now) && AllFit(now) && AllTaggable(now) && k < |now| && e < |now[k].events|
    ensures |now[k].events[e]| >= EH_RESERVED
    ensures Alike(bs, RetagIn(now, k, e, tag)) && AllFit(RetagIn(now, k, e, tag))
    ensures AllTaggable(RetagIn(now, k, e, tag))
  {
    SameShape(now[k], e, tag);
    StillTaggable(now[k].events, e, tag);
    hide Fits, RecordLength, Retagged, Taggable;
    assert Lengths(Retag(now[k].events, e, tag)) == Lengths(now[k].events);
  }

  /** What an update of the file's event `g` is aimed at. */
  lemma TargetIs(front: seq<byte>, bs: seq<Batch>, records: seq<RecordSpan>, g: nat, tag: u32, t: Target)
    returns (k: nat, e: nat)
    requires Chained(records) && FoundOf(records) == Entries(|front|, bs) && Targets([records], g, tag, t)
    ensures IsEvent(bs, g, k, e) && t == Target(0, Entries(|front|, bs)[k].offset, e, tag)
  {
    var rec: (nat, nat), i: nat :| IsAt([records], g, rec, i) && t == Target(rec.0, [records][rec.0][rec.1].fileOffset, i, tag);
    k, e := rec.1, i;
    EntryCounts(|front|, bs);
    assert FoundOf(records)[k].offset == records[k].fileOffset;
    assert forall j :: 0 <= j < |bs| ==> FoundOf(records)[j].count == records[j].eventCount;
    assert Counts(records) == Lengths(Groups(bs));
    assert Totals([records])[..0] == [];
  }

  /** Where the batch finds event `e` of record `k`, by the file as it was. */
  lemma PlacedInFile(front: seq<byte>, bs: seq<Batch>, trailer: Option<Batch>, k: nat, e: nat, tag: u32)
    requires AllFit(bs) && AllTaggable(bs) && (trailer.Some? ==> Fits(trailer.value))
    requires k < |bs| && e < |bs[k].events|
    ensures
      var off := Entries(|front|, bs)[k].offset;
      var spot := Spot(0, EventPlace(off, bs[k], e), tag);
      && !Unfit(FileBytes(front, bs, trailer), off)
      && SpotOf([FileBytes(front, bs, trailer)], Target(0, off, e, tag)) == Some(spot)
      && MagicAt([FileBytes(front, bs, trailer)], spot)
  {
    hide Unfit, SpotOf, MagicAt, RecordBytes, FileBytes, RecordLength, EventPlace, Fits, Taggable;
    var before, after := Around(front, bs, trailer, k, bs[k]);
    PlacedInRecord(before, bs[k], after, e, tag);
  }

  lemma PatchedInFile(front: seq<byte>, bs: seq<Batch>, trailer: Option<Batch>, k: nat, e: nat, tag: u32)
    requires AllFit(bs) && (trailer.Some? ==> Fits(trailer.value))
    requires k < |bs| && e < |bs[k].events| && |bs[k].events[e]| >= EH_RESERVED
    ensures AllFit(RetagIn(bs, k, e, tag))
    ensures Patch([FileBytes(front, bs, trailer)], Spot(0, EventPlace(Entries(|front|, bs)[k].offset, bs[k], e), tag))
      == [FileBytes(front, RetagIn(bs, k, e, tag), trailer)]
  {
    SameShape(bs[k], e, tag);
    hide RecordBytes, FileBytes, RecordLength, EventPlace, Fits, Patch, RetagBatch;
    var before, after := Around(front, bs, trailer, k, RetagBatch(bs[k], e, tag));
    RecordRetagged(before, bs[k], after, e, tag);
  }

  /** A write of the batch, on the file as the writes before it left it. */
  lemma OneRetag(front: seq<byte>, bs: seq<Batch>, now: seq<Batch>, trailer: Option<Batch>, k: nat, e: nat, tag: u32)
    requires AllFit(bs) && AllTaggable(bs) && (trailer.Some? ==> Fits(trailer.value))
    requires Alike(bs, now) && AllFit(now) && AllTaggable(now) && k < |bs| && e < |bs[k].events|
    ensures |now[k].events| == |bs[k].events| && |now[k].events[e]| >= EH_RESERVED
    ensures
      var off := Entries(|front|, bs)[k].offset;
      var spot := Spot(0, EventPlace(off, bs[k], e), tag);
      && !Unfit(FileBytes(front, bs, trailer), off)
      && SpotOf([FileBytes(front, bs, trailer)], Target(0, off, e, tag)) == Some(spot)
      && MagicAt([FileBytes(front, now, trailer)], spot)
      && AllFit(RetagIn(now, k, e, tag))
      && Patch([FileBytes(front, now, trailer)], spot) == [FileBytes(front, RetagIn(now, k, e, tag), trailer)]
  {
    hide Unfit, SpotOf, MagicAt, FileBytes, Patch, RecordLength, Fits, RetagIn, EventPlace;
    assert |Lengths(now[k].events)| == |Lengths(bs[k].events)|;
    assert Taggable(now[k].events);
    SameEntries(|front|, bs, now);
    SamePlace(Entries(|front|, bs)[k].offset, bs[k], now[k], e);
    PlacedInFile(front, bs, trailer, k, e, tag);
    PlacedInFile(front, now, trailer, k, e, tag);
    PatchedInFile(front, now, trailer, k, e, tag);
  }

  lemma SamePlace(off: nat, a: Batch, b: Batch, e: nat)
    requires Lengths(a.events) == Lengths(b.events) && e < |a.events|
    ensures |a.events| == |b.events| && EventPlace(off, a, e) == EventPlace(off, b, e)
  {
    assert |Lengths(a.events)| == |a.events| && |Lengths(b.events)| == |b.events|;
  }

  /** After any of the writes the file is the one written with those updates made. */
  lemma {:induction false} BatchSoFar(front: seq<byte>, bs: seq<Batch>, trailer: Option<Batch>,
      records: seq<RecordSpan>,
      updates: seq<(nat, u32)>, spots: seq<Spot>)
    returns (now: seq<Batch>)
    requires AllFit(bs) && AllTaggable(bs) && (trailer.Some? ==> Fits(trailer.value))
    requires Chained(records) && FoundOf(records) == Entries(|front|, bs)
    requires |spots| <= |updates| && AllBelow(updates, |EventsIn(bs)|)
    requires AllInside([FileBytes(front, bs, trailer)], spots)
    requires forall k :: 0 <= k < |spots| ==> Places([records], [FileBytes(front, bs, trailer)], updates[k], spots[k])
    ensures Alike(bs, now) && AllFit(now) && AllTaggable(now)
    ensures PatchAll([FileBytes(front, bs, trailer)], spots) == [FileBytes(front, now, trailer)]
    ensures Taggable(EventsIn(bs)) && EventsIn(now) == TagAll(EventsIn(bs), updates[..|spots|])
    decreases |spots|
  {
    hide FileBytes, SpotOf, MagicAt, Patch, Fits, RecordLength, Unfit, RetagIn, EventsIn, Taggable, Targets, Chained;
    FileTaggable(bs);
    if spots == [] {
      now := bs;
    } else {
      var n := |spots| - 1;
      var was := BatchSoFar(front, bs, trailer, records, updates, spots[..n]);
      var t :| Targets([records], updates[n].0, updates[n].1, t) && t.file < 1 && SpotOf([FileBytes(front, bs, trailer)], t) == Some(spots[n]);
      var k, e := TargetIs(front, bs, records, updates[n].0, updates[n].1, t);
      OneRetag(front, bs, was, trailer, k, e, updates[n].1);
      RetagInAlike(bs, was, k, e, updates[n].1);
      now := RetagIn(was, k, e, updates[n].1);
      SameIsEvent(bs, was, updates[n].0, k, e);
      RetagInIs(was, updates[n].0, k, e, updates[n].1);
      assert updates[..n + 1][..n] == updates[..n];
    }
  }

  lemma SameIsEvent(bs: seq<Batch>, now: seq<Batch>, g: nat, k: nat, e: nat)
    requires Alike(bs, now) && IsEvent(bs, g, k, e)
    ensures IsEvent(now, g, k, e)
  {
    hide RecordLength, Sum;
    assert forall j :: 0 <= j < |bs| ==> |Lengths(now[j].events)| == |Lengths(bs[j].events)|;
    assert Lengths(Groups(now)) == Lengths(Groups(bs));
  }

  lemma FileTaggable(bs: seq<Batch>)
    requires AllTaggable(bs)
    ensures Taggable(EventsIn(bs))
  {
    forall i | 0 <= i < |EventsIn(bs)|
      ensures |EventsIn(bs)[i]| >= EH_RESERVED && EventsIn(bs)[i][..4] == EVENT_MAGIC
    {
      FlattenMember(Groups(bs), EventsIn(bs)[i]);
      hide Flatten;
      var group :| group in Groups(bs) && EventsIn(bs)[i] in group;
      assert Taggable(group);
    }
  }

  /** No update of the batch is barred after any of the writes. */
  lemma NeverBarred(front: seq<byte>, bs: seq<Batch>, trailer: Option<Batch>, records: seq<RecordSpan>,
      updates: seq<(nat, u32)>, spots: seq<Spot>)
    requires AllFit(bs) && AllTaggable(bs) && (trailer.Some? ==> Fits(trailer.value))
    requires Chained(records) && FoundOf(records) == Entries(|front|, bs)
    requires |spots| < |updates| && AllBelow(updates, |EventsIn(bs)|)
    requires AllInside([FileBytes(front, bs, trailer)], spots)
    requires forall k :: 0 <= k < |spots| ==> Places([records], [FileBytes(front, bs, trailer)], updates[k], spots[k])
    ensures !UpdateBarred([records], [FileBytes(front, bs, trailer)], spots, updates[|spots|])
  {
    hide FileBytes, SpotOf, MagicAt, Patch, PatchAll, Fits, RecordLength, Unfit, RetagIn, EventsIn, Taggable, Targets,
         Chained,
         TagAll, Places;
    var was := BatchSoFar(front, bs, trailer, records, updates, spots);
    var (g, tag) := updates[|spots|];
    forall t | Targets([records], g, tag, t)
      ensures !Barred([FileBytes(front, bs, trailer)], spots, t)
    {
      var k, e := TargetIs(front, bs, records, g, tag, t);
      OneRetag(front, bs, was, trailer, k, e, tag);
    }
  }

  lemma NoneRefused(front: seq<byte>, bs: seq<Batch>, trailer: Option<Batch>, records: seq<RecordSpan>,
      updates: seq<(nat, u32)>)
    requires AllFit(bs) && AllTaggable(bs) && (trailer.Some? ==> Fits(trailer.value))
    requires Chained(records) && FoundOf(records) == Entries(|front|, bs)
    ensures !AnyRefused([records], [FileBytes(front, bs, trailer)], updates)
  {
    hide FileBytes, SpotOf, MagicAt, Fits, RecordLength, Unfit, Taggable, Targets, Chained, Entries, FoundOf;
    forall k, t | 0 <= k < |updates| && Targets([records], updates[k].0, updates[k].1, t) && t.file < 1
      ensures !Unfit(FileBytes(front, bs, trailer), t.recordOffset)
    {
      var r, e := TargetIs(front, bs, records, updates[k].0, updates[k].1, t);
      PlacedInFile(front, bs, trailer, r, e, updates[k].1);
    }
  }

  /** The index numbers the events of the file. */
  lemma IndexCounts(front: seq<byte>, bs: seq<Batch>, records: seq<RecordSpan>)
    requires FoundOf(records) == Entries(|front|, bs)
    ensures ChainTotal([records]) == |EventsIn(bs)|
  {
    EntryCounts(|front|, bs);
    FlattenLength(Groups(bs));
    assert forall j :: 0 <= j < |bs| ==> FoundOf(records)[j].count == records[j].eventCount;
    assert Counts(records) == Lengths(Groups(bs));
    assert Totals([records])[..1] == [Total(records)];
    assert Sum([Total(records)]) == Total(records) + Sum([]);
  }

  /** Writing a file, indexing it and retagging a batch of its events leaves the file that writing the
      retagged events would have given, every event having its last new tag; a number out of range
      changes nothing. */
  method RetagWritten(front: seq<byte>, bs: seq<Batch>, trailer: Option<Batch>, updates: seq<(nat, u32)>)
    returns (r: Result<nat, PatchError>, disk: Disk, ghost now: seq<Batch>)
    requires |front| > 0 && AllFit(bs) && AllTaggable(bs) && (trailer.Some? ==> Fits(trailer.value))
    ensures Alike(bs, now) && AllFit(now) && disk.files == [FileBytes(front, now, trailer)]
    ensures Taggable(EventsIn(bs))
    ensures AllBelow(updates, |EventsIn(bs)|) ==> r == Ok(|updates|) && EventsIn(now) == TagAll(EventsIn(bs), updates)
    ensures !AllBelow(updates, |EventsIn(bs)|) ==> r.Err? && r.error.OutOfRange? && now == bs
  {
    hide FileBytes, Scan, Fits, EventsIn, AllTaggable, Alike, FileEventIndex.Valid, AnyRefused, UpdateBarred, Places,
         PatchAll,
         TagAll, MagicLeft, Taggable, NamesCompressed, RecordLength;
    FileTaggable(bs);
    var file := WriteFile(front, bs, trailer);
    ScanWritten(front, bs, trailer);
    TrailerAtEnd(front, bs, trailer);
    var pos := if trailer.Some? then |file| - RecordLength(trailer.value) else 0;
    var index := BuildIndexByScanning(file, |front|, pos, false);
    var records := index.value.records;
    IndexIsChained(index.value);
    IndexCounts(front, bs, records);
    NoneRefused(front, bs, trailer, records, updates);
    disk := new Disk([file]);
    ghost var spots;
    var offsets := FileOffsets([records]);
    r, spots := disk.SetEventTags([records], offsets, updates);
    if r.Err? && r.error.OutOfRange? {
      now := bs;
      AlikeItself(bs);
    } else {
      assert AllBelow(updates, |EventsIn(bs)|);
      now := BatchSoFar(front, bs, trailer, records, updates, spots);
      if r.Err? {
        NeverBarred(front, bs, trailer, records, updates, spots);
      }
      assert updates[..|updates|] == updates;
    }
  }

  lemma IndexIsChained(index: FileEventIndex)
    requires index.Valid()
    ensures Chained(index.records) && IndexesOk([index.records])
  {
  }

  lemma AlikeItself(bs: seq<Batch>)
    ensures Alike(bs, bs)
  {
  }

  lemma {:induction false} AllOfTags(bs: seq<Batch>)
    ensures OfTags(PlainsOf(bs), None) == EventsIn(bs)
  {
    if bs != [] {
      AllOfTags(bs[1..]);
      assert Groups(bs)[1..] == Groups(bs[1..]);
    }
  }

  /** Read back unfiltered, the file gives all its events: after a batch, the retagged ones. */
  lemma RunIsEvents(front: seq<byte>, bs: seq<Batch>, trailer: Option<Batch>)
    requires |front| > 0 && AllFit(bs) && (trailer.Some? ==> Fits(trailer.value))
    ensures
      var file := FileBytes(front, bs, trailer);
      var found := Scan(file, |front|, TrailerPosition(front, bs, trailer), false);
      && found.Some? && (forall k :: 0 <= k < |found.value| ==> Uncompressed(file, found.value[k].offset))
      && RecordsOk(LoadAll(file, found.value))
      && FileRun(LoadAll(file, found.value), None, None, 0) == Items(EventsIn(bs))
  {
    hide FileBytes, Scan, LoadAll, Uncompressed, TrailerPosition, FileRun, Wanted, OfTags, Items, EventsIn, Fits,
         RecordsOk;
    FileReadsBack(front, bs, trailer, None, [], None);
    AllOfTags(bs);
    AllWanted(OfTags(PlainsOf(bs), None), []);
  }
}
