/** Rewriting event tags in place: what a batch changes on disk, and what readers see afterwards
    (`set_event_tags`, src/read/chain.rs). */
module TagPatches {
  import opened Bytes
  import opened Events
  import opened ChainIndexes
  import opened RecordScanning
  import opened BlobRecords

  // ---- Where the events of an uncompressed record lie -----------------------------

  datatype RecordLayout = RecordLayout(dataStart: nat, offsets: seq<nat>)

  /** `read_record_layout`: only an uncompressed record with an index array that fits. */
  function Layout(file: seq<byte>, off: nat): (r: Option<RecordLayout>)
  {
    var h := ParseAt(file, off);
    if h.None? || h.value.compression != 0 then None
    else if h.value.indexArrayLength > h.value.recordLength - h.value.headerLength then None
    else
      var at := off + h.value.headerLength;
      var end := at + h.value.indexArrayLength;
      if end > |file| then None
      else
        Some(RecordLayout(h.value.headerLength + h.value.indexArrayLength + h.value.userHeaderLength + h.value.userHeaderPadding,
                          EventOffsets(file[at..end], h.value.indexArrayLength / 4)))
  }

  /** No patch here: nothing parses as a record, or it is compressed, or its index array is longer than
      what it holds or runs past the file. */
  predicate Unfit(file: seq<byte>, off: nat)
  {
    match ParseAt(file, off)
    case None => true
    case Some(h) =>
      || h.compression != 0
      || h.headerLength + h.indexArrayLength > h.recordLength
      || off + h.headerLength + h.indexArrayLength > |file|
  }

  lemma LaidOutUnlessUnfit(file: seq<byte>, off: nat)
    ensures Layout(file, off).None? <==> Unfit(file, off)
  {
    hide ParseAt, EventOffsets;
  }

  /** Where a record written as header, index, user header and events keeps them: event `i` begins after
      all of those and the events before it. */
  lemma WrittenLayout(before: seq<byte>, header: seq<byte>, h: RecordHeader, evs: seq<seq<byte>>, user: seq<byte>,
      rest: seq<byte>)
    requires ParseAt(before + header + Payload(evs, user, rest), |before|) == Some(h)
    requires h.compression == 0 && h.headerLength == |header| && Heads(h, evs, user)
    requires |header| + 4 * |evs| <= h.recordLength && |Flatten(evs)| < U32_LIMIT
    ensures Layout(before + header + Payload(evs, user, rest), |before|)
      == Some(RecordLayout(|header| + 4 * |evs| + |user|, Starts(evs)))
  {
    hide ParseAt, LengthWords, Flatten, Starts, EventOffsets;
    var file := before + header + Payload(evs, user, rest);
    PayloadSplits(evs, user, rest);
    FlattenLength(evs);
    StartsRead(evs, []);
    var at := |before| + |header|;
    assert file[at..at + 4 * |evs|] == LengthWords(evs);
    assert LengthWords(evs) + [] == LengthWords(evs);
  }

  lemma EventInPayload(before: seq<byte>, header: seq<byte>, evs: seq<seq<byte>>, user: seq<byte>, rest: seq<byte>,
      i: nat)
    requires i < |evs|
    ensures
      var file := before + header + Payload(evs, user, rest);
      var start := |before| + |header| + 4 * |evs| + |user| + Starts(evs)[i];
      start + |evs[i]| <= |file| && file[start..start + |evs[i]|] == evs[i]
  {
    hide LengthWords, Flatten, Sum;
    PayloadSplits(evs, user, rest);
    FlattenSlice(evs, i);
    var file := before + header + Payload(evs, user, rest);
    var front := before + header + LengthWords(evs) + user;
    assert file == front + Flatten(evs) + rest;
    var at := Starts(evs)[i];
    assert file[|front| + at..|front| + at + |evs[i]|] == Flatten(evs)[at..at + |evs[i]|];
  }

  /** Events lie one after the other, whatever their lengths. */
  lemma LayoutRises(file: seq<byte>, off: nat, l: RecordLayout, i: nat, j: nat)
    requires Layout(file, off) == Some(l) && i <= j < |l.offsets|
    ensures l.offsets[i] <= l.offsets[j]
  {
    var h := ParseAt(file, off).value;
    var at := off + h.headerLength;
    var index := file[at..at + h.indexArrayLength];
    hide EventOffsets, ParseAt;
    OffsetsNeverFall(index, h.indexArrayLength / 4, i, j);
  }

  method ReadRecordLayout(file: seq<byte>, off: nat) returns (r: Option<RecordLayout>)
    ensures r == Layout(file, off)
  {
    hide ParseRecordHeader, EventOffsets;
    var h := ParseAt(file, off);
    if h.None? || h.value.compression != 0 || h.value.indexArrayLength > h.value.recordLength - h.value.headerLength {
      return None;
    }
    var at := off + h.value.headerLength;
    var end := at + h.value.indexArrayLength;
    if end > |file| {
      return None;
    }
    var offsets := ReadOffsets(file[at..end], h.value.indexArrayLength / 4);
    r := Some(RecordLayout(h.value.headerLength + h.value.indexArrayLength + h.value.userHeaderLength + h.value.userHeaderPadding,
                           offsets));
  }

  // ---- One write ------------------------------------------------------------------

  /** A resolved update: the event's start in its file and the tag to put there. */
  datatype Spot = Spot(file: nat, start: nat, tag: u32)

  type Files = seq<seq<byte>>

  /** `write_all_at`; past the end it extends the file. */
  function WriteAt(file: seq<byte>, at: nat, patch: seq<byte>): (r: seq<byte>)
    ensures at + |patch| <= |file| ==> r == Splice(file, at, patch)
  {
    if at + |patch| <= |file| then Splice(file, at, patch)
    else if at <= |file| then file[..at] + patch
    else file + Zeros(at - |file|) + patch
  }

  function Patch(files: Files, s: Spot): (r: Files)
    requires s.file < |files|
    ensures |r| == |files|
  {
    files[s.file := WriteAt(files[s.file], s.start + EH_TAG, U32LE(s.tag))]
  }

  predicate Inside(files: Files, s: Spot)
  {
    s.file < |files|
  }

  /** The writes in order. */
  function PatchAll(files: Files, spots: seq<Spot>): (r: Files)
    requires forall k :: 0 <= k < |spots| ==> Inside(files, spots[k])
    ensures |r| == |files|
  {
    if spots == [] then files
    else
      var n := |spots| - 1;
      assert Inside(files, spots[n]) && forall k :: 0 <= k < n ==> spots[..n][k] == spots[k];
      Patch(PatchAll(files, spots[..n]), spots[n])
  }

  predicate MagicAt(files: Files, s: Spot)
  {
    s.file < |files| && s.start + 4 <= |files[s.file]| && files[s.file][s.start..s.start + 4] == EVENT_MAGIC
  }

  /** The writes made so far left the magic that the next one looks for. */
  ghost predicate MagicLeft(files: Files, spots: seq<Spot>, k: nat)
    requires k < |spots| && forall i :: 0 <= i < |spots| ==> Inside(files, spots[i])
  {
    assert forall i :: 0 <= i < k ==> spots[..k][i] == spots[i];
    MagicAt(PatchAll(files, spots[..k]), spots[k])
  }

  ghost predicate AllInside(files: Files, spots: seq<Spot>)
  {
    forall i :: 0 <= i < |spots| ==> Inside(files, spots[i])
  }

  /** One more write, behind its check. */
  lemma OneMore(files: Files, spots: seq<Spot>, s: Spot)
    requires AllInside(files, spots) && MagicAt(PatchAll(files, spots), s)
    requires forall i :: 0 <= i < |spots| ==> MagicLeft(files, spots, i)
    ensures AllInside(files, spots + [s])
    ensures PatchAll(files, spots + [s]) == Patch(PatchAll(files, spots), s)
    ensures forall i :: 0 <= i <= |spots| ==> MagicLeft(files, spots + [s], i)
  {
    var more := spots + [s];
    assert more[..|spots|] == spots;
    hide PatchAll, MagicAt;
    forall i | 0 <= i <= |spots|
      ensures MagicLeft(files, more, i)
    {
      if i < |spots| {
        assert more[..i] == spots[..i] && MagicLeft(files, spots, i);
      }
    }
  }

  // ---- The batch --------------------------------------------------------------------

  datatype Target = Target(file: nat, recordOffset: nat, ev: nat, tag: u32)

  datatype PatchError = OutOfRange(index: nat) | Unpatchable(at: nat) | BadEvent(at: nat)

  /** The target of one update. */
  ghost predicate Targets(spans: Spans, g: nat, tag: u32, t: Target)
  {
    exists rec: (nat, nat), e: nat :: IsAt(spans, g, rec, e) && t == Target(rec.0, spans[rec.0][rec.1].fileOffset, e, tag)
  }

  /** Pass 0: every update resolves, or nothing is touched. */
  method Resolve(spans: Spans, offsets: seq<nat>, updates: seq<(nat, u32)>) returns (r: Result<seq<Target>, PatchError>)
    requires IndexesOk(spans) && (IsOffsets(spans, offsets) || (spans == [] && offsets == []))
    ensures r.Ok? <==> forall k :: 0 <= k < |updates| ==> updates[k].0 < ChainTotal(spans)
    ensures r.Err? ==> r.error.OutOfRange?
    ensures r.Ok? ==> |r.value| == |updates| && forall k :: 0 <= k < |updates| ==>
      Targets(spans, updates[k].0, updates[k].1, r.value[k]) && r.value[k].file < |spans|
  {
    hide Base, IndexesOk, IsOffsets, Start;
    var targets: seq<Target> := [];
    for k := 0 to |updates|
      invariant |targets| == k && forall i :: 0 <= i < k ==> updates[i].0 < ChainTotal(spans)
      invariant forall i :: 0 <= i < k ==>
        Targets(spans, updates[i].0, updates[i].1, targets[i]) && targets[i].file < |spans|
    {
      var place := LocateInChain(spans, offsets, updates[k].0);
      if place.None? {
        return Err(OutOfRange(updates[k].0));
      }
      var (rec, e) := place.value;
      assert IsAt(spans, updates[k].0, rec, e);
      targets := targets + [Target(rec.0, spans[rec.0][rec.1].fileOffset, e, updates[k].1)];
    }
    r := Ok(targets);
  }

  /** Where a target's event starts, by the layout read before any write. */
  function SpotOf(files: Files, t: Target): (r: Option<Spot>)
    requires t.file < |files|
    ensures r.Some? ==> r.value.file == t.file && r.value.tag == t.tag
  {
    match Layout(files[t.file], t.recordOffset)
    case None => None
    case Some(l) =>
      if t.ev < |l.offsets| then Some(Spot(t.file, t.recordOffset + l.dataStart + l.offsets[t.ev], t.tag)) else None
  }

  /** After the writes `done` the target's event is not there to patch: its number is past the
      record's own table, or its magic is missing. */
  ghost predicate Barred(files: Files, done: seq<Spot>, t: Target)
    requires forall i :: 0 <= i < |done| ==> Inside(files, done[i])
  {
    t.file < |files| && (SpotOf(files, t).None? || !MagicAt(PatchAll(files, done), SpotOf(files, t).value))
  }

  class Disk {
    var files: Files

    constructor (files: Files)
      ensures this.files == files
    {
      this.files := files;
    }

    /** Pass 1: every record involved is patchable, read before the first write. */
    method ReadLayouts(targets: seq<Target>) returns (r: Result<seq<RecordLayout>, PatchError>)
      requires forall k :: 0 <= k < |targets| ==> targets[k].file < |files|
      ensures r.Ok? <==> forall k :: 0 <= k < |targets| ==>
        Layout(files[targets[k].file], targets[k].recordOffset).Some?
      ensures r.Err? ==> r.error.Unpatchable?
      ensures r.Ok? ==> |r.value| == |targets| && forall k :: 0 <= k < |targets| ==>
        Layout(files[targets[k].file], targets[k].recordOffset) == Some(r.value[k])
    {
      hide Layout;
      var layouts: seq<RecordLayout> := [];
      for k := 0 to |targets|
        invariant |layouts| == k
        invariant forall i :: 0 <= i < k ==> Layout(files[targets[i].file], targets[i].recordOffset) == Some(layouts[i])
      {
        var l := ReadRecordLayout(files[targets[k].file], targets[k].recordOffset);
        if l.None? {
          return Err(Unpatchable(k));
        }
        layouts := layouts + [l.value];
      }
      r := Ok(layouts);
    }

    /** Pass 2: the writes, each behind a check of the event's magic. A failed check stops there,
        with the writes before it done. */
    method ApplyAll(targets: seq<Target>, layouts: seq<RecordLayout>)
      returns (r: Result<nat, PatchError>, ghost spots: seq<Spot>)
      requires |layouts| == |targets| && forall k :: 0 <= k < |targets| ==>
        targets[k].file < |files| && Layout(files[targets[k].file], targets[k].recordOffset) == Some(layouts[k])
      modifies this
      ensures |spots| <= |targets| && forall k :: 0 <= k < |spots| ==>
        Inside(old(files), spots[k]) && targets[k].file < |old(files)| && SpotOf(old(files), targets[k]) == Some(spots[k])
      ensures files == PatchAll(old(files), spots)
      ensures forall k :: 0 <= k < |spots| ==> MagicLeft(old(files), spots, k)
      ensures r.Ok? ==> r.value == |targets| == |spots|
      ensures r.Err? ==>
        r.error == BadEvent(|spots|) && |spots| < |targets| && Barred(old(files), spots, targets[|spots|])
    {
      hide Layout, WriteAt, PatchAll, MagicLeft;
      NothingPatched(files);
      spots := [];
      for k := 0 to |targets|
        invariant |spots| == k && |files| == |old(files)|
        invariant forall i :: 0 <= i < k ==>
          Inside(old(files), spots[i]) && targets[i].file < |old(files)| && SpotOf(old(files), targets[i]) == Some(spots[i])
        invariant files == PatchAll(old(files), spots)
        invariant forall i :: 0 <= i < k ==> MagicLeft(old(files), spots, i)
      {
        var t, l := targets[k], layouts[k];
        if t.ev >= |l.offsets| {
          return Err(BadEvent(k)), spots;
        }
        var start := t.recordOffset + l.dataStart + l.offsets[t.ev];
        if !MagicAt(files, Spot(t.file, start, t.tag)) {
          return Err(BadEvent(k)), spots;
        }
        OneMore(old(files), spots, Spot(t.file, start, t.tag));
        files := files[t.file := WriteAt(files[t.file], start + EH_TAG, U32LE(t.tag))];
        spots := spots + [Spot(t.file, start, t.tag)];
      }
      r := Ok(|targets|);
    }

    /** `set_event_tags`. The first index out of range, else the first record that cannot be
        patched, refuses the batch before any write; after that the updates are done in order up to
        the first whose event is not there to patch. */
    method SetEventTags(spans: Spans, offsets: seq<nat>, updates: seq<(nat, u32)>)
      returns (r: Result<nat, PatchError>, ghost spots: seq<Spot>)
      requires IndexesOk(spans) && (IsOffsets(spans, offsets) || (spans == [] && offsets == [])) && |files| == |spans|
      modifies this
      ensures forall k :: 0 <= k < |spots| ==> Inside(old(files), spots[k])
      ensures files == PatchAll(old(files), spots)
      ensures |spots| <= |updates| && forall k :: 0 <= k < |spots| ==> Places(spans, old(files), updates[k], spots[k])
      ensures (r.Err? && r.error.OutOfRange?) <==> !AllInRange(spans, updates)
      ensures (r.Err? && r.error.Unpatchable?) <==> AllInRange(spans, updates) && AnyRefused(spans, old(files), updates)
      ensures r.Err? && !r.error.BadEvent? ==> files == old(files) && spots == []
      ensures AllInRange(spans, updates) && (exists k :: 0 <= k < |updates| && NamesCompressed(spans, old(files), updates[k])) ==>
        r.Err? && r.error.Unpatchable? && files == old(files)
      ensures r.Ok? ==> r.value == |updates| == |spots|
      ensures r.Err? && r.error.BadEvent? ==>
        |spots| == r.error.at < |updates| && UpdateBarred(spans, old(files), spots, updates[|spots|])
      ensures forall k :: 0 <= k < |spots| ==> MagicLeft(old(files), spots, k)
    {
      hide Base, IndexesOk, IsOffsets, Start, Layout, PatchAll, MagicLeft, Barred, MagicAt, NamesCompressed;
      spots := [];
      NothingPatched(files);
      var targets := Resolve(spans, offsets, updates);
      if targets.Err? {
        return Err(targets.error), [];
      }
      RefusedMeans(spans, files, updates, targets.value);
      CompressedRefused(spans, files, updates);
      var layouts := ReadLayouts(targets.value);
      if layouts.Err? {
        return Err(layouts.error), [];
      }
      ghost var before := files;
      r, spots := ApplyAll(targets.value, layouts.value);
      forall k | 0 <= k < |spots|
        ensures Places(spans, before, updates[k], spots[k])
      {
        assert Targets(spans, updates[k].0, updates[k].1, targets.value[k]);
      }
    }
  }

  ghost predicate AllInRange(spans: Spans, updates: seq<(nat, u32)>)
  {
    forall k :: 0 <= k < |updates| ==> updates[k].0 < ChainTotal(spans)
  }

  ghost predicate AnyRefused(spans: Spans, files: Files, updates: seq<(nat, u32)>)
  {
    exists k :: 0 <= k < |updates| && Refused(spans, files, updates[k])
  }

  /** The update's event is not there to patch after the writes `done`. */
  ghost predicate UpdateBarred(spans: Spans, files: Files, done: seq<Spot>, update: (nat, u32))
    requires forall i :: 0 <= i < |done| ==> Inside(files, done[i])
  {
    exists t :: Targets(spans, update.0, update.1, t) && Barred(files, done, t)
  }

  /** `spot` is where the update's event starts, by the files as they were. */
  ghost predicate Places(spans: Spans, files: Files, update: (nat, u32), spot: Spot)
  {
    exists t :: Targets(spans, update.0, update.1, t) && t.file < |files| && SpotOf(files, t) == Some(spot)
  }

  /** The update's record is compressed or malformed. */
  ghost predicate Refused(spans: Spans, files: Files, update: (nat, u32))
  {
    exists t :: Targets(spans, update.0, update.1, t) && t.file < |files| && Unfit(files[t.file], t.recordOffset)
  }

  /** The update names an event of a record that some codec has compressed. */
  ghost predicate NamesCompressed(spans: Spans, files: Files, update: (nat, u32))
  {
    exists rec: (nat, nat), e: nat :: IsAt(spans, update.0, rec, e) && rec.0 < |files|
      && ParseAt(files[rec.0], spans[rec.0][rec.1].fileOffset).Some?
      && ParseAt(files[rec.0], spans[rec.0][rec.1].fileOffset).value.compression != 0
  }

  lemma CompressedIsRefused(spans: Spans, files: Files, update: (nat, u32))
    requires NamesCompressed(spans, files, update)
    ensures Refused(spans, files, update)
  {
    hide ParseAt;
    var rec: (nat, nat), e: nat :| IsAt(spans, update.0, rec, e) && rec.0 < |files|
      && ParseAt(files[rec.0], spans[rec.0][rec.1].fileOffset).Some?
      && ParseAt(files[rec.0], spans[rec.0][rec.1].fileOffset).value.compression != 0;
    var t := Target(rec.0, spans[rec.0][rec.1].fileOffset, e, update.1);
    assert Targets(spans, update.0, update.1, t);
  }

  lemma CompressedRefused(spans: Spans, files: Files, updates: seq<(nat, u32)>)
    ensures (exists k :: 0 <= k < |updates| && NamesCompressed(spans, files, updates[k])) ==>
      AnyRefused(spans, files, updates)
  {
    hide NamesCompressed, Refused;
    if k :| 0 <= k < |updates| && NamesCompressed(spans, files, updates[k]) {
      CompressedIsRefused(spans, files, updates[k]);
    }
  }

  lemma NothingPatched(files: Files)
    ensures PatchAll(files, []) == files
  {
  }

  lemma SameTarget(spans: Spans, g: nat, tag: u32, t: Target, u: Target)
    requires IndexesOk(spans) && Targets(spans, g, tag, t) && Targets(spans, g, tag, u)
    ensures t == u
  {
    hide Base, IndexesOk, Start;
    var a: (nat, nat), i: nat :| IsAt(spans, g, a, i) && t == Target(a.0, spans[a.0][a.1].fileOffset, i, tag);
    var b: (nat, nat), j: nat :| IsAt(spans, g, b, j) && u == Target(b.0, spans[b.0][b.1].fileOffset, j, tag);
    OneRecord(spans, g, a, i, b, j);
  }

  lemma RefusedMeans(spans: Spans, files: Files, updates: seq<(nat, u32)>, targets: seq<Target>)
    requires IndexesOk(spans) && |targets| == |updates|
    requires forall k :: 0 <= k < |updates| ==>
      Targets(spans, updates[k].0, updates[k].1, targets[k]) && targets[k].file < |files|
    ensures AnyRefused(spans, files, updates) <==>
      exists k :: 0 <= k < |targets| && Layout(files[targets[k].file], targets[k].recordOffset).None?
  {
    hide IndexesOk, Targets, Layout, Unfit;
    forall k | 0 <= k < |targets|
      ensures Layout(files[targets[k].file], targets[k].recordOffset).None? <==>
        Unfit(files[targets[k].file], targets[k].recordOffset)
    {
      LaidOutUnlessUnfit(files[targets[k].file], targets[k].recordOffset);
    }
    if k :| 0 <= k < |targets| && Layout(files[targets[k].file], targets[k].recordOffset).None? {
      assert Refused(spans, files, updates[k]);
    }
    if k :| 0 <= k < |updates| && Refused(spans, files, updates[k]) {
      var t :| Targets(spans, updates[k].0, updates[k].1, t) && t.file < |files| && Unfit(files[t.file], t.recordOffset);
      SameTarget(spans, updates[k].0, updates[k].1, t, targets[k]);
      assert Layout(files[targets[k].file], targets[k].recordOffset).None?;
    }
  }
}
