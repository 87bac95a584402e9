/** What the parsers of the two split layouts insist on, and which of the records a writer makes meet
    it (src/wire/by_bank.rs, src/wire/per_column.rs against src/write/record.rs). */
module SplitParsers {
  import opened Arith
  import opened Bytes
  import opened Events
  import opened Schemas
  import opened Records
  import opened Banks
  import opened Layouts
  import opened Reassembly

  // ---- What is insisted on --------------------------------------------------

  /** By bank: the recorded sizes of each bank add up to its stream. */
  ghost predicate SizesAddUp(r: ByBankRecord)
    requires r.Valid()
  {
    forall b :: 0 <= b < r.dir.Banks() ==> r.streams[b].Some? && r.dir.Offset(r.dir.Events(), b) == |r.streams[b].value|
  }

  function StreamSizes(streams: seq<Option<seq<byte>>>): (r: seq<nat>)
    ensures |r| == |streams|
  {
    seq(|streams|, c requires 0 <= c < |streams| => if streams[c].Some? then |streams[c].value| else 0)
  }

  /** Per column: the recorded sizes of each bank add up to its streams together. */
  ghost predicate StreamsAddUp(r: PerColumnRecord)
    requires r.Valid()
  {
    forall b :: 0 <= b < r.dir.Banks() ==>
      && (forall c :: 0 <= c < |r.streams[b]| ==> r.streams[b][c].Some?)
      && r.dir.Offset(r.dir.Events(), b) == Sum(StreamSizes(r.streams[b]))
  }

  /** The record is not refused as corrupt when it is read. */
  ghost predicate Parses(r: Split)
    requires r.Valid()
  {
    match r case OfBanks(banks) => SizesAddUp(banks) case OfColumns(columns) => StreamsAddUp(columns)
  }

  // ---- Repeated copies --------------------------------------------------------

  /** In no event does a second copy of a bank follow one that had bytes. */
  ghost predicate EarlierCopiesEmpty(ss: seq<Structure>)
  {
    forall i, j :: 0 <= i < j < |ss| && IdOf(ss[i]) == IdOf(ss[j]) ==> ss[i].data == []
  }

  /** The same, of one bank. */
  ghost predicate EarlierEmpty(ss: seq<Structure>, id: Id)
  {
    forall i, j :: 0 <= i < j < |ss| && IdOf(ss[i]) == id == IdOf(ss[j]) ==> ss[i].data == []
  }

  lemma OneBankAtATime(ss: seq<Structure>)
    ensures EarlierCopiesEmpty(ss) <==> forall id :: EarlierEmpty(ss, id)
  {
    if !EarlierCopiesEmpty(ss) {
      var i, j :| 0 <= i < j < |ss| && IdOf(ss[i]) == IdOf(ss[j]) && ss[i].data != [];
      assert !EarlierEmpty(ss, IdOf(ss[i]));
    }
  }

  /** The last copy's size is that of all the bytes exactly when the earlier copies had none. */
  lemma {:induction false} LastIsAll(ss: seq<Structure>, id: Id)
    ensures LastSize(ss, id) <= |Appended(ss, id)|
    ensures LastSize(ss, id) == |Appended(ss, id)| <==> EarlierEmpty(ss, id)
    ensures Appended(ss, id) == [] <==> forall s :: s in ss && IdOf(s) == id ==> s.data == []
    decreases |ss|
  {
    if ss != [] {
      var n := |ss| - 1;
      LastIsAll(ss[..n], id);
      CopiesStep(ss, id);
      EarlierStep(ss, id);
      assert forall s :: s in ss <==> s in ss[..n] || s == ss[n];
    }
  }

  lemma EarlierStep(ss: seq<Structure>, id: Id)
    requires ss != []
    ensures
      var init, last := ss[..|ss| - 1], ss[|ss| - 1];
      EarlierEmpty(ss, id) <==>
        if IdOf(last) == id then forall s :: s in init && IdOf(s) == id ==> s.data == [] else EarlierEmpty(init, id)
  {
    var n := |ss| - 1;
    if IdOf(ss[n]) == id {
      if EarlierEmpty(ss, id) {
        forall s | s in ss[..n] && IdOf(s) == id
          ensures s.data == []
        {
          var i :| 0 <= i < n && ss[i] == s;
        }
      } else {
        var i, j :| 0 <= i < j < |ss| && IdOf(ss[i]) == id == IdOf(ss[j]) && ss[i].data != [];
        assert ss[i] in ss[..n];
      }
    } else {
      assert forall i :: 0 <= i < n ==> ss[..n][i] == ss[i];
    }
  }

  /** The end of a bank's offset table is the length of its bytes exactly when no event appended
      more than the size recorded for it. */
  lemma BankAddsUp(events: seq<seq<Structure>>, id: Id)
    requires Fits(events)
    ensures Sum(Sizes(events, id)) <= |BankBytes(events, id)| <= U32_MAX
    ensures Offsets(Sizes(events, id))[|events|] == Sum(Sizes(events, id))
    ensures Sum(Sizes(events, id)) == |BankBytes(events, id)| <==> forall e :: 0 <= e < |events| ==>
      EarlierEmpty(events[e], id)
  {
    hide LastSize, Appended, Sum, EarlierEmpty;
    var sizes, lengths := Sizes(events, id), Lengths(AllAppended(events, id));
    forall e | 0 <= e < |events|
      ensures sizes[e] <= lengths[e] && (sizes[e] == lengths[e] <==> EarlierEmpty(events[e], id))
    {
      LastIsAll(events[e], id);
    }
    EqualSumsEqualTerms(sizes, lengths);
    FlattenLength(AllAppended(events, id));
    assert sizes[..|events|] == sizes;
  }

  // ---- Rows of a column stream --------------------------------------------------

  lemma {:induction false} WholeRowsSoFar(sizes: seq<nat>, rowSize: nat, e: nat)
    requires 0 < rowSize && e <= |sizes|
    requires forall i :: 0 <= i < |sizes| ==> sizes[i] % rowSize == 0
    ensures Sum(sizes[..e]) % rowSize == 0
    ensures e < |sizes| ==>
      RowsIn(Sum(sizes[..e + 1]), rowSize) == RowsIn(Sum(sizes[..e]), rowSize) + RowsIn(sizes[e], rowSize)
  {
    hide Sum;
    if e == 0 {
      SumOfNothing(sizes);
    } else {
      WholeRowsSoFar(sizes, rowSize, e - 1);
      SumTake(sizes, e - 1);
      DivAdd(Sum(sizes[..e - 1]), sizes[e - 1], rowSize);
    }
    if e < |sizes| {
      SumTake(sizes, e);
      DivAdd(Sum(sizes[..e]), sizes[e], rowSize);
    }
  }

  lemma SumOfNothing(sizes: seq<nat>)
    ensures Sum(sizes[..0]) == 0
  {
  }

  /** A column of a whole-row block is all there. */
  lemma WholePart(s: Schema, block: seq<byte>, c: nat)
    requires Exact(s) && s.rowSize > 0 && c < |s.entries| && |block| % s.rowSize == 0
    ensures |ColumnPart(s, block, c)| == s.entries[c].Span(RowsIn(|block|, s.rowSize))
    ensures s.entries[c].Start(RowsIn(|block|, s.rowSize)) + s.entries[c].Span(RowsIn(|block|, s.rowSize)) <= |block|
    ensures
      var at := s.entries[c].Start(RowsIn(|block|, s.rowSize));
      block[at..at + |ColumnPart(s, block, c)|] == ColumnPart(s, block, c)
  {
    hide Exact, Entry.Start, Entry.Span;
    RowsFit(|block|, s.rowSize);
    ColumnInside(s, RowsIn(|block|, s.rowSize), c);
  }

  lemma SpanAdds(column: Entry, a: nat, b: nat)
    ensures column.Span(a + b) == column.Span(a) + column.Span(b)
    ensures column.Span(0) == 0
  {
    Distribute(column.Width(), a, b);
  }

  /** The splitter's block of an event is as long as the size recorded for it. */
  lemma BlockSize(events: seq<seq<Structure>>, id: Id, e: nat)
    requires e < |events|
    ensures |Block(events, id, e)| == Sizes(events, id)[e]
  {
    hide LastSize, Appended, Sum;
    var sizes, lengths := Sizes(events, id), Lengths(AllAppended(events, id));
    forall i | 0 <= i < |events|
      ensures sizes[i] <= lengths[i]
    {
      LastIsAll(events[i], id);
    }
    EqualSumsEqualTerms(sizes[..e + 1], lengths[..e + 1]);
    SumMonotone(lengths, e + 1, |events|);
    assert lengths[..|events|] == lengths;
    FlattenLength(AllAppended(events, id));
    SumTake(sizes, e);
  }

  /** Earlier events' parts of a column stream take exactly their rows' bytes. */
  lemma {:induction false} PartPositions(s: Schema, events: seq<seq<Structure>>, id: Id, c: nat, e: nat)
    requires Exact(s) && s.rowSize > 0 && c < |s.entries| && e <= |events|
    requires forall i :: 0 <= i < |events| ==> Sizes(events, id)[i] % s.rowSize == 0
    ensures Sum(Lengths(ColumnParts(s, events, id, c))[..e])
      == s.entries[c].Span(RowsIn(Sum(Sizes(events, id)[..e]), s.rowSize))
  {
    hide Exact, Sum, Sizes, Block, ColumnPart, Entry.Span;
    var sizes, parts := Sizes(events, id), ColumnParts(s, events, id, c);
    if e == 0 {
      SumOfNothing(sizes);
      SumOfNothing(Lengths(parts));
      SpanAdds(s.entries[c], 0, 0);
      DivSmall(0, s.rowSize);
    } else {
      PartPositions(s, events, id, c, e - 1);
      WholeRowsSoFar(sizes, s.rowSize, e - 1);
      BlockSize(events, id, e - 1);
      WholePart(s, Block(events, id, e - 1), c);
      SumTake(Lengths(parts), e - 1);
      SpanAdds(s.entries[c], RowsIn(Sum(sizes[..e - 1]), s.rowSize), RowsIn(sizes[e - 1], s.rowSize));
    }
  }

  /** The first `c` columns of so many rows, one after the other. */
  lemma {:induction false} SpansAddUp(s: Schema, rows: nat, spans: seq<nat>, c: nat)
    requires Exact(s) && c <= |spans| == |s.entries|
    requires forall k :: 0 <= k < |spans| ==> spans[k] == s.entries[k].Span(rows)
    ensures Sum(spans[..c]) == Times(rows, RowPrefix(s.entries, c))
  {
    hide Exact, Entry.Start, Entry.Span, Sum;
    if c == 0 {
      SumOfNothing(spans);
    } else {
      SpansAddUp(s, rows, spans, c - 1);
      SumTake(spans, c - 1);
      ColumnInside(s, rows, c - 1);
    }
  }

  /** A columnar bank's streams hold exactly the bytes of its recorded sizes, whatever was lost. */
  lemma ColumnsAddUp(table: Table, d: Descriptor, events: seq<seq<Structure>>)
    requires TableOk(table) && Columnar(table, d, events)
    ensures Sum(StreamSizes(BankStreams(table, d, events))) == Sum(Sizes(events, DescriptorId(d)))
  {
    hide Exact, LaidOut, Sum, LastSize, Entry.Span, RowPrefix, ColumnParts;
    var id := DescriptorId(d);
    var s, sizes := table[id], Sizes(events, id);
    assert forall i :: 0 <= i < |events| ==> sizes[i] % s.rowSize == 0;
    assert sizes[..|events|] == sizes;
    WholeRowsSoFar(sizes, s.rowSize, |events|);
    var rows, spans := RowsIn(Sum(sizes), s.rowSize), StreamSizes(BankStreams(table, d, events));
    forall c | 0 <= c < |spans|
      ensures spans[c] == s.entries[c].Span(rows)
    {
      var parts := ColumnParts(s, events, id, c);
      PartPositions(s, events, id, c, |events|);
      FlattenLength(parts);
      assert Lengths(parts)[..|events|] == Lengths(parts);
    }
    SpansAddUp(s, rows, spans, |spans|);
    assert spans[..|spans|] == spans;
    RowsMakeAll(s, Sum(sizes));
  }

  lemma RowsMakeAll(s: Schema, size: nat)
    requires Exact(s) && s.rowSize > 0 && size % s.rowSize == 0
    ensures Times(RowsIn(size, s.rowSize), RowPrefix(s.entries, |s.entries|)) == size
  {
    hide RowPrefix;
    DivExact(size, s.rowSize);
  }

  // ---- What a writer makes --------------------------------------------------------

  /** A written by-bank record parses exactly when no event repeats a bank after a copy that had
      bytes: the writer keeps both copies' bytes but only the last one's size. */
  lemma ByBankReadable(tags: seq<u32>, events: seq<seq<Structure>>)
    requires |tags| == |events| && Fits(events)
    ensures ByBankOf(tags, events).Valid()
    ensures SizesAddUp(ByBankOf(tags, events)) <==> forall e :: 0 <= e < |events| ==> EarlierCopiesEmpty(events[e])
  {
    hide Describe, BankBytes, Sizes, Offsets, EarlierCopiesEmpty, EarlierEmpty, Fits, Sum;
    DirectoryValid(tags, events);
    var r := ByBankOf(tags, events);
    forall b | 0 <= b < r.dir.Banks()
      ensures r.dir.Offset(r.dir.Events(), b) == |r.streams[b].value|
              <==> forall e :: 0 <= e < |events| ==> EarlierEmpty(events[e], DescriptorId(r.dir.descriptors[b]))
    {
      BankAddsUp(events, DescriptorId(r.dir.descriptors[b]));
    }
    ListedBanksDecide(events, r.dir.descriptors);
  }

  /** Banks that no event carries cannot be repeated, so those of the directory decide. */
  lemma ListedBanksDecide(events: seq<seq<Structure>>, ds: seq<Descriptor>)
    requires ds == Describe(Flatten(events))
    ensures (forall e :: 0 <= e < |events| ==> EarlierCopiesEmpty(events[e]))
            <==> forall b, e :: 0 <= b < |ds| && 0 <= e < |events| ==> EarlierEmpty(events[e], DescriptorId(ds[b]))
  {
    hide Describe;
    forall e | 0 <= e < |events|
      ensures EarlierCopiesEmpty(events[e]) <==> forall b :: 0 <= b < |ds| ==>
        EarlierEmpty(events[e], DescriptorId(ds[b]))
    {
      OneBankAtATime(events[e]);
      if !EarlierCopiesEmpty(events[e]) {
        var i, j :| 0 <= i < j < |events[e]| && IdOf(events[e][i]) == IdOf(events[e][j]) && events[e][i].data != [];
        DescribeFinds(events, e, events[e][i]);
        assert !EarlierEmpty(events[e], DescriptorId(ds[IndexOf(ds, IdOf(events[e][i])).value]));
      }
    }
  }

  /** Every bank stored as one opaque stream is repeated only after copies without bytes. */
  ghost predicate OpaqueOnce(table: Table, events: seq<seq<Structure>>)
  {
    forall d, e :: d in Describe(Flatten(events)) && !Columnar(table, d, events) && 0 <= e < |events| ==>
      EarlierEmpty(events[e], DescriptorId(d))
  }

  /** A written per-column record parses exactly when no event repeats an opaque bank after a copy
      that had bytes. A bank split into columns always passes: the splitter goes by the recorded
      sizes, and drops the rest unnoticed. */
  lemma PerColumnReadable(tags: seq<u32>, events: seq<seq<Structure>>, table: Table)
    requires |tags| == |events| && TableOk(table) && Fits(events)
    ensures PerColumnOf(tags, events, table).Valid()
    ensures StreamsAddUp(PerColumnOf(tags, events, table)) <==> OpaqueOnce(table, events)
  {
    hide TableOk, Describe, BankBytes, Sizes, Offsets, EarlierEmpty, Fits, Sum, Columnar, BankStreams, StreamSizes;
    RecordsValid(tags, events, table);
    var r := PerColumnOf(tags, events, table);
    var ds := r.dir.descriptors;
    forall b | 0 <= b < |ds|
      ensures forall c :: 0 <= c < |r.streams[b]| ==> r.streams[b][c].Some?
      ensures r.dir.Offset(r.dir.Events(), b) == Sum(StreamSizes(r.streams[b]))
              <==> Columnar(table, ds[b], events) || forall e :: 0 <= e < |events| ==>
                EarlierEmpty(events[e], DescriptorId(ds[b]))
    {
      BankStreamsAddUp(table, ds[b], events);
    }
    if StreamsAddUp(r) {
      forall d, e | d in ds && !Columnar(table, d, events) && 0 <= e < |events|
        ensures EarlierEmpty(events[e], DescriptorId(d))
      {
        var b :| 0 <= b < |ds| && ds[b] == d;
      }
    }
  }

  lemma BankStreamsAddUp(table: Table, d: Descriptor, events: seq<seq<Structure>>)
    requires TableOk(table) && Fits(events)
    ensures forall c :: 0 <= c < |BankStreams(table, d, events)| ==> BankStreams(table, d, events)[c].Some?
    ensures Offsets(Sizes(events, DescriptorId(d)))[|events|] == Sum(StreamSizes(BankStreams(table, d, events)))
            <==> Columnar(table, d, events) || forall e :: 0 <= e < |events| ==>
              EarlierEmpty(events[e], DescriptorId(d))
  {
    hide TableOk, BankBytes, Sizes, Offsets, EarlierEmpty, Fits, Sum, Columnar;
    var id := DescriptorId(d);
    BankAddsUp(events, id);
    if Columnar(table, d, events) {
      ColumnsAddUp(table, d, events);
    } else {
      OneStream(BankBytes(events, id));
    }
  }

  lemma OneStream(bytes: seq<byte>)
    ensures Sum(StreamSizes([Some(bytes)])) == |bytes|
  {
    assert StreamSizes([Some(bytes)]) == [] + [|bytes|];
    SumSnoc([], |bytes|);
  }

  /** Without repeats both layouts parse. */
  lemma LosslessParses(tags: seq<u32>, events: seq<seq<Structure>>, table: Table)
    requires |tags| == |events| && TableOk(table) && Fits(events) && Lossless(events)
    ensures ByBankOf(tags, events).Valid() && SizesAddUp(ByBankOf(tags, events))
    ensures PerColumnOf(tags, events, table).Valid() && StreamsAddUp(PerColumnOf(tags, events, table))
  {
    hide TableOk, Describe, Fits, Columnar, SizesAddUp, StreamsAddUp;
    ByBankReadable(tags, events);
    PerColumnReadable(tags, events, table);
  }
}
