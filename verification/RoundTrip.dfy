/** One event stream, three layouts: splitting a record's events and rebuilding them gives the
    events back (src/write/record.rs against src/event/owned.rs and src/event/bank.rs). */
module RoundTrip {
  import opened Arith
  import opened Bytes
  import opened Events
  import opened Schemas
  import opened Records
  import opened Banks
  import opened Layouts
  import opened Reassembly
  import opened SplitParsers

  /** Without repeats the splitter's block is the event's own data. */
  lemma BlockIsData(events: seq<seq<Structure>>, id: Id, e: nat)
    requires Lossless(events) && Fits(events) && e < |events|
    ensures Block(events, id, e) == DataOf(events[e], id)
    ensures Sizes(events, id)[e] == |DataOf(events[e], id)|
  {
    hide BankBytes, DataOf, Sum, LastSize, Fits, Lossless;
    ExtentIsData(events, id, e);
    OneCopyAt(events, id, e);
  }

  lemma OneCopyAt(events: seq<seq<Structure>>, id: Id, e: nat)
    requires Lossless(events) && e < |events|
    ensures Sizes(events, id)[e] == |DataOf(events[e], id)|
  {
    OneCopy(events[e], id);
  }

  // ---- One bank -----------------------------------------------------------

  /** The stored columns of a written record deliver each event's own column. */
  lemma WrittenPart(tags: seq<u32>, events: seq<seq<Structure>>, table: Table, e: nat, b: nat, c: nat)
    requires |tags| == |events| && TableOk(table) && Lossless(events) && Fits(events)
    requires e < |events| && b < |Describe(Flatten(events))|
    requires Columnar(table, Describe(Flatten(events))[b], events)
    requires c < |table[DescriptorId(Describe(Flatten(events))[b])].entries|
    ensures PerColumnOf(tags, events, table).Valid()
    ensures
      var id := DescriptorId(Describe(Flatten(events))[b]);
      PartOf(PerColumnOf(tags, events, table), table[id], e, b, c) == ColumnPart(table[id], DataOf(events[e], id), c)
  {
    hide Lossless, Fits, Exact, Sum, Block, ColumnPart, Entry.Span, DataOf, Describe, Directory.Valid, LastSize;
    RecordsValid(tags, events, table);
    var r := PerColumnOf(tags, events, table);
    var id := DescriptorId(Describe(Flatten(events))[b]);
    var s, sizes := table[id], Sizes(events, id);
    var parts := ColumnParts(s, events, id, c);
    StoredExtent(tags, events, e, b);
    assert forall i :: 0 <= i < |events| ==> sizes[i] % s.rowSize == 0;
    assert r.Stream(b, c) == Some(Flatten(parts));
    PartPositions(s, events, id, c, e);
    FlattenSlice(parts, e);
    BlockIsData(events, id, e);
    WholePart(s, Block(events, id, e), c);
  }

  /** The directory's extent of a bank: the sum of the earlier data, and this event's. */
  lemma StoredExtent(tags: seq<u32>, events: seq<seq<Structure>>, e: nat, b: nat)
    requires |tags| == |events| && Lossless(events) && Fits(events)
    requires e < |events| && b < |Describe(Flatten(events))|
    ensures DirectoryOf(tags, events).Valid()
    ensures
      var d, id := DirectoryOf(tags, events), DescriptorId(Describe(Flatten(events))[b]);
      && d.Offset(e, b) == Sum(Sizes(events, id)[..e])
      && d.Size(e, b) == |DataOf(events[e], id)|
      && d.Offset(e + 1, b) <= |BankBytes(events, id)|
      && BankBytes(events, id)[d.Offset(e, b)..d.Offset(e + 1, b)] == DataOf(events[e], id)
  {
    hide Lossless, Fits, Sum, Describe, Sizes, BankBytes, DataOf, Offsets, Directory.Valid;
    DirectoryValid(tags, events);
    ExtentIsData(events, DescriptorId(Describe(Flatten(events))[b]), e);
  }

  /** Filling the columns one after the other rebuilds the block from its front. */
  lemma {:induction false} FilledPrefix(r: PerColumnRecord, s: Schema, e: nat, b: nat, data: seq<byte>, c: nat)
    requires r.Valid() && r.dir.Holds(e, b) && Exact(s) && s.rowSize > 0 && c <= |s.entries|
    requires |data| == r.dir.Size(e, b) && |data| % s.rowSize == 0
    requires forall k :: 0 <= k < |s.entries| ==> PartOf(r, s, e, b, k) == ColumnPart(s, data, k)
    ensures Reach(s, |data|, c) <= |data|
    ensures Filled(r, s, e, b, c)[..Reach(s, |data|, c)] == data[..Reach(s, |data|, c)]
  {
    hide Exact, Entry.Start, Entry.Span, Directory.Valid, Filled, RowPrefix, PartOf, RowsIn, Reach, ColumnPart,
         StreamBytes,
         Overlay;
    var rows := RowsIn(|data|, s.rowSize);
    if c == 0 {
      PrefixOfNothing(s, |data|);
    } else {
      ReachOf(s, |data|, c - 1);
      FilledPrefix(r, s, e, b, data, c - 1);
      FilledStep(r, s, e, b, c - 1);
      PartUnfold(r, s, e, b, c - 1);
      WholePart(s, data, c - 1);
      GrowPrefix(Filled(r, s, e, b, c - 1), data, s.entries[c - 1].Start(rows), ColumnPart(s, data, c - 1));
    }
  }

  /** How far the first `c` columns reach into a bank of `size` bytes. */
  function Reach(s: Schema, size: nat, c: nat): nat
    requires c <= |s.entries|
  {
    Times(RowsIn(size, s.rowSize), RowPrefix(s.entries, c))
  }

  lemma PrefixOfNothing(s: Schema, size: nat)
    ensures Reach(s, size, 0) == 0
  {
  }

  lemma ReachOf(s: Schema, size: nat, c: nat)
    requires Exact(s) && c < |s.entries|
    ensures
      var rows := RowsIn(size, s.rowSize);
      && Reach(s, size, c) == s.entries[c].Start(rows)
      && Reach(s, size, c + 1) == s.entries[c].Start(rows) + s.entries[c].Span(rows)
  {
    hide Exact, RowPrefix, Entry.Start, Entry.Span, RowsIn;
    ColumnInside(s, RowsIn(size, s.rowSize), c);
  }

  lemma PartUnfold(r: PerColumnRecord, s: Schema, e: nat, b: nat, c: nat)
    requires r.Valid() && r.dir.Holds(e, b) && c < |s.entries|
    ensures PartOf(r, s, e, b, c)
            == StreamBytes(r.Stream(b, c), s.entries[c], RowsIn(r.dir.Offset(e, b), s.rowSize), RowsIn(r.dir.Size(e, b), s.rowSize))
  {
  }

  lemma GrowPrefix(img: seq<byte>, data: seq<byte>, at: nat, part: seq<byte>)
    requires |img| == |data| && at + |part| <= |data|
    requires img[..at] == data[..at] && data[at..at + |part|] == part
    ensures Overlay(img, at, part)[..at + |part|] == data[..at + |part|]
  {
    var after := Overlay(img, at, part);
    assert after[..at + |part|] == after[..at] + after[at..at + |part|];
    assert after[..at] == img[..at];
    assert data[..at + |part|] == data[..at] + data[at..at + |part|];
  }

  lemma FilledWhole(r: PerColumnRecord, s: Schema, e: nat, b: nat, data: seq<byte>)
    requires r.Valid() && r.dir.Holds(e, b) && Exact(s) && s.rowSize > 0
    requires |data| == r.dir.Size(e, b) && |data| % s.rowSize == 0
    requires forall k :: 0 <= k < |s.entries| ==> PartOf(r, s, e, b, k) == ColumnPart(s, data, k)
    ensures Filled(r, s, e, b, |s.entries|) == data
  {
    hide Directory.Valid, Filled, RowPrefix, PartOf, Exact;
    FilledPrefix(r, s, e, b, data, |s.entries|);
    RowsMakeAll(s, |data|);
    var img := Filled(r, s, e, b, |s.entries|);
    assert img[..|data|] == img && data[..|data|] == data;
  }

  /** Either split layout, rebuilt bank by bank: every event's bank is its own data again. */
  lemma ImageIsData(tags: seq<u32>, events: seq<seq<Structure>>, table: Table, e: nat, b: nat)
    requires |tags| == |events| && TableOk(table) && Lossless(events) && Fits(events)
    requires e < |events| && b < |Describe(Flatten(events))|
    ensures ByBankOf(tags, events).Valid() && PerColumnOf(tags, events, table).Valid()
    ensures
      var data := DataOf(events[e], DescriptorId(Describe(Flatten(events))[b]));
      && Image(OfBanks(ByBankOf(tags, events)), table, e, b) == data
      && Image(OfColumns(PerColumnOf(tags, events, table)), table, e, b) == data
  {
    hide Lossless, Fits, Describe, BankBytes, DataOf, Directory.Valid, Filled, PartOf, ColumnPart, LastSize;
    RecordsValid(tags, events, table);
    StoredExtent(tags, events, e, b);
    var id := DescriptorId(Describe(Flatten(events))[b]);
    if Columnar(table, Describe(Flatten(events))[b], events) {
      var r, s := PerColumnOf(tags, events, table), table[id];
      SomeColumn(s);
      forall c | 0 <= c < |s.entries|
        ensures PartOf(r, s, e, b, c) == ColumnPart(s, DataOf(events[e], id), c)
      {
        WrittenPart(tags, events, table, e, b, c);
      }
      BlockIsData(events, id, e);
      FilledWhole(r, s, e, b, DataOf(events[e], id));
    }
  }

  // ---- Whole events -------------------------------------------------------

  /** The structures a rebuilt event is made of: one a present bank, in directory order. */
  function Rebuilt(r: Split, table: Table, e: nat, n: nat): (ss: seq<Structure>)
    requires r.Valid() && e < r.Dir().Events() && n <= r.Dir().Banks()
  {
    if n == 0 then []
    else Rebuilt(r, table, e, n - 1) + if r.Dir().Has(e, n - 1) then [RebuiltBank(r, table, e, n - 1)] else []
  }

  function RebuiltBank(r: Split, table: Table, e: nat, b: nat): Structure
    requires r.Valid() && r.Dir().Holds(e, b)
  {
    Structure(HeaderFor(r.Dir().descriptors[b], r.Dir().Size(e, b)), Image(r, table, e, b))
  }

  /** Every bank of the event is small enough for its size word. */
  ghost predicate SmallBanks(d: Directory, e: nat)
    requires d.Valid() && e < d.Events()
  {
    forall b :: 0 <= b < d.Banks() ==> d.Size(e, b) < U24_LIMIT
  }

  lemma {:induction false} BodyIsEncoded(r: Split, table: Table, e: nat, n: nat)
    requires r.Valid() && e < r.Dir().Events() && n <= r.Dir().Banks() && SmallBanks(r.Dir(), e)
    ensures Body(r, table, e, n) == Encode(Rebuilt(r, table, e, n))
    ensures forall s :: s in Rebuilt(r, table, e, n) ==> Encodable(s)
  {
    hide Directory.Valid, Image, BankHeader, HeaderBytes, Encode;
    if n == 0 {
      NothingEncoded();
    } else {
      BodyIsEncoded(r, table, e, n - 1);
      if r.Dir().Has(e, n - 1) {
        SmallHeader(r.Dir().descriptors[n - 1], r.Dir().Size(e, n - 1));
        var last := RebuiltBank(r, table, e, n - 1);
        assert Encodable(last);
        assert BankBytesOf(r, table, e, n - 1) == StructureBytes(last);
        EncodeSnoc(Rebuilt(r, table, e, n - 1), last);
      } else {
        assert Rebuilt(r, table, e, n) == Rebuilt(r, table, e, n - 1);
        assert Body(r, table, e, n) == Body(r, table, e, n - 1);
      }
    }
  }

  /** Rebuilt structures come in ascending id order, so none repeats. */
  lemma {:induction false} RebuiltAscends(r: Split, table: Table, e: nat, n: nat)
    requires r.Valid() && e < r.Dir().Events() && n <= r.Dir().Banks()
    ensures forall i, j :: 0 <= i < j < |Rebuilt(r, table, e, n)| ==>
              IdLess(IdOf(Rebuilt(r, table, e, n)[i]), IdOf(Rebuilt(r, table, e, n)[j]))
    ensures forall s :: s in Rebuilt(r, table, e, n) ==>
              exists b :: 0 <= b < n && r.Dir().Has(e, b) && s == RebuiltBank(r, table, e, b)
    ensures forall b :: 0 <= b < n && r.Dir().Has(e, b) ==> RebuiltBank(r, table, e, b) in Rebuilt(r, table, e, n)
  {
    hide Image;
    if n > 0 {
      RebuiltAscends(r, table, e, n - 1);
      if r.Dir().Has(e, n - 1) {
        var prev, last := Rebuilt(r, table, e, n - 1), RebuiltBank(r, table, e, n - 1);
        forall i | 0 <= i < |prev|
          ensures IdLess(IdOf(prev[i]), IdOf(last))
        {
          assert prev[i] in prev;
          var b :| 0 <= b < n - 1 && r.Dir().Has(e, b) && prev[i] == RebuiltBank(r, table, e, b);
        }
        forall s | s in prev + [last]
          ensures exists b :: 0 <= b < n && r.Dir().Has(e, b) && s == RebuiltBank(r, table, e, b)
        {
          if s in prev {
            var b :| 0 <= b < n - 1 && r.Dir().Has(e, b) && s == RebuiltBank(r, table, e, b);
          } else {
            assert s == RebuiltBank(r, table, e, n - 1);
          }
        }
        forall b | 0 <= b < n && r.Dir().Has(e, b)
          ensures RebuiltBank(r, table, e, b) in prev + [last]
        {
          if b == n - 1 {
            assert (prev + [last])[|prev|] == last;
          }
        }
      }
    }
  }

  lemma RebuiltNeverRepeats(r: Split, table: Table, e: nat)
    requires r.Valid() && e < r.Dir().Events()
    ensures NoRepeats(Rebuilt(r, table, e, r.Dir().Banks()))
  {
    RebuiltAscends(r, table, e, r.Dir().Banks());
  }

  /** A bank keeps one type byte and one header size over the whole record. */
  ghost predicate Uniform(events: seq<seq<Structure>>)
  {
    forall s, t :: s in Flatten(events) && t in Flatten(events) && IdOf(s) == IdOf(t) ==>
      s.header.ty == t.header.ty && s.header.headerSize == t.header.headerSize
  }

  ghost predicate Sourced(d: Descriptor, ss: seq<Structure>)
  {
    && (exists s :: s in ss && IdOf(s) == DescriptorId(d) && s.header.ty == d.ty)
    && (exists s :: s in ss && IdOf(s) == DescriptorId(d) && s.header.headerSize == d.headerSize)
  }

  /** What the table keeps of a bank, some structure of that bank had. */
  lemma {:induction false} DescribeSourced(ss: seq<Structure>)
    ensures forall d :: d in Describe(ss) ==> Sourced(d, ss)
  {
    hide Sourced, Note;
    if ss != [] {
      var n := |ss| - 1;
      var ds := Describe(ss[..n]);
      DescribeSourced(ss[..n]);
      DescribeAscends(ss[..n]);
      forall d | d in Describe(ss)
        ensures Sourced(d, ss)
      {
        assert ss == ss[..n] + [ss[n]];
        NoteSourced(ds, ss[..n], ss[n], d);
      }
    }
  }

  lemma NoteSourced(ds: seq<Descriptor>, ss: seq<Structure>, s: Structure, d: Descriptor)
    requires Ascending(ds) && forall x :: x in ds ==> Sourced(x, ss)
    requires d in Note(ds, s)
    ensures Sourced(d, ss + [s])
  {
    hide Sourced;
    var h := s.header;
    match IndexOf(ds, IdOf(s)) {
      case Some(i) =>
        assert ds[i] in ds;
        StillSourced(ds[i], ss, s);
        if d == ds[i].(headerSize := Max(ds[i].headerSize, h.headerSize)) {
          MaxSourced(ds[i], ss, s);
        } else {
          assert d in ds;
          StillSourced(d, ss, s);
        }
      case None =>
        InsertKeeps(ds, Descriptor(h.group, h.item, h.ty, h.headerSize));
        if d in ds {
          StillSourced(d, ss, s);
        } else {
          FreshSourced(ss, s);
        }
    }
  }

  lemma StillSourced(d: Descriptor, ss: seq<Structure>, s: Structure)
    requires Sourced(d, ss)
    ensures Sourced(d, ss + [s])
  {
    var a :| a in ss && IdOf(a) == DescriptorId(d) && a.header.ty == d.ty;
    var b :| b in ss && IdOf(b) == DescriptorId(d) && b.header.headerSize == d.headerSize;
    assert a in ss + [s] && b in ss + [s];
  }

  lemma MaxSourced(d: Descriptor, ss: seq<Structure>, s: Structure)
    requires Sourced(d, ss) && DescriptorId(d) == IdOf(s)
    ensures Sourced(d.(headerSize := Max(d.headerSize, s.header.headerSize)), ss + [s])
  {
    StillSourced(d, ss, s);
    assert s in ss + [s];
  }

  lemma FreshSourced(ss: seq<Structure>, s: Structure)
    ensures Sourced(Descriptor(s.header.group, s.header.item, s.header.ty, s.header.headerSize), ss + [s])
  {
    assert s in ss + [s];
  }

  // ---- The main laws ------------------------------------------------------

  /** A record's events as raw bytes, as the writer parses them. */
  function Parsed(evs: seq<seq<byte>>): (events: seq<seq<Structure>>)
    ensures |events| == |evs|
  {
    seq(|evs|, e requires 0 <= e < |evs| => Structures(evs[e]))
  }

  function Tags(evs: seq<seq<byte>>): (tags: seq<u32>)
    ensures |tags| == |evs|
  {
    seq(|evs|, e requires 0 <= e < |evs| => EventTag(evs[e]))
  }

  datatype Layout = PerBank | PerColumn

  function Written(layout: Layout, evs: seq<seq<byte>>, table: Table): Split
  {
    match layout
    case PerBank => OfBanks(ByBankOf(Tags(evs), Parsed(evs)))
    case PerColumn => OfColumns(PerColumnOf(Tags(evs), Parsed(evs), table))
  }

  lemma WrittenShape(layout: Layout, evs: seq<seq<byte>>, table: Table)
    requires TableOk(table)
    ensures
      var r := Written(layout, evs, table);
      && r.Valid() && r.Dir() == DirectoryOf(Tags(evs), Parsed(evs)) && r.Dir().Valid()
      && r.Dir().Events() == |evs|
      && r.Dir().descriptors == Describe(Flatten(Parsed(evs)))
  {
    hide DirectoryOf, Describe, Directory.Valid;
    RecordsValid(Tags(evs), Parsed(evs), table);
    DirectoryShape(Tags(evs), Parsed(evs));
  }

  /** Which written records are read at all: by bank, no event repeats a bank after a copy that had
      bytes; by column, no event so repeats a bank that is stored whole. */
  ghost predicate Readable(layout: Layout, events: seq<seq<Structure>>, table: Table)
  {
    match layout
    case PerBank => forall e :: 0 <= e < |events| ==> EarlierCopiesEmpty(events[e])
    case PerColumn => OpaqueOnce(table, events)
  }

  /** The parsers refuse a written record exactly when it is not so. */
  lemma ParsesIff(layout: Layout, evs: seq<seq<byte>>, table: Table)
    requires TableOk(table) && Fits(Parsed(evs))
    ensures Written(layout, evs, table).Valid()
    ensures Parses(Written(layout, evs, table)) <==> Readable(layout, Parsed(evs), table)
  {
    hide TableOk, Fits, SizesAddUp, StreamsAddUp, OpaqueOnce, EarlierCopiesEmpty;
    ByBankReadable(Tags(evs), Parsed(evs));
    PerColumnReadable(Tags(evs), Parsed(evs), table);
  }

  lemma DirectoryShape(tags: seq<u32>, events: seq<seq<Structure>>)
    requires |tags| == |events|
    ensures DirectoryOf(tags, events).tags == tags
    ensures DirectoryOf(tags, events).descriptors == Describe(Flatten(events))
  {
  }

  lemma ParsedEncodable(evs: seq<seq<byte>>, e: nat)
    requires e < |evs|
    ensures forall s :: s in Parsed(evs)[e] ==> Encodable(s)
  {
    WalkIsEncoded(evs[e], EVENT_HEADER_SIZE, WalkEnd(evs[e]));
  }

  lemma {:induction false} LastSizeSmall(ss: seq<Structure>, id: Id)
    requires forall s :: s in ss ==> Encodable(s)
    ensures LastSize(ss, id) < U24_LIMIT
    decreases |ss|
  {
    if ss != [] {
      assert ss[|ss| - 1] in ss;
      LastSizeSmall(ss[..|ss| - 1], id);
      CopiesStep(ss, id);
    }
  }

  /** Every bank of a written record fits its size word again. */
  lemma WrittenSmall(layout: Layout, evs: seq<seq<byte>>, table: Table, e: nat)
    requires TableOk(table) && e < |evs|
    ensures Written(layout, evs, table).Valid() && Written(layout, evs, table).Dir().Valid()
    ensures e < Written(layout, evs, table).Dir().Events()
    ensures SmallBanks(Written(layout, evs, table).Dir(), e)
  {
    hide Written, Describe, Structures, Directory.Valid, LastSize, Sum;
    WrittenShape(layout, evs, table);
    var d := Written(layout, evs, table).Dir();
    forall b | 0 <= b < d.Banks()
      ensures d.Size(e, b) < U24_LIMIT
    {
      var id := DescriptorId(d.descriptors[b]);
      var sizes := Sizes(Parsed(evs), id);
      ParsedEncodable(evs, e);
      LastSizeSmall(Parsed(evs)[e], id);
      SumTake(sizes, e);
    }
  }

  /** The walk over a rebuilt event never shows a bank twice, nor one the record does not hold. */
  lemma ShowsRebuilt(layout: Layout, evs: seq<seq<byte>>, table: Table, e: nat)
    requires TableOk(table) && e < |evs|
    ensures Written(layout, evs, table).Valid() && e < Written(layout, evs, table).Dir().Events()
    ensures
      var r := Written(layout, evs, table);
      && Structures(Synthesized(r, table, e)) <= Rebuilt(r, table, e, r.Dir().Banks())
      && (|Synthesized(r, table, e)| < U32_LIMIT ==> Structures(Synthesized(r, table, e)) == Rebuilt(r, table, e, r.Dir().Banks()))
  {
    hide Written, Structures, SmallBanks, Rebuilt, Body, Directory.Valid, EventBytes, Encode;
    WrittenSmall(layout, evs, table, e);
    var r := Written(layout, evs, table);
    var ss := Rebuilt(r, table, e, r.Dir().Banks());
    BodyIsEncoded(r, table, e, r.Dir().Banks());
    EventYieldsPrefix(r.Dir().tags[e], [0, 0, 0, 0], ss);
    if |Synthesized(r, table, e)| < U32_LIMIT {
      EventReadsBack(r.Dir().tags[e], [0, 0, 0, 0], ss);
    }
  }

  /** The rebuilt event has the original tag, a true size word and a zero reserved word. */
  lemma RebuiltHeader(layout: Layout, evs: seq<seq<byte>>, table: Table, e: nat)
    requires TableOk(table) && e < |evs|
    ensures Written(layout, evs, table).Valid() && e < Written(layout, evs, table).Dir().Events()
    ensures
      var ev := Synthesized(Written(layout, evs, table), table, e);
      && EventTag(ev) == EventTag(evs[e]) && EventSize(ev) == |ev| % U32_LIMIT
      && ev[..4] == EVENT_MAGIC && ev[EH_RESERVED..EVENT_HEADER_SIZE] == [0, 0, 0, 0]
  {
    hide Written, Body, EventBytes, EventTag, EventSize, Directory.Valid;
    WrittenShape(layout, evs, table);
    DirectoryShape(Tags(evs), Parsed(evs));
    var r := Written(layout, evs, table);
    EventWords(r.Dir().tags[e], [0, 0, 0, 0], Body(r, table, e, r.Dir().Banks()));
  }

  /** A present bank is rebuilt as the very structure the event carried, when no event repeats a
      bank and the bank looks the same across the record. */
  lemma RebuiltIsOriginal(layout: Layout, evs: seq<seq<byte>>, table: Table, e: nat, b: nat)
    requires TableOk(table) && e < |evs|
    requires Lossless(Parsed(evs)) && Uniform(Parsed(evs)) && Fits(Parsed(evs))
    requires Written(layout, evs, table).Valid() && Written(layout, evs, table).Dir().Holds(e, b)
    ensures
      var r := Written(layout, evs, table);
      var found := FirstWith(Parsed(evs)[e], DescriptorId(r.Dir().descriptors[b]));
      && (r.Dir().Valid() ==> r.Dir().Has(e, b) <==> found.Some?)
      && (found.Some? ==> RebuiltBank(r, table, e, b) == found.value)
  {
    hide Lossless, Uniform, Fits, Describe, Structures, Directory.Valid, DataOf, Sum, Sizes, BankBytes;
    WrittenShape(layout, evs, table);
    var events := Parsed(evs);
    var r := Written(layout, evs, table);
    var d := r.Dir().descriptors[b];
    var id := DescriptorId(d);
    PresentIffFound(Tags(evs), events, e, b);
    StoredExtent(Tags(evs), events, e, b);
    ImageIsData(Tags(evs), events, table, e, b);
    if FirstWith(events[e], id).Some? {
      var s := FirstWith(events[e], id).value;
      ParsedEncodable(evs, e);
      DataOfFound(events[e], id);
      SameLooks(events, e, s, b);
    }
  }

  lemma DataOfFound(ss: seq<Structure>, id: Id)
    requires FirstWith(ss, id).Some?
    ensures DataOf(ss, id) == FirstWith(ss, id).value.data
  {
  }

  lemma PresentIffFound(tags: seq<u32>, events: seq<seq<Structure>>, e: nat, b: nat)
    requires |tags| == |events| && e < |events| && b < |Describe(Flatten(events))|
    ensures DirectoryOf(tags, events).Valid()
    ensures DirectoryOf(tags, events).Has(e, b) <==>
      FirstWith(events[e], DescriptorId(Describe(Flatten(events))[b])).Some?
  {
    hide Describe, Directory.Valid, Sizes, Offsets;
    DirectoryValid(tags, events);
    CopiesCarried(events[e], DescriptorId(Describe(Flatten(events))[b]));
  }

  lemma SameLooks(events: seq<seq<Structure>>, e: nat, s: Structure, b: nat)
    requires Uniform(events) && e < |events| && s in events[e] && b < |Describe(Flatten(events))|
    requires DescriptorId(Describe(Flatten(events))[b]) == IdOf(s)
    ensures Describe(Flatten(events))[b].ty == s.header.ty
    ensures Describe(Flatten(events))[b].headerSize == s.header.headerSize
  {
    hide Describe, Flatten;
    DescribeSourced(Flatten(events));
    InFlatten(events, e, s);
    var d := Describe(Flatten(events))[b];
    assert d in Describe(Flatten(events));
  }

  lemma {:induction false} FirstOfUnique(ss: seq<Structure>, s: Structure)
    requires NoRepeats(ss) && s in ss
    ensures FirstWith(ss, IdOf(s)) == Some(s)
  {
    var i :| 0 <= i < |ss| && ss[i] == s;
    if i > 0 {
      assert s == ss[1..][i - 1];
      FirstOfUnique(ss[1..], s);
    }
  }

  /** Forward: splitting and rebuilding keeps every structure of every event. */
  lemma StructuresSurvive(layout: Layout, evs: seq<seq<byte>>, table: Table, e: nat)
    requires TableOk(table) && e < |evs|
    requires Lossless(Parsed(evs)) && Uniform(Parsed(evs)) && Fits(Parsed(evs))
    ensures Written(layout, evs, table).Valid() && e < Written(layout, evs, table).Dir().Events()
    ensures
      var r := Written(layout, evs, table);
      && multiset(Rebuilt(r, table, e, r.Dir().Banks())) == multiset(Structures(evs[e]))
  {
    hide Written, Uniform, Fits, Describe, Structures, Directory.Valid, Rebuilt, RebuiltBank;
    WrittenShape(layout, evs, table);
    var r, ss := Written(layout, evs, table), Parsed(evs)[e];
    var back := Rebuilt(r, table, e, r.Dir().Banks());
    RebuiltAscends(r, table, e, r.Dir().Banks());
    forall s | s in back
      ensures s in ss
    {
      var b :| 0 <= b < r.Dir().Banks() && r.Dir().Has(e, b) && s == RebuiltBank(r, table, e, b);
      RebuiltIsOriginal(layout, evs, table, e, b);
    }
    forall s | s in ss
      ensures s in back
    {
      DescribeFinds(Parsed(evs), e, s);
      var b := IndexOf(r.Dir().descriptors, IdOf(s)).value;
      RebuiltIsOriginal(layout, evs, table, e, b);
      FirstOfUnique(ss, s);
    }
    RebuiltNeverRepeats(r, table, e);
    SameElementsSameMultiset(back, ss);
  }

  lemma {:induction false} EncodeSize(ss: seq<Structure>)
    ensures |Encode(ss)| == Sum(StructureSizes(ss))
  {
    if ss != [] {
      EncodeSize(ss[1..]);
      assert StructureSizes(ss)[1..] == StructureSizes(ss[1..]);
    }
  }

  function StructureSizes(ss: seq<Structure>): (r: seq<nat>)
    ensures |r| == |ss|
  {
    seq(|ss|, i requires 0 <= i < |ss| => BANK_STRUCTURE_SIZE + |ss[i].data|)
  }

  /** Reordering structures does not change how many bytes they take. */
  lemma {:induction false} SameBagSameSize(a: seq<Structure>, b: seq<Structure>)
    requires multiset(a) == multiset(b)
    ensures |Encode(a)| == |Encode(b)|
    decreases |a|
  {
    if a == [] {
      assert |multiset(b)| == |b| == 0;
    } else {
      var x := a[0];
      assert x in multiset(a) && x in multiset(b);
      var i :| 0 <= i < |b| && b[i] == x;
      var b' := b[..i] + b[i + 1..];
      assert a == [x] + a[1..];
      assert b == b[..i] + ([x] + b[i + 1..]);
      assert multiset(a[1..]) == multiset(a) - multiset{x};
      assert multiset(b') == multiset(b) - multiset{x};
      SameBagSameSize(a[1..], b');
      hide StructureBytes;
      EncodeAppend(b[..i], [x] + b[i + 1..]);
      EncodeAppend(b[..i], b[i + 1..]);
      assert ([x] + b[i + 1..])[1..] == b[i + 1..];
    }
  }

  /** What a split layout promises for one event: the record is not refused, and the event rebuilt
      out of it has its structures. */
  ghost predicate ComesBack(layout: Layout, evs: seq<seq<byte>>, table: Table, e: nat)
    requires TableOk(table) && e < |evs|
  {
    WrittenShape(layout, evs, table);
    Parses(Written(layout, evs, table)) && multiset(Structures(Synthesized(Written(layout, evs, table), table, e))) == multiset(Structures(evs[e]))
  }

  /** The layout law. Splitting any record's events into bank or column streams and rebuilding
      them gives every event its structures back, for every event, exactly when no event carries
      a bank twice and each bank keeps one type byte and one header size across the record. */
  lemma SplitRoundTrip(layout: Layout, evs: seq<seq<byte>>, table: Table)
    requires TableOk(table) && Fits(Parsed(evs))
    ensures (forall e :: 0 <= e < |evs| ==> ComesBack(layout, evs, table, e))
            <==> Lossless(Parsed(evs)) && Uniform(Parsed(evs))
  {
    hide Uniform, Lossless, Fits, ComesBack;
    if Lossless(Parsed(evs)) && Uniform(Parsed(evs)) {
      forall e | 0 <= e < |evs|
        ensures ComesBack(layout, evs, table, e)
      {
        FaithfulComesBack(layout, evs, table, e);
      }
    }
    if forall e :: 0 <= e < |evs| ==> ComesBack(layout, evs, table, e) {
      ComesBackFaithful(layout, evs, table);
    }
  }

  lemma FaithfulComesBack(layout: Layout, evs: seq<seq<byte>>, table: Table, e: nat)
    requires TableOk(table) && e < |evs|
    requires Lossless(Parsed(evs)) && Uniform(Parsed(evs)) && Fits(Parsed(evs))
    ensures ComesBack(layout, evs, table, e)
    ensures
      var r := Written(layout, evs, table);
      r.Valid() && e < r.Dir().Events() && |Synthesized(r, table, e)| <= Max(EVENT_HEADER_SIZE, WalkEnd(evs[e]))
  {
    hide Written, Uniform, Lossless, Fits, Structures, Rebuilt, Body, Encode, SmallBanks, Directory.Valid, EventBytes;
    WrittenSmall(layout, evs, table, e);
    var r := Written(layout, evs, table);
    var back := Rebuilt(r, table, e, r.Dir().Banks());
    StructuresSurvive(layout, evs, table, e);
    SameBagSameSize(back, Structures(evs[e]));
    BodyIsEncoded(r, table, e, r.Dir().Banks());
    StructuresInside(evs[e]);
    ShowsRebuilt(layout, evs, table, e);
    FaithfulParses(layout, evs, table);
  }

  lemma FaithfulParses(layout: Layout, evs: seq<seq<byte>>, table: Table)
    requires TableOk(table) && Lossless(Parsed(evs)) && Fits(Parsed(evs))
    ensures Written(layout, evs, table).Valid() && Parses(Written(layout, evs, table))
  {
    hide TableOk, Fits, Lossless, SizesAddUp, StreamsAddUp;
    LosslessParses(Tags(evs), Parsed(evs), table);
  }

  /** An event's structures take no more room than its own bytes. */
  lemma StructuresInside(ev: seq<byte>)
    ensures EVENT_HEADER_SIZE + |Encode(Structures(ev))| <= Max(EVENT_HEADER_SIZE, WalkEnd(ev)) < U32_LIMIT
  {
    WalkIsEncoded(ev, EVENT_HEADER_SIZE, WalkEnd(ev));
    if WalkEnd(ev) < EVENT_HEADER_SIZE {
      NothingEncoded();
    }
  }

  lemma ComesBackFaithful(layout: Layout, evs: seq<seq<byte>>, table: Table)
    requires TableOk(table)
    requires forall e :: 0 <= e < |evs| ==> ComesBack(layout, evs, table, e)
    ensures Lossless(Parsed(evs)) && Uniform(Parsed(evs))
  {
    hide Written, Structures, Rebuilt, Synthesized, Directory.Valid, Describe, RebuiltBank;
    WrittenShape(layout, evs, table);
    var r := Written(layout, evs, table);
    forall e | 0 <= e < |evs|
      ensures NoRepeats(Parsed(evs)[e])
      ensures forall s :: s in Parsed(evs)[e] ==> FromTable(r.Dir().descriptors, s)
    {
      ShowsRebuilt(layout, evs, table, e);
      var shown, ss := Structures(Synthesized(r, table, e)), Parsed(evs)[e];
      RebuiltNeverRepeats(r, table, e);
      assert ComesBack(layout, evs, table, e);
      PrefixNoRepeats(shown, Rebuilt(r, table, e, r.Dir().Banks()));
      BagKeepsNoRepeats(shown, ss);
      forall s | s in ss
        ensures FromTable(r.Dir().descriptors, s)
      {
        assert s in multiset(ss) && s in multiset(shown) && s in shown;
        RebuiltFromTable(r, table, e, s);
      }
    }
    forall s, t | s in Flatten(Parsed(evs)) && t in Flatten(Parsed(evs)) && IdOf(s) == IdOf(t)
      ensures s.header.ty == t.header.ty && s.header.headerSize == t.header.headerSize
    {
      hide Flatten;
      FlattenMember(Parsed(evs), s);
      FlattenMember(Parsed(evs), t);
      DescribeAscends(Flatten(Parsed(evs)));
      OneDescriptor(r.Dir().descriptors, s, t);
    }
  }

  ghost predicate FromTable(ds: seq<Descriptor>, s: Structure)
  {
    exists b :: 0 <= b < |ds| && DescriptorId(ds[b]) == IdOf(s) && s.header.ty == ds[b].ty && s.header.headerSize == ds[b].headerSize
  }

  lemma OneDescriptor(ds: seq<Descriptor>, s: Structure, t: Structure)
    requires Ascending(ds) && FromTable(ds, s) && FromTable(ds, t) && IdOf(s) == IdOf(t)
    ensures s.header.ty == t.header.ty && s.header.headerSize == t.header.headerSize
  {
    var a :| 0 <= a < |ds| && DescriptorId(ds[a]) == IdOf(s) && s.header.ty == ds[a].ty && s.header.headerSize == ds[a].headerSize;
    var b :| 0 <= b < |ds| && DescriptorId(ds[b]) == IdOf(t) && t.header.ty == ds[b].ty && t.header.headerSize == ds[b].headerSize;
    AscendingUnique(ds, a, b);
  }

  lemma AscendingUnique(ds: seq<Descriptor>, a: nat, b: nat)
    requires Ascending(ds) && a < |ds| && b < |ds|
    ensures DescriptorId(ds[a]) == DescriptorId(ds[b]) ==> a == b
  {
  }

  lemma PrefixNoRepeats(a: seq<Structure>, b: seq<Structure>)
    requires a <= b && NoRepeats(b)
    ensures NoRepeats(a)
  {
  }

  lemma SeenTwice<T>(b: seq<T>, i: nat, j: nat)
    requires i < j < |b|
    ensures b[i] == b[j] ==> multiset(b)[b[i]] >= 2
  {
    assert b == b[..i] + [b[i]] + b[i + 1..j] + [b[j]] + b[j + 1..];
  }

  lemma RebuiltFromTable(r: Split, table: Table, e: nat, s: Structure)
    requires r.Valid() && e < r.Dir().Events()
    requires s in Rebuilt(r, table, e, r.Dir().Banks())
    ensures FromTable(r.Dir().descriptors, s)
  {
    RebuiltAscends(r, table, e, r.Dir().Banks());
    var b :| 0 <= b < r.Dir().Banks() && r.Dir().Has(e, b) && s == RebuiltBank(r, table, e, b);
    assert DescriptorId(r.Dir().descriptors[b]) == IdOf(s);
  }

  /** A list with the elements of a repeat-free list's prefix repeats no id either. */
  lemma BagKeepsNoRepeats(a: seq<Structure>, b: seq<Structure>)
    requires multiset(a) == multiset(b) && NoRepeats(a)
    ensures NoRepeats(b)
  {
    forall i, j | 0 <= i < j < |b|
      ensures IdOf(b[i]) != IdOf(b[j])
    {
      var x, y := b[i], b[j];
      assert x in multiset(b) && y in multiset(b);
      DistinctMultiplicity(a);
      SeenTwice(b, i, j);
      var m :| 0 <= m < |a| && a[m] == x;
      var n :| 0 <= n < |a| && a[n] == y;
    }
  }
}
