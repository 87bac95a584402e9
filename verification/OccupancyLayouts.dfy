/** Counting from directory extents against counting by walking the events
    (src/read/occupancy.rs). */
module OccupancyLayouts {
  import opened Bytes
  import opened Events
  import opened Schemas
  import opened Records
  import opened Reassembly
  import opened Layouts
  import opened SplitParsers
  import opened RoundTrip
  import opened Dictionaries
  import opened Filters
  import opened EventIters
  import opened RecordScans
  import opened Occupancies

  /** No two dictionary entries share an identifier. */
  predicate Distinct(schemas: seq<BankKey>)
  {
    forall i, j :: 0 <= i < j < |schemas| ==> schemas[i].id != schemas[j].id
  }

  function RowsOfCopies(cs: seq<seq<byte>>, rowSize: nat): (r: seq<nat>)
    requires rowSize > 0
    ensures |r| == |cs|
  {
    seq(|cs|, i requires 0 <= i < |cs| => |cs[i]| / rowSize)
  }

  /** The walk notes every copy of the bank. */
  lemma {:induction false} WalkIsCopies(schemas: seq<BankKey>, ss: seq<Structure>, k: nat)
    requires Distinct(schemas) && k < |schemas| && schemas[k].rowSize > 0
    ensures WalkRows(schemas, ss, k) == RowsOfCopies(Copies(ss, schemas[k].id), schemas[k].rowSize)
    decreases |ss|
  {
    if ss != [] {
      var n := |ss| - 1;
      WalkIsCopies(schemas, ss[..n], k);
      assert Position(schemas, IdOf(ss[n])) == Some(k) <==> IdOf(ss[n]) == schemas[k].id;
    }
  }

  /** No bank's cumulative sizes reach the u32 ceiling of the offset table. */
  ghost predicate Unsaturated(events: seq<seq<Structure>>)
  {
    forall id :: Sum(Sizes(events, id)) <= U32_MAX
  }

  /** The directory's extent is the last copy's size. */
  lemma ExtentIsLastSize(tags: seq<u32>, events: seq<seq<Structure>>, e: nat, b: nat)
    requires |tags| == |events| && Unsaturated(events) && e < |events|
    requires b < |DirectoryOf(tags, events).descriptors|
    ensures DirectoryOf(tags, events).Valid() && DirectoryOf(tags, events).Holds(e, b)
    ensures DirectoryOf(tags, events).Size(e, b)
      == LastSize(events[e], DescriptorId(DirectoryOf(tags, events).descriptors[b]))
    ensures DirectoryOf(tags, events).Has(e, b) <==>
      Copies(events[e], DescriptorId(DirectoryOf(tags, events).descriptors[b])) != []
  {
    hide Describe, Describes, LastSize;
    DirectoryValid(tags, events);
    var id := DescriptorId(DirectoryOf(tags, events).descriptors[b]);
    var sizes := Sizes(events, id);
    SumTake(sizes, e);
    SumMonotone(sizes, e + 1, |sizes|);
    assert sizes[..|sizes|] == sizes;
  }

  /** What the directory gives against what the walk notes: the last of them. */
  predicate LastOnly(dir: seq<nat>, walk: seq<nat>)
  {
    dir == if walk == [] then [] else [walk[|walk| - 1]]
  }

  lemma {:induction false} DirectoryIsLast(schemas: seq<BankKey>, tags: seq<u32>, events: seq<seq<Structure>>, e: nat,
      k: nat)
    requires Distinct(schemas) && k < |schemas| && schemas[k].rowSize > 0
    requires |tags| == |events| && Unsaturated(events) && e < |events|
    ensures DirectoryOf(tags, events).Valid() && DirectoryOf(tags, events).Events() == |events|
    ensures LastOnly(DirectoryRows(schemas, DirectoryOf(tags, events), e, k), WalkRows(schemas, events[e], k))
  {
    hide Describe, Sizes, Unsaturated, WalkRows, Directory.Valid, Offsets;
    var d := DirectoryOf(tags, events);
    DirectoryValid(tags, events);
    WalkIsCopies(schemas, events[e], k);
    DirectoryAnswers(tags, events, e, schemas[k].id);
    CopiesCarried(events[e], schemas[k].id);
    var b := IndexOf(d.descriptors, schemas[k].id);
    if b.Some? {
      ExtentIsLastSize(tags, events, e, b.value);
    }
  }

  /** Every note but the last of the event is of no rows. */
  predicate EarlierRowless(walk: seq<nat>)
  {
    forall i :: 0 <= i < |walk| - 1 ==> walk[i] == 0
  }

  lemma {:induction false} ZerosCountNothing(zeros: seq<nat>, x: nat)
    requires forall i :: 0 <= i < |zeros| ==> zeros[i] == 0
    ensures TallyOf(zeros + [x]) == TallyOf([x]) && Sum(zeros) == 0
  {
    TallySnoc(zeros, x);
    TallySnoc([], x);
    assert [] + [x] == [x];
    if zeros != [] {
      var n := |zeros| - 1;
      ZerosCountNothing(zeros[..n], 0);
      assert zeros[..n] + [0] == zeros;
      TallySnoc([], 0);
      assert [] + [0] == [0];
      SumSnoc(zeros[..n], 0);
    }
  }

  lemma SameEventTally(dir: seq<nat>, walk: seq<nat>)
    requires LastOnly(dir, walk)
    ensures EarlierRowless(walk) ==> TallyOf(dir) == TallyOf(walk)
    ensures Sum(dir) <= Sum(walk) && (Sum(dir) == Sum(walk) <==> EarlierRowless(walk))
  {
    if walk != [] {
      var n := |walk| - 1;
      assert walk == walk[..n] + [walk[n]];
      SumSnoc(walk[..n], walk[n]);
      SumSnoc([], walk[n]);
      assert [] + [walk[n]] == dir;
      if EarlierRowless(walk) {
        ZerosCountNothing(walk[..n], walk[n]);
      } else {
        var i :| 0 <= i < n && walk[i] != 0;
        SumAtLeast(walk[..n], i);
      }
    }
  }

  lemma {:induction false} SumAtLeast(xs: seq<nat>, i: nat)
    requires i < |xs|
    ensures xs[i] <= Sum(xs)
  {
    if i > 0 {
      SumAtLeast(xs[1..], i - 1);
    }
  }

  ghost predicate InStep(dir: seq<seq<nat>>, walk: seq<seq<nat>>)
  {
    |dir| == |walk| && forall i :: 0 <= i < |dir| ==> LastOnly(dir[i], walk[i])
  }

  ghost predicate AllRowless(walk: seq<seq<nat>>)
  {
    forall i :: 0 <= i < |walk| ==> EarlierRowless(walk[i])
  }

  /** Over any events the two counts agree exactly when no event carries an earlier copy of the
      bank with rows in it. */
  lemma {:induction false} TalliesAgreeIff(dir: seq<seq<nat>>, walk: seq<seq<nat>>)
    requires InStep(dir, walk)
    ensures AllRowless(walk) ==> TallyOf(Flatten(dir)) == TallyOf(Flatten(walk))
    ensures Sum(Flatten(dir)) <= Sum(Flatten(walk)) && (Sum(Flatten(dir)) == Sum(Flatten(walk)) <==> AllRowless(walk))
  {
    hide TallyOf, Sum, LastOnly, EarlierRowless;
    if dir != [] {
      TalliesAgreeIff(dir[1..], walk[1..]);
      SameEventTally(dir[0], walk[0]);
      MergedIsTogether(dir[0], Flatten(dir[1..]));
      MergedIsTogether(walk[0], Flatten(walk[1..]));
      SumAppend(dir[0], Flatten(dir[1..]));
      SumAppend(walk[0], Flatten(walk[1..]));
      assert AllRowless(walk) <==> EarlierRowless(walk[0]) && AllRowless(walk[1..]) by {
        assert forall i :: 1 <= i < |walk| ==> walk[i] == walk[1..][i - 1];
      }
    }
  }

  lemma AgreeExactly(dir: seq<seq<nat>>, walk: seq<seq<nat>>)
    requires InStep(dir, walk)
    ensures TallyOf(Flatten(dir)) == TallyOf(Flatten(walk)) <==> AllRowless(walk)
  {
    hide Flatten, TallyOf, Sum, AllRowless;
    TalliesAgreeIff(dir, walk);
    TallyMeans(Flatten(dir));
    TallyMeans(Flatten(walk));
  }

  // ---- A record in either layout --------------------------------------------------

  function RowLists(schemas: seq<BankKey>, c: Content, es: seq<nat>, k: nat): (r: seq<seq<nat>>)
    requires k < |schemas| && c.Valid() && forall i :: 0 <= i < |es| ==> es[i] < c.Count()
    ensures |r| == |es|
  {
    seq(|es|, i requires 0 <= i < |es| => EventRows(schemas, c, es[i], k))
  }

  lemma {:induction false} RecordRowsAreFlat(schemas: seq<BankKey>, c: Content, es: seq<nat>, k: nat)
    requires k < |schemas| && c.Valid() && forall i :: 0 <= i < |es| ==> es[i] < c.Count()
    ensures RecordRows(schemas, c, es, k) == Flatten(RowLists(schemas, c, es, k))
    decreases |es|
  {
    hide Content.Valid, EventRows, Flatten;
    if es == [] {
      assert RowLists(schemas, c, es, k) == [];
      FlattenNothing();
    } else {
      var n := |es| - 1;
      RecordRowsAreFlat(schemas, c, es[..n], k);
      assert RowLists(schemas, c, es, k) == RowLists(schemas, c, es[..n], k) + [EventRows(schemas, c, es[n], k)];
      FlattenSnoc(RowLists(schemas, c, es[..n], k), EventRows(schemas, c, es[n], k));
    }
  }

  lemma FlattenNothing()
    ensures Flatten<nat>([]) == []
  {
  }

  /** A blob record of these events. */
  ghost predicate BlobOf(c: Content, evs: seq<seq<byte>>)
  {
    c.Blob? && c.Valid() && c.Count() == |evs| && forall e :: 0 <= e < |evs| ==> EventAt(c, e) == BlobEvent(evs[e])
  }

  /** What reading a written split record gives: its content, or the parser's refusal. */
  ghost function StoredAs(layout: RoundTrip.Layout, evs: seq<seq<byte>>, table: Table): (stored: Stored)
    requires TableOk(table)
    ensures stored.Decoded? ==> stored.content.Valid()
  {
    WrittenShape(layout, evs, table);
    if Parses(Written(layout, evs, table)) then Decoded(OfSplit(Written(layout, evs, table))) else BadSplit
  }

  lemma StoredShape(layout: RoundTrip.Layout, evs: seq<seq<byte>>, table: Table)
    requires TableOk(table) && Fits(Parsed(evs))
    ensures
      var stored := StoredAs(layout, evs, table);
      && (stored == BadSplit || stored == Decoded(OfSplit(Written(layout, evs, table))))
      && (stored.Decoded? <==> Readable(layout, Parsed(evs), table))
      && (stored.Decoded? ==> stored.content.Valid() && stored.content.Count() == |evs|)
  {
    hide Written, Parses, Readable, TableOk, Fits, Split.Valid, Directory.Valid;
    WrittenShape(layout, evs, table);
    ParsesIff(layout, evs, table);
  }

  /** A split record that is read at all is scanned for the same events as the blob. */
  lemma SameVisits(f: Option<Bound>, w: Option<Window>, layout: RoundTrip.Layout, evs: seq<seq<byte>>, table: Table,
      blob: Content)
    requires TableOk(table) && Fits(Parsed(evs)) && BlobOf(blob, evs)
    ensures
      var stored := StoredAs(layout, evs, table);
      && (stored.Decoded? <==> Readable(layout, Parsed(evs), table))
      && (stored.Decoded? ==> stored.content.Count() == |evs| && Visited(stored.content, f, w) == Visited(blob, f, w))
  {
    hide TableOk, Fits, Written, StoredAs, Readable, Split.Valid, Directory.Valid, Check, CheckDirectory, Picked,
         Inside;
    StoredShape(layout, evs, table);
    WrittenShape(layout, evs, table);
    var c := OfSplit(Written(layout, evs, table));
    forall e | 0 <= e < |evs|
      ensures Passes(f, EventAt(c, e)) == Passes(f, EventAt(blob, e))
    {
      if f.Some? {
        DirectoryVerdict(f.value, layout, evs, table, e);
      }
    }
    assert VisitFlags(c, f, w) == VisitFlags(blob, f, w);
  }

  /** The parser of the by-bank layout refuses what its extents would miscount. */
  lemma ReadableRowless(schemas: seq<BankKey>, ss: seq<Structure>, k: nat)
    requires Distinct(schemas) && k < |schemas| && schemas[k].rowSize > 0 && EarlierCopiesEmpty(ss)
    ensures EarlierRowless(WalkRows(schemas, ss, k))
  {
    hide Distinct, WalkRows;
    WalkIsCopies(schemas, ss, k);
    OneBankAtATime(ss);
    EarlierCopiesOf(ss, schemas[k].id);
  }

  lemma {:induction false} EarlierCopiesOf(ss: seq<Structure>, id: Id)
    requires EarlierEmpty(ss, id)
    ensures forall i :: 0 <= i < |Copies(ss, id)| - 1 ==> Copies(ss, id)[i] == []
    decreases |ss|
  {
    if ss != [] {
      var n := |ss| - 1;
      EarlierStep(ss, id);
      CopiesSnoc(ss, id);
      if IdOf(ss[n]) == id {
        CopiesOfEmpty(ss[..n], id);
      } else {
        EarlierCopiesOf(ss[..n], id);
      }
    }
  }

  lemma {:induction false} CopiesOfEmpty(ss: seq<Structure>, id: Id)
    requires forall s :: s in ss && IdOf(s) == id ==> s.data == []
    ensures forall i :: 0 <= i < |Copies(ss, id)| ==> Copies(ss, id)[i] == []
    decreases |ss|
  {
    if ss != [] {
      CopiesOfEmpty(ss[..|ss| - 1], id);
      CopiesSnoc(ss, id);
      assert ss[|ss| - 1] in ss;
    }
  }

  /** The split record is read, and a bank's tally over it is the one over the same events walked. */
  ghost predicate SameOccupancy(stored: Stored, blob: Content, schemas: seq<BankKey>, k: nat, f: Option<Bound>,
      w: Option<Window>)
    requires k < |schemas| && blob.Valid() && (stored.Decoded? ==> stored.content.Valid())
  {
    stored.Decoded? &&
    TallyOf(RecordRows(schemas, stored.content, Visited(stored.content, f, w), k)) == TallyOf(RecordRows(schemas, blob, Visited(blob, f, w), k))
  }

  /** Occupancy of a split record against occupancy of the same events walked. The parser may refuse
      the record. When it does not, the same events are scanned, and by bank the tallies are always the
      same; by column they are exactly when no scanned event carries an earlier copy with rows. */
  lemma OccupancyAcrossLayouts(f: Option<Bound>, w: Option<Window>, layout: RoundTrip.Layout, evs: seq<seq<byte>>,
      table: Table,
    blob: Content, schemas: seq<BankKey>, k: nat)
    requires TableOk(table) && BlobOf(blob, evs) && Fits(Parsed(evs))
    requires Distinct(schemas) && k < |schemas| && schemas[k].rowSize > 0
    ensures
      var stored, es := StoredAs(layout, evs, table), Visited(blob, f, w);
      && (stored.Decoded? <==> Readable(layout, Parsed(evs), table))
      && (stored.Decoded? ==> Visited(stored.content, f, w) == es)
      && (SameOccupancy(stored, blob, schemas, k, f, w)
          <==> && Readable(layout, Parsed(evs), table)
               && (layout.PerColumn? ==> forall i :: 0 <= i < |es| ==> EarlierRowless(WalkRows(schemas, Structures(evs[es[i]]), k))))
  {
    hide TableOk, Fits, Distinct, StoredAs, Written, BlobOf, Visited, RecordRows, TallyOf, WalkRows, EarlierRowless,
         Structures, OpaqueOnce,
         EarlierCopiesEmpty, Content.Valid, Content.Count;
    StoredShape(layout, evs, table);
    SameVisits(f, w, layout, evs, table, blob);
    BlobCount(blob, evs);
    var es := Visited(blob, f, w);
    if StoredAs(layout, evs, table).Decoded? {
      TalliesAcross(layout, evs, table, blob, schemas, k, es);
      if layout.PerBank? {
        forall i | 0 <= i < |es|
          ensures EarlierRowless(WalkRows(schemas, Structures(evs[es[i]]), k))
        {
          assert EarlierCopiesEmpty(Parsed(evs)[es[i]]);
          ReadableRowless(schemas, Parsed(evs)[es[i]], k);
        }
      }
    }
  }

  lemma BlobCount(blob: Content, evs: seq<seq<byte>>)
    requires BlobOf(blob, evs)
    ensures blob.Valid() && blob.Count() == |evs|
  {
  }

  /** Over any events of a written record. */
  lemma TalliesAcross(layout: RoundTrip.Layout, evs: seq<seq<byte>>, table: Table, blob: Content,
      schemas: seq<BankKey>, k: nat, es: seq<nat>)
    requires TableOk(table) && BlobOf(blob, evs) && Fits(Parsed(evs))
    requires Distinct(schemas) && k < |schemas| && schemas[k].rowSize > 0
    requires forall i :: 0 <= i < |es| ==> es[i] < |evs|
    ensures
      var split := OfSplit(Written(layout, evs, table));
      && split.Valid() && split.Count() == |evs|
      && (TallyOf(RecordRows(schemas, split, es, k)) == TallyOf(RecordRows(schemas, blob, es, k))
          <==> forall i :: 0 <= i < |es| ==> EarlierRowless(WalkRows(schemas, Structures(evs[es[i]]), k)))
  {
    hide Written, Split.Valid, Directory.Valid, Unsaturated, Fits, DirectoryOf, WalkRows, DirectoryRows, TallyOf,
         RecordRows, Flatten,
         EarlierRowless, Structures, Distinct;
    WrittenShape(layout, evs, table);
    FitsUnsaturated(Parsed(evs));
    var split := OfSplit(Written(layout, evs, table));
    RecordRowsAreFlat(schemas, split, es, k);
    RecordRowsAreFlat(schemas, blob, es, k);
    var dir, walk := RowLists(schemas, split, es, k), RowLists(schemas, blob, es, k);
    forall i | 0 <= i < |es|
      ensures LastOnly(dir[i], walk[i]) && walk[i] == WalkRows(schemas, Structures(evs[es[i]]), k)
    {
      DirectoryIsLast(schemas, Tags(evs), Parsed(evs), es[i], k);
    }
    AgreeExactly(dir, walk);
  }

  lemma FitsUnsaturated(events: seq<seq<Structure>>)
    requires Fits(events)
    ensures Unsaturated(events)
  {
    hide Fits, Sizes, BankBytes, Sum;
    forall id: Id
      ensures Sum(Sizes(events, id)) <= U32_MAX
    {
      BankAddsUp(events, id);
    }
  }

  // ---- One event, one bank twice ----------------------------------------------------

  /** A bank of one-byte rows, carried twice with a row in each copy. */
  function Twice(id: Id): (ss: seq<Structure>)
    ensures |ss| == 2 && ss[0].data == [5] && ss[1].data == [6]
    ensures forall i :: 0 <= i < 2 ==> IdOf(ss[i]) == id && ss[i].header.headerSize == 0 && Encodable(ss[i])
  {
    var h := StructureHeader(id.0, id.1, 11, 1, 0);
    [Structure(h, [5]), Structure(h, [6])]
  }

  function TwiceEvent(id: Id): seq<byte>
  {
    EventBytes(0, [0, 0, 0, 0], Encode(Twice(id)))
  }

  lemma CopiesOfTwice(ss: seq<Structure>, id: Id)
    requires |ss| == 2 && ss[0].data == [5] && ss[1].data == [6] && IdOf(ss[0]) == IdOf(ss[1])
    ensures IdOf(ss[0]) == id ==> Copies(ss, id) == [[5], [6]]
    ensures |Appended(ss, id)| <= 2
  {
    CopiesSnoc(ss, id);
    CopiesSnoc(ss[..1], id);
    CopiesStep(ss, id);
    CopiesStep(ss[..1], id);
    assert ss[..1][..0] == [] && Copies([], id) == [];
  }

  lemma TwiceFits(ss: seq<Structure>)
    requires |ss| == 2 && ss[0].data == [5] && ss[1].data == [6] && IdOf(ss[0]) == IdOf(ss[1])
    ensures Fits([ss])
  {
    hide Appended;
    forall id: Id
      ensures |BankBytes([ss], id)| <= U32_MAX
    {
      CopiesOfTwice(ss, id);
      var all := AllAppended([ss], id);
      assert all[1..] == [] && Flatten(all) == all[0] + Flatten(all[1..]);
    }
  }

  /** Such a bank is stored by column: its rows are whole and its header is plain. */
  lemma TwiceColumnar(s: Schema, ss: seq<Structure>)
    requires s.rowSize == 1 && forall t :: t in ss ==> IdOf(t) == SchemaId(s) && t.header.headerSize == 0
    ensures OpaqueOnce(map[SchemaId(s) := s], [ss])
  {
    hide Describe;
    assert Flatten([ss]) == ss by {
      assert [ss][1..] == [] && Flatten([ss]) == ss + Flatten([ss][1..]);
    }
    DescribeDescribes(ss);
    DescribeSourced(ss);
    forall d | d in Describe(ss)
      ensures Columnar(map[SchemaId(s) := s], d, [ss])
    {
      assert Carries(ss, DescriptorId(d)) && Sourced(d, ss);
    }
  }

  /** One event, its only bank repeated with rows: by bank the record it is in cannot be read, by
      column it is read, and the bank is counted with a row less than the event holds. */
  lemma RepeatedRows(s: Schema)
    requires Exact(s) && s.rowSize == 1 && |s.entries| < U16_LIMIT
    ensures
      var ev, id := TwiceEvent(SchemaId(s)), SchemaId(s);
      var blob, table := Blob(ev, [0, |ev|], 0), map[id := s];
      && TableOk(table) && Fits(Parsed([ev])) && BlobOf(blob, [ev])
      && StoredAs(PerBank, [ev], table) == BadSplit
      && StoredAs(PerColumn, [ev], table).Decoded?
      && !SameOccupancy(StoredAs(PerColumn, [ev], table), blob, [BankKey(id, 1)], 0, None, None)
  {
    var id := SchemaId(s);
    var ev, table := TwiceEvent(id), map[id := s];
    TwiceReadsBack(id);
    OneEntryOk(s);
    OneEventBlob(ev);
    hide Twice, TwiceEvent, Structures, TableOk, Fits, StoredAs, Exact, BlobOf, Visited, WalkRows, EarlierRowless,
         Readable, SameOccupancy, Content.Valid;
    TwiceStored(s, ev, Twice(id));
    TwiceCounted(ev, Twice(id), id);
    OccupancyAcrossLayouts(None, None, PerColumn, [ev], table, Blob(ev, [0, |ev|], 0), [BankKey(id, 1)], 0);
  }

  lemma OneEventBlob(ev: seq<byte>)
    ensures
      var blob := Blob(ev, [0, |ev|], 0);
      BlobOf(blob, [ev]) && |Visited(blob, None, None)| > 0 && Visited(blob, None, None)[0] == 0
  {
    var blob := Blob(ev, [0, |ev|], 0);
    assert EventAt(blob, 0) == BlobEvent(ev);
    hide Visited;
    VisitedAre(blob, None, None);
    assert 0 in Visited(blob, None, None);
  }

  lemma TwiceStored(s: Schema, ev: seq<byte>, ss: seq<Structure>)
    requires TableOk(map[SchemaId(s) := s]) && s.rowSize == 1 && Structures(ev) == ss
    requires |ss| == 2 && ss[0].data == [5] && ss[1].data == [6]
    requires forall t :: t in ss ==> IdOf(t) == SchemaId(s) && t.header.headerSize == 0
    ensures Fits(Parsed([ev]))
    ensures StoredAs(PerBank, [ev], map[SchemaId(s) := s]) == BadSplit
    ensures StoredAs(PerColumn, [ev], map[SchemaId(s) := s]).Decoded?
  {
    assert Parsed([ev]) == [ss];
    TwiceFits(ss);
    TwiceColumnar(s, ss);
    hide Structures, TableOk, Fits, StoredAs, OpaqueOnce;
    StoredShape(PerBank, [ev], map[SchemaId(s) := s]);
    StoredShape(PerColumn, [ev], map[SchemaId(s) := s]);
    assert !EarlierCopiesEmpty(Parsed([ev])[0]);
  }

  lemma TwiceCounted(ev: seq<byte>, ss: seq<Structure>, id: Id)
    requires Structures(ev) == ss && |ss| == 2 && ss[0].data == [5] && ss[1].data == [6]
    requires IdOf(ss[0]) == id == IdOf(ss[1])
    ensures !EarlierRowless(WalkRows([BankKey(id, 1)], Structures(ev), 0))
  {
    CopiesOfTwice(ss, id);
    hide WalkRows, Copies;
    WalkIsCopies([BankKey(id, 1)], ss, 0);
    assert WalkRows([BankKey(id, 1)], ss, 0)[0] == 1;
  }

  lemma OneEntryOk(s: Schema)
    requires Exact(s) && |s.entries| < U16_LIMIT
    ensures TableOk(map[SchemaId(s) := s])
  {
    hide Exact;
  }

  lemma TwiceReadsBack(id: Id)
    ensures Structures(TwiceEvent(id)) == Twice(id)
  {
    hide Structures, EventBytes, StructureBytes;
    var ss := Twice(id);
    assert ss == [ss[0]] + [ss[1]];
    EncodeCons(ss[0], [ss[1]]);
    EncodeCons(ss[1], []);
    assert [ss[1]] + [] == [ss[1]];
    EventReadsBack(0, [0, 0, 0, 0], ss);
  }
}
