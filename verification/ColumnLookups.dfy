/** `read_columns_at`: whichever of its three strategies runs, element `k` of the answer is the
    rows of event `entries[k]` (src/read/columns.rs). */
module ColumnLookups {
  import opened Bytes
  import opened Schemas
  import opened EventIndexes
  import opened Banks
  import opened EventIters
  import opened ChainIndexes
  import opened ChainScans
  import opened RangeScans
  import opened RecordCaches
  import opened Columns
  import opened ColumnReads
  import opened EntryGroups

  // ---- The definition ---------------------------------------------------------

  /** The event with this number, if there is one and its record decodes. */
  ghost function TheEvent(files: seq<ChainFile>, spans: Spans, i: nat): (r: Option<EventValue>)
    requires Indexed(files, spans)
    ensures Answers(files, spans, i, r)
    ensures r.Some? ==> Proper(r.value)
  {
    if exists t, e :: Readable(files, spans, i, t, e) then
      var t, e :| Readable(files, spans, i, t, e);
      IndexedRecord(files, spans, t);
      Some(ValueAt(files, spans, t, e))
    else None
  }

  lemma AnswerIsTheEvent(files: seq<ChainFile>, spans: Spans, i: nat, r: Option<EventValue>)
    requires Indexed(files, spans) && Answers(files, spans, i, r)
    ensures r == TheEvent(files, spans, i)
  {
    hide Indexed, Start, ValueAt;
    if r.Some? {
      var t, e :| Readable(files, spans, i, t, e) && r.value == ValueAt(files, spans, t, e);
      forall u, d | Readable(files, spans, i, u, d)
        ensures u == t && d == e
      {
        SamePlace(files, spans, i, t, e, u, d);
      }
    }
  }

  /** Element `k` is the rows of event `entries[k]`, empty when there is no such event. */
  ghost function Expected(files: seq<ChainFile>, spans: Spans, plan: seq<BankPlan>, entries: seq<nat>): (r: seq<Row>)
    requires Indexed(files, spans)
    ensures |r| == |entries|
  {
    seq(|entries|, k requires 0 <= k < |entries| => EventRow(plan, TheEvent(files, spans, entries[k])))
  }

  lemma ExpectedFits(files: seq<ChainFile>, spans: Spans, plan: seq<BankPlan>, entries: seq<nat>)
    requires Indexed(files, spans) && PlanOk(plan)
    ensures AllRowsFit(plan, Expected(files, spans, plan, entries))
  {
    hide Indexed, TheEvent, EventRow, RowFits, Planned;
    NoRowsFit(plan);
    forall k | 0 <= k < |entries|
      ensures RowFits(plan, Expected(files, spans, plan, entries)[k])
    {
      EventRowFits(plan, TheEvent(files, spans, entries[k]));
    }
  }

  // ---- What the grouped strategies contribute -----------------------------------

  /** The grouped reader's row for entry `i`. */
  ghost predicate GoodRow(files: seq<ChainFile>, spans: Spans, plan: seq<BankPlan>, i: nat, row: Row)
    requires Indexed(files, spans)
  {
    if i >= ChainTotal(spans) then row == EventRow(plan, None)
    else exists t, e :: GoodRowAt(files, spans, plan, i, row, t, e)
  }

  ghost predicate GoodRowAt(files: seq<ChainFile>, spans: Spans, plan: seq<BankPlan>, i: nat, row: Row, t: (nat, nat),
      e: nat)
    requires Indexed(files, spans)
  {
    && Readable(files, spans, i, t, e) && StoredAt(files, t).content.Valid()
    && GroupedOk(plan, StoredAt(files, t).content, e) && row == GroupedRow(plan, StoredAt(files, t).content, e)
  }

  ghost predicate GoodRows(files: seq<ChainFile>, spans: Spans, plan: seq<BankPlan>, entries: seq<nat>, rows: seq<Row>)
    requires Indexed(files, spans)
  {
    && |rows| == |entries| && AllRowsFit(plan, rows)
    && forall k :: 0 <= k < |entries| ==> GoodRow(files, spans, plan, entries[k], rows[k])
  }

  /** The record holding the event decodes and every planned bank of it can be read. */
  ghost predicate ReadsAt(files: seq<ChainFile>, spans: Spans, plan: seq<BankPlan>, t: (nat, nat), e: nat)
    requires Indexed(files, spans) && IsRecord(spans, t)
  {
    StoredAt(files, t).Decoded? && StoredAt(files, t).content.Valid() && GroupedOk(plan, StoredAt(files, t).content, e)
  }

  ghost predicate Intact(files: seq<ChainFile>, spans: Spans, plan: seq<BankPlan>, entries: seq<nat>)
    requires Indexed(files, spans)
  {
    forall k: nat, t, e :: k < |entries| && IsAt(spans, entries[k], t, e) ==> ReadsAt(files, spans, plan, t, e)
  }

  ghost predicate RegularAt(files: seq<ChainFile>, plan: seq<BankPlan>, t: (nat, nat), e: nat)
    requires t.0 < |files| && t.1 < |files[t.0].records|
  {
    StoredAt(files, t).Decoded? && StoredAt(files, t).content.Valid() ==>
      forall bi :: 0 <= bi < |plan| ==> Regular(plan[bi], StoredAt(files, t).content, e)
  }

  /** No per-column record among those asked for is one the columnar reader misreads. */
  ghost predicate AllRegular(files: seq<ChainFile>, spans: Spans, plan: seq<BankPlan>, entries: seq<nat>)
    requires Indexed(files, spans)
  {
    forall k: nat, t, e :: k < |entries| && IsAt(spans, entries[k], t, e) ==> RegularAt(files, plan, t, e)
  }

  lemma GoodRowAlike(files: seq<ChainFile>, spans: Spans, plan: seq<BankPlan>, i: nat, row: Row)
    requires Indexed(files, spans) && PlanOk(plan) && GoodRow(files, spans, plan, i, row)
    requires forall t, e :: IsAt(spans, i, t, e) ==> RegularAt(files, plan, t, e)
    ensures RowsAlike(plan, row, EventRow(plan, TheEvent(files, spans, i)))
  {
    hide FilesOk, IndexesOk, Describes, Regular, GroupedRow, EventRow, RowsAlike, GroupedOk, PlanOk, Base, Start;
    IndexedMeans(files, spans);
    if i >= ChainTotal(spans) {
      PlaceDecides(files, spans, i);
      AnswerIsTheEvent(files, spans, i, None);
      AlikeItself(plan, None);
    } else {
      var t, e :| GoodRowAt(files, spans, plan, i, row, t, e);
      IndexedRecord(files, spans, t);
      PlaceDecides(files, spans, i);
      AnswerIsTheEvent(files, spans, i, Some(ValueAt(files, spans, t, e)));
      assert RegularAt(files, plan, t, e);
      ReadableInside(files, spans, i, t, e);
      GroupedRowAlike(plan, StoredAt(files, t).content, e);
    }
  }

  lemma ReadableInside(files: seq<ChainFile>, spans: Spans, i: nat, t: (nat, nat), e: nat)
    requires Indexed(files, spans) && Readable(files, spans, i, t, e)
    ensures e < StoredAt(files, t).content.Count()
  {
    IndexedRecord(files, spans, t);
  }

  lemma AlikeItself(plan: seq<BankPlan>, ev: Option<EventValue>)
    requires PlanOk(plan) && (ev.Some? ==> Proper(ev.value))
    ensures RowsAlike(plan, EventRow(plan, ev), EventRow(plan, ev))
  {
    hide RowFits, EventRow, Planned;
    EventRowFits(plan, ev);
    forall bi | 0 <= bi < |plan|
      ensures AlikeAt(plan, EventRow(plan, ev), EventRow(plan, ev), bi)
    {
      SameIsAlike(plan, EventRow(plan, ev), bi);
    }
  }

  lemma SameIsAlike(plan: seq<BankPlan>, row: Row, bi: nat)
    requires RowFits(plan, row) && bi < |plan|
    ensures AlikeAt(plan, row, row, bi)
  {
    assert plan[bi].Valid();
  }

  lemma GoodRowsAssemble(files: seq<ChainFile>, spans: Spans, plan: seq<BankPlan>, entries: seq<nat>, rows: seq<Row>)
    requires Indexed(files, spans) && PlanOk(plan) && GoodRows(files, spans, plan, entries, rows)
    requires AllRegular(files, spans, plan, entries)
    ensures AllRowsFit(plan, Expected(files, spans, plan, entries))
    ensures Assembled(plan, rows) == Assembled(plan, Expected(files, spans, plan, entries))
  {
    hide Indexed, TheEvent, EventRow, PlanOk, GoodRow, RowsAlike, Assembled, AllRowsFit, RegularAt, IsAt;
    ExpectedFits(files, spans, plan, entries);
    forall k | 0 <= k < |entries|
      ensures RowsAlike(plan, rows[k], Expected(files, spans, plan, entries)[k])
    {
      GoodRowAlike(files, spans, plan, entries[k], rows[k]);
    }
    AlikeAssembled(plan, rows, Expected(files, spans, plan, entries));
  }

  // ---- Ascending lists: groups end to end ---------------------------------------

  /** The group's rows, read in its order. */
  ghost predicate GroupReads(files: seq<ChainFile>, spans: Spans, plan: seq<BankPlan>, entries: seq<nat>, g: Group)
    requires Indexed(files, spans)
  {
    && IsRecord(spans, g.key) && StoredAt(files, g.key).Decoded? && StoredAt(files, g.key).content.Valid()
    && WantedOk(plan, StoredAt(files, g.key).content, g.slots)
  }

  lemma GroupIsRecord(files: seq<ChainFile>, spans: Spans, entries: seq<nat>, groups: seq<Group>, j: nat)
    requires Indexed(files, spans) && GroupsOk(spans, entries, |entries|, groups) && j < |groups|
    ensures IsRecord(spans, groups[j].key) && groups[j].slots != []
    ensures StoredAt(files, groups[j].key).Decoded? ==> StoredAt(files, groups[j].key).content.Valid()
  {
    var g := groups[j];
    assert GroupOk(spans, entries, |entries|, g);
    assert IsAt(spans, entries[g.slots[0].0], g.key, g.slots[0].1);
    if StoredAt(files, g.key).Decoded? {
      IndexedRecord(files, spans, g.key);
    }
  }

  /** An intact selection never makes the grouped reader fail. */
  lemma IntactReads(files: seq<ChainFile>, spans: Spans, plan: seq<BankPlan>, entries: seq<nat>, groups: seq<Group>,
      j: nat)
    requires Indexed(files, spans) && GroupsOk(spans, entries, |entries|, groups) && j < |groups|
    requires Intact(files, spans, plan, entries)
    ensures GroupReads(files, spans, plan, entries, groups[j])
  {
    hide GroupedOk, Content.Valid, Indexed, Start, Base;
    var g := groups[j];
    GroupIsRecord(files, spans, entries, groups, j);
    assert GroupOk(spans, entries, |entries|, g);
    forall i | 0 <= i < |g.slots|
      ensures ReadsAt(files, spans, plan, g.key, g.slots[i].1)
    {
      assert IsAt(spans, entries[g.slots[i].0], g.key, g.slots[i].1);
    }
    assert ReadsAt(files, spans, plan, g.key, g.slots[0].1);
  }

  /** A row of a group is the grouped reader's row for its entry. */
  lemma GroupRowGood(files: seq<ChainFile>, spans: Spans, plan: seq<BankPlan>, entries: seq<nat>, groups: seq<Group>,
      j: nat, i: nat)
    requires Indexed(files, spans) && GroupsOk(spans, entries, |entries|, groups) && j < |groups| && i < |groups[j].slots|
    requires GroupReads(files, spans, plan, entries, groups[j])
    ensures groups[j].slots[i].0 < |entries|
    ensures GoodRow(files, spans, plan, entries[groups[j].slots[i].0],
      WantedRows(plan, StoredAt(files, groups[j].key).content, groups[j].slots)[i])
  {
    hide GroupedOk, GroupedRow, Content.Valid, FilesOk, Describes, Start, Base;
    var g := groups[j];
    IndexedRecord(files, spans, g.key);
    assert GroupOk(spans, entries, |entries|, g);
    var s, e := g.slots[i].0, g.slots[i].1;
    assert IsAt(spans, entries[s], g.key, e);
    PlaceBelowTotal(spans, entries[s], g.key, e);
    assert GoodRowAt(files, spans, plan, entries[s], WantedRows(plan, StoredAt(files, g.key).content, g.slots)[i],
      g.key, e);
  }

  function GroupRows(files: seq<ChainFile>, spans: Spans, plan: seq<BankPlan>, entries: seq<nat>,
      groups: seq<Group>): (r: seq<seq<Row>>)
    requires Indexed(files, spans) && forall j :: 0 <= j < |groups| ==>
      GroupReads(files, spans, plan, entries, groups[j])
    ensures |r| == |groups|
  {
    seq(|groups|, j requires 0 <= j < |groups| =>
      assert GroupReads(files, spans, plan, entries, groups[j]);
      IndexedRecord(files, spans, groups[j].key);
      WantedRows(plan, StoredAt(files, groups[j].key).content, groups[j].slots))
  }

  /** Two lists of lists of the same shape flatten in step. */
  lemma {:induction false} FlattenInStep<A, B>(a: seq<seq<A>>, b: seq<seq<B>>, k: nat) returns (j: nat, i: nat)
    requires |a| == |b| && (forall j :: 0 <= j < |a| ==> |a[j]| == |b[j]|) && k < |Flatten(a)|
    ensures |Flatten(a)| == |Flatten(b)|
    ensures j < |a| && i < |a[j]| && Flatten(a)[k] == a[j][i] && Flatten(b)[k] == b[j][i]
  {
    assert Lengths(a) == Lengths(b);
    FlattenLength(a);
    FlattenLength(b);
    if k < |a[0]| {
      j, i := 0, k;
    } else {
      j, i := FlattenInStep(a[1..], b[1..], k - |a[0]|);
      j := j + 1;
    }
  }

  lemma SameShapeSameLength<A, B>(a: seq<seq<A>>, b: seq<seq<B>>)
    requires |a| == |b| && forall j :: 0 <= j < |a| ==> |a[j]| == |b[j]|
    ensures |Flatten(a)| == |Flatten(b)|
  {
    assert Lengths(a) == Lengths(b);
    FlattenLength(a);
    FlattenLength(b);
  }

  /** For an ascending list the groups' rows end to end are the entries' rows. */
  lemma OrderedRowsGood(files: seq<ChainFile>, spans: Spans, plan: seq<BankPlan>, entries: seq<nat>, groups: seq<Group>)
    requires Indexed(files, spans) && GroupsOk(spans, entries, |entries|, groups) && Ascends(spans, entries)
    requires forall j :: 0 <= j < |groups| ==> GroupReads(files, spans, plan, entries, groups[j])
    requires AllRowsFit(plan, Flatten(GroupRows(files, spans, plan, entries, groups)))
    ensures GoodRows(files, spans, plan, entries, Flatten(GroupRows(files, spans, plan, entries, groups)))
  {
    hide GroupsOk, GroupReads, GoodRow, Indexed, WantedRows, AllRowsFit, Flatten, Ascends;
    IndexedMeans(files, spans);
    var rows, slots := GroupRows(files, spans, plan, entries, groups), AllSlots(groups);
    GroupsInCallerOrder(spans, entries, groups);
    SameShapeSameLength(rows, slots);
    forall k | 0 <= k < |entries|
      ensures GoodRow(files, spans, plan, entries[k], Flatten(rows)[k])
    {
      var j, i := FlattenInStep(rows, slots, k);
      GroupRowGood(files, spans, plan, entries, groups, j, i);
    }
  }

  /** Every group read in turn, one chunk a group. */
  method MergeOrdered(files: seq<ChainFile>, spans: Spans, plan: seq<BankPlan>, entries: seq<nat>, groups: seq<Group>)
    returns (r: Option<seq<Buffers>>)
    requires Indexed(files, spans) && PlanOk(plan) && GroupsOk(spans, entries, |entries|, groups)
    requires Ascends(spans, entries)
    ensures (forall j :: 0 <= j < |groups| ==> GroupReads(files, spans, plan, entries, groups[j])) ==>
      exists rows :: GoodRows(files, spans, plan, entries, rows) && r == Assembled(plan, rows)
    ensures r.Some? ==> forall j :: 0 <= j < |groups| ==> GroupReads(files, spans, plan, entries, groups[j])
  {
    hide Indexed, GroupsOk, WantedRows, WantedOk, Content.Valid, ChunkOf, AllRowsFit, PlanOk, Flatten, Assembled,
         Ascends, GoodRows, IsRecord;
    var chunks: seq<seq<Chunk>> := [];
    ghost var rows: seq<seq<Row>> := [];
    for j := 0 to |groups|
      invariant forall k :: 0 <= k < j ==> GroupReads(files, spans, plan, entries, groups[k])
      invariant rows == GroupRows(files, spans, plan, entries, groups[..j]) && Pieces(plan, chunks, rows)
    {
      GroupIsRecord(files, spans, entries, groups, j);
      IndexedRecord(files, spans, groups[j].key);
      var out := ProcessRecordEntries(plan, StoredAt(files, groups[j].key), groups[j].slots, false);
      if out.None? {
        return None;
      }
      assert GroupReads(files, spans, plan, entries, groups[j]);
      chunks := chunks + [out.value[0].1];
      rows := rows + [WantedRows(plan, StoredAt(files, groups[j].key).content, groups[j].slots)];
    }
    assert groups[..|groups|] == groups;
    NoRowsFit(plan);
    r := MergeChunks(plan, chunks, rows);
    OrderedRowsGood(files, spans, plan, entries, groups);
  }

  // ---- Any other list: one chunk an entry, put back in its slot -------------------

  /** `chunk` is the one event of entry `i`. */
  ghost predicate SlotHolds(files: seq<ChainFile>, spans: Spans, plan: seq<BankPlan>, i: nat, chunk: seq<Chunk>,
      row: Row)
    requires Indexed(files, spans)
  {
    GoodRow(files, spans, plan, i, row) && AllRowsFit(plan, [row]) && chunk == ChunkOf(plan, [row])
  }

  ghost predicate SlotOk(files: seq<ChainFile>, spans: Spans, plan: seq<BankPlan>, i: nat, slot: Option<seq<Chunk>>)
    requires Indexed(files, spans)
  {
    slot.Some? ==> exists row :: SlotHolds(files, spans, plan, i, slot.value, row)
  }

  ghost predicate SlotsOk(files: seq<ChainFile>, spans: Spans, plan: seq<BankPlan>, entries: seq<nat>,
      slots: seq<Option<seq<Chunk>>>)
    requires Indexed(files, spans)
  {
    |slots| == |entries| && forall s :: 0 <= s < |entries| ==> SlotOk(files, spans, plan, entries[s], slots[s])
  }

  /** Every entry of the first `n` groups has been put in its slot. */
  ghost predicate Placed(groups: seq<Group>, n: nat, slots: seq<Option<seq<Chunk>>>)
    requires n <= |groups|
  {
    forall j, i :: 0 <= j < n && 0 <= i < |groups[j].slots| ==>
      groups[j].slots[i].0 < |slots| && slots[groups[j].slots[i].0].Some?
  }

  lemma EntryHolds(files: seq<ChainFile>, spans: Spans, plan: seq<BankPlan>, entries: seq<nat>, groups: seq<Group>,
      j: nat, i: nat, chunk: seq<Chunk>)
    requires Indexed(files, spans) && GroupsOk(spans, entries, |entries|, groups) && j < |groups| && i < |groups[j].slots|
    requires GroupReads(files, spans, plan, entries, groups[j])
    requires EntryIs(plan, StoredAt(files, groups[j].key).content, groups[j].slots[i], (groups[j].slots[i].0, chunk))
    ensures groups[j].slots[i].0 < |entries|
    ensures SlotOk(files, spans, plan, entries[groups[j].slots[i].0], Some(chunk))
  {
    hide GroupedOk, GroupedRow, Content.Valid, Indexed, GoodRow, ChunkOf, AllRowsFit, GroupsOk;
    IndexedRecord(files, spans, groups[j].key);
    GroupRowGood(files, spans, plan, entries, groups, j, i);
    var row := WantedRows(plan, StoredAt(files, groups[j].key).content, groups[j].slots)[i];
    assert SlotHolds(files, spans, plan, entries[groups[j].slots[i].0], chunk, row);
  }

  /** One group's entries into their slots. */
  method PlaceGroup(files: seq<ChainFile>, spans: Spans, plan: seq<BankPlan>, entries: seq<nat>, groups: seq<Group>,
      j: nat,
    filled: seq<(nat, seq<Chunk>)>, slots: seq<Option<seq<Chunk>>>) returns (r: seq<Option<seq<Chunk>>>)
    requires Indexed(files, spans) && GroupsOk(spans, entries, |entries|, groups) && j < |groups|
    requires GroupReads(files, spans, plan, entries, groups[j])
    requires RecordEntries(plan, StoredAt(files, groups[j].key).content, groups[j].slots, true, filled)
    requires SlotsOk(files, spans, plan, entries, slots) && Placed(groups, j, slots)
    ensures SlotsOk(files, spans, plan, entries, r) && Placed(groups, j + 1, r)
  {
    IndexedRecord(files, spans, groups[j].key);
    hide Indexed, GroupsOk, EntryIs, SlotOk, WantedOk, WantedRows, Content.Valid;
    r := slots;
    for i := 0 to |filled|
      invariant SlotsOk(files, spans, plan, entries, r) && Placed(groups, j, r)
      invariant forall k :: 0 <= k < i ==> groups[j].slots[k].0 < |r| && r[groups[j].slots[k].0].Some?
    {
      var (slot, chunk) := filled[i];
      assert EntryIs(plan, StoredAt(files, groups[j].key).content, groups[j].slots[i], filled[i]);
      EntrySlot(plan, StoredAt(files, groups[j].key).content, groups[j].slots[i], filled[i]);
      EntryHolds(files, spans, plan, entries, groups, j, i, chunk);
      r := r[slot := Some(chunk)];
    }
  }

  lemma EntrySlot(plan: seq<BankPlan>, c: Content, entry: (nat, nat), made: (nat, seq<Chunk>))
    requires c.Valid() && EntryIs(plan, c, entry, made)
    ensures made.0 == entry.0
  {
  }

  lemma NothingPlaced(files: seq<ChainFile>, spans: Spans, plan: seq<BankPlan>, entries: seq<nat>, groups: seq<Group>,
      slots: seq<Option<seq<Chunk>>>)
    requires Indexed(files, spans) && slots == seq(|entries|, s => None)
    ensures SlotsOk(files, spans, plan, entries, slots) && Placed(groups, 0, slots)
  {
  }

  /** A slot left empty is an entry no record holds. */
  lemma EmptySlotIsAbsent(files: seq<ChainFile>, spans: Spans, plan: seq<BankPlan>, entries: seq<nat>,
      groups: seq<Group>,
    slots: seq<Option<seq<Chunk>>>, s: nat)
    requires Indexed(files, spans) && GroupsOk(spans, entries, |entries|, groups)
    requires SlotsOk(files, spans, plan, entries, slots) && Placed(groups, |groups|, slots) && s < |entries|
    requires slots[s].None?
    ensures entries[s] >= ChainTotal(spans)
  {
    hide SlotOk, Start, Base, FilesOk, Describes;
    if entries[s] < ChainTotal(spans) {
      EntryIsPlaced(spans, entries, groups, slots, s);
    }
  }

  lemma EntryIsPlaced(spans: Spans, entries: seq<nat>, groups: seq<Group>, slots: seq<Option<seq<Chunk>>>, s: nat)
    requires IndexesOk(spans) && GroupsOk(spans, entries, |entries|, groups) && s < |entries|
    requires entries[s] < ChainTotal(spans)
    requires Placed(groups, |groups|, slots)
    ensures s < |slots| && slots[s].Some?
  {
    hide Start, Base;
    var t, e := PlaceOf(spans, entries[s]);
    assert Filed(groups, t, s, e);
    var j :| 0 <= j < |groups| && groups[j].key == t && (s, e) in groups[j].slots;
    var i :| 0 <= i < |groups[j].slots| && groups[j].slots[i] == (s, e);
    assert groups[j].slots[i].0 == s;
  }

  function AbsentRow(plan: seq<BankPlan>): Row
  {
    EventRow(plan, None)
  }

  /** `absent_event_chunk`: present, with no rows in any bank. */
  method AbsentChunk(plan: seq<BankPlan>) returns (r: seq<Chunk>)
    requires PlanOk(plan)
    ensures AllRowsFit(plan, [AbsentRow(plan)]) && r == ChunkOf(plan, [AbsentRow(plan)])
  {
    NoRowsFit(plan);
    EmptyIsNoRows(plan);
    EventRowFits(plan, None);
    assert [] + [AbsentRow(plan)] == [AbsentRow(plan)];
    hide AllRowsFit, ChunkOf, PlanOk, EmptyRecord;
    r := PushRow(plan, EmptyRecord(plan), AbsentRow(plan), []);
  }

  lemma FlattenSingles(rows: seq<Row>, groups: seq<seq<Row>>)
    requires |groups| == |rows| && forall k :: 0 <= k < |rows| ==> groups[k] == [rows[k]]
    ensures Flatten(groups) == rows
  {
    if rows != [] {
      FlattenSingles(rows[1..], groups[1..]);
    }
  }

  lemma SinglesFit(plan: seq<BankPlan>, rows: seq<Row>)
    requires PlanOk(plan) && forall k :: 0 <= k < |rows| ==> AllRowsFit(plan, [rows[k]])
    ensures AllRowsFit(plan, rows)
  {
    hide RowFits, BankPlan.Valid;
    NoRowsFit(plan);
    forall k | 0 <= k < |rows|
      ensures RowFits(plan, rows[k])
    {
      assert [rows[k]][0] == rows[k];
    }
  }

  /** The slots in the caller's order, an empty one filled with an absent event. */
  method MergeSlots(files: seq<ChainFile>, spans: Spans, plan: seq<BankPlan>, entries: seq<nat>, groups: seq<Group>,
    slots: seq<Option<seq<Chunk>>>) returns (r: Option<seq<Buffers>>)
    requires Indexed(files, spans) && PlanOk(plan) && GroupsOk(spans, entries, |entries|, groups)
    requires SlotsOk(files, spans, plan, entries, slots) && Placed(groups, |groups|, slots)
    ensures exists rows :: GoodRows(files, spans, plan, entries, rows) && r == Assembled(plan, rows)
  {
    hide Indexed, GroupsOk, GoodRow, ChunkOf, AllRowsFit, PlanOk, Flatten, Assembled, Placed, ChainTotal;
    var chunks: seq<seq<Chunk>> := [];
    ghost var rows: seq<Row> := [];
    ghost var singles: seq<seq<Row>> := [];
    for s := 0 to |entries|
      invariant |chunks| == |rows| == |singles| == s
      invariant forall k :: 0 <= k < s ==>
        SlotHolds(files, spans, plan, entries[k], chunks[k], rows[k]) && singles[k] == [rows[k]]
    {
      assert SlotOk(files, spans, plan, entries[s], slots[s]);
      if slots[s].Some? {
        ghost var row :| SlotHolds(files, spans, plan, entries[s], slots[s].value, row);
        chunks, rows, singles := chunks + [slots[s].value], rows + [row], singles + [[row]];
      } else {
        var absent := AbsentChunk(plan);
        EmptySlotIsAbsent(files, spans, plan, entries, groups, slots, s);
        AbsentIsGood(files, spans, plan, entries[s]);
        chunks, rows, singles := chunks + [absent], rows + [AbsentRow(plan)], singles + [[AbsentRow(plan)]];
      }
    }
    NoRowsFit(plan);
    r := MergeChunks(plan, chunks, singles);
    FlattenSingles(rows, singles);
    SinglesFit(plan, rows);
    assert GoodRows(files, spans, plan, entries, rows);
  }

  lemma AbsentIsGood(files: seq<ChainFile>, spans: Spans, plan: seq<BankPlan>, i: nat)
    requires Indexed(files, spans) && i >= ChainTotal(spans)
    ensures GoodRow(files, spans, plan, i, AbsentRow(plan))
  {
  }

  /** Every group read in turn, one chunk an entry, scattered back. */
  method MergeScattered(files: seq<ChainFile>, spans: Spans, plan: seq<BankPlan>, entries: seq<nat>, groups: seq<Group>)
    returns (r: Option<seq<Buffers>>)
    requires Indexed(files, spans) && PlanOk(plan) && GroupsOk(spans, entries, |entries|, groups)
    ensures (forall j :: 0 <= j < |groups| ==> GroupReads(files, spans, plan, entries, groups[j])) ==>
      exists rows :: GoodRows(files, spans, plan, entries, rows) && r == Assembled(plan, rows)
    ensures r.Some? ==> forall j :: 0 <= j < |groups| ==> GroupReads(files, spans, plan, entries, groups[j])
  {
    hide Indexed, GroupsOk, WantedOk, Content.Valid, AllRowsFit, PlanOk, Assembled, GoodRows, IsRecord, SlotsOk,
         Placed, RecordEntries;
    var slots := seq(|entries|, s => None);
    NothingPlaced(files, spans, plan, entries, groups, slots);
    for j := 0 to |groups|
      invariant forall k :: 0 <= k < j ==> GroupReads(files, spans, plan, entries, groups[k])
      invariant SlotsOk(files, spans, plan, entries, slots) && Placed(groups, j, slots)
    {
      GroupIsRecord(files, spans, entries, groups, j);
      IndexedRecord(files, spans, groups[j].key);
      var out := ProcessRecordEntries(plan, StoredAt(files, groups[j].key), groups[j].slots, true);
      if out.None? {
        return None;
      }
      assert GroupReads(files, spans, plan, entries, groups[j]);
      slots := PlaceGroup(files, spans, plan, entries, groups, j, out.value, slots);
    }
    r := MergeSlots(files, spans, plan, entries, groups, slots);
  }

  // ---- Everything in one record: replay through `event` -----------------------------

  /** What other threads leave in the slot before each call and in the middle of it. */
  type Others = seq<(Option<Slot>, Option<Slot>)>

  ghost predicate OthersOk(files: seq<ChainFile>, spans: Spans, others: Others)
    requires Indexed(files, spans)
  {
    forall k :: 0 <= k < |others| ==>
      RecordCaches.SlotOk(files, spans, others[k].0) && RecordCaches.SlotOk(files, spans, others[k].1)
  }

  /** One event after another through the shared record cache, whatever other threads do with the
      slot meanwhile; a bank that cannot be read is absent. */
  method Replay(cache: RecordCache, plan: seq<BankPlan>, entries: seq<nat>, others: Others)
    returns (r: Option<seq<Buffers>>)
    requires cache.Valid() && PlanOk(plan) && |others| == |entries| && OthersOk(cache.files, cache.spans, others)
    modifies cache`slot
    ensures cache.Valid() && AllRowsFit(plan, Expected(cache.files, cache.spans, plan, entries))
    ensures r == Assembled(plan, Expected(cache.files, cache.spans, plan, entries))
  {
    hide AllRowsFit, ChunkOf, PlanOk, Assembled, EmptyRecord, TheEvent, EventRow, RecordCache.Valid, Answers, RowFits,
         Flatten, RecordCaches.SlotOk;
    NoRowsFit(plan);
    EmptyIsNoRows(plan);
    CacheIndexed(cache);
    ghost var rows := Expected(cache.files, cache.spans, plan, entries);
    var chunk := EmptyRecord(plan);
    for k := 0 to |entries|
      invariant cache.Valid() && AllRowsFit(plan, rows[..k]) && chunk == ChunkOf(plan, rows[..k])
    {
      CacheIndexed(cache);
      cache.Interfere(others[k].0);
      var ev := cache.Event(entries[k], others[k].1);
      AnswerIsTheEvent(cache.files, cache.spans, entries[k], ev);
      EventRowFits(plan, ev);
      chunk := PushRow(plan, chunk, EventRow(plan, ev), rows[..k]);
      assert rows[..k + 1] == rows[..k] + [rows[k]];
    }
    assert rows[..|entries|] == rows;
    OneGroup(rows);
    r := MergeChunks(plan, [chunk], [rows]);
  }

  lemma OneGroup(rows: seq<Row>)
    ensures Flatten([rows]) == rows
  {
    assert Flatten([rows]) == rows + Flatten<Row>([]);
  }

  lemma CacheIndexed(cache: RecordCache)
    requires cache.Valid()
    ensures Indexed(cache.files, cache.spans) && RecordCaches.SlotOk(cache.files, cache.spans, cache.slot)
    ensures IsOffsets(cache.spans, cache.offsets)
  {
  }

  // ---- The three together -------------------------------------------------------------

  /** The entries that resolve all lie in one record, if any does. */
  ghost predicate InOneRecord(spans: Spans, entries: seq<nat>)
  {
    forall i: nat, j: nat, t: (nat, nat), u: (nat, nat), d: nat, e: nat ::
      i < |entries| && j < |entries| && IsAt(spans, entries[i], t, d) && IsAt(spans, entries[j], u, e) ==> t == u
  }

  /** The groups tell whether more than one record is asked for. */
  lemma GroupsAreRecords(spans: Spans, entries: seq<nat>, groups: seq<Group>)
    requires GroupsOk(spans, entries, |entries|, groups)
    ensures |groups| <= 1 <==> InOneRecord(spans, entries)
  {
    hide IsAt, Earlier;
    if |groups| <= 1 {
      forall i: nat, j: nat, t: (nat, nat), u: (nat, nat), d: nat, e: nat |
        i < |entries| && j < |entries| && IsAt(spans, entries[i], t, d) && IsAt(spans, entries[j], u, e)
        ensures t == u
      {
        assert Filed(groups, t, i, d) && Filed(groups, u, j, e);
      }
    } else {
      var g, h := groups[0], groups[1];
      assert GroupOk(spans, entries, |entries|, g) && GroupOk(spans, entries, |entries|, h);
      assert IsAt(spans, entries[g.slots[0].0], g.key, g.slots[0].1) && IsAt(spans, entries[h.slots[0].0], h.key, h.slots[0].1);
      assert Earlier(Keys(groups)[0], Keys(groups)[1]);
      EarlierDiffers(g.key, h.key);
    }
  }

  lemma EarlierDiffers(t: (nat, nat), u: (nat, nat))
    requires Earlier(t, u)
    ensures t != u
  {
  }

  /** When every group reads, nothing asked for is damaged. */
  lemma ReadsIntact(files: seq<ChainFile>, spans: Spans, plan: seq<BankPlan>, entries: seq<nat>, groups: seq<Group>)
    requires Indexed(files, spans) && GroupsOk(spans, entries, |entries|, groups)
    requires forall j :: 0 <= j < |groups| ==> GroupReads(files, spans, plan, entries, groups[j])
    ensures Intact(files, spans, plan, entries)
  {
    hide GroupedOk, Content.Valid, Indexed, Start, Base, Ordered, GroupOk;
    forall k: nat, t: (nat, nat), e: nat | k < |entries| && IsAt(spans, entries[k], t, e)
      ensures ReadsAt(files, spans, plan, t, e)
    {
      assert Filed(groups, t, k, e);
      var j :| 0 <= j < |groups| && groups[j].key == t && (k, e) in groups[j].slots;
      var i :| 0 <= i < |groups[j].slots| && groups[j].slots[i] == (k, e);
      assert GroupReads(files, spans, plan, entries, groups[j]);
    }
  }

  /** Whether the answer is the definition's, on regular records: nothing is planned, one record
      holds all the entries, or nothing asked for is damaged. */
  ghost predicate Faithful(files: seq<ChainFile>, spans: Spans, plan: seq<BankPlan>, entries: seq<nat>)
    requires Indexed(files, spans)
  {
    plan == [] || InOneRecord(spans, entries) || Intact(files, spans, plan, entries)
  }

  /** `read_columns_at`, exactly. With one record or none the answer is always the definition's. With
      several it fails on any damage asked for, and else it is made of the grouped reader's rows. On
      regular records those are the definition's too, whichever strategy runs. */
  method ReadColumnsAt(cache: RecordCache, plan: seq<BankPlan>, entries: seq<nat>, others: Others)
    returns (r: Option<seq<Buffers>>)
    requires cache.Valid() && PlanOk(plan) && |others| == |entries| && OthersOk(cache.files, cache.spans, others)
    modifies cache`slot
    ensures cache.Valid() && AllRowsFit(plan, Expected(cache.files, cache.spans, plan, entries))
    ensures AllRegular(cache.files, cache.spans, plan, entries) ==>
      r == if Faithful(cache.files, cache.spans, plan, entries) then Assembled(plan, Expected(cache.files, cache.spans, plan, entries)) else None
    ensures plan == [] || InOneRecord(cache.spans, entries) ==>
      r == Assembled(plan, Expected(cache.files, cache.spans, plan, entries))
    ensures !Faithful(cache.files, cache.spans, plan, entries) ==> r == None
    ensures plan != [] && !InOneRecord(cache.spans, entries) && Intact(cache.files, cache.spans, plan, entries) ==>
      exists rows :: GoodRows(cache.files, cache.spans, plan, entries, rows) && r == Assembled(plan, rows)
  {
    hide AllRowsFit, PlanOk, Assembled, Expected, RecordCache.Valid, Indexed, Intact, AllRegular, GoodRow, GroupsOk,
         GroupReads, IsOffsets, InOneRecord, OthersOk;
    CacheIndexed(cache);
    var files, spans := cache.files, cache.spans;
    IndexedMeans(files, spans);
    ExpectedFits(files, spans, plan, entries);
    if plan == [] {
      NothingPlanned(plan, Expected(files, spans, plan, entries));
      return Some([]);
    }
    var groups, resolved := GroupEntries(spans, cache.offsets, entries);
    GroupsAreRecords(spans, entries, groups);
    if |groups| <= 1 {
      r := Replay(cache, plan, entries, others);
      return;
    }
    r := ReadGroups(files, spans, plan, entries, groups, resolved);
    if AllRegular(files, spans, plan, entries) && Intact(files, spans, plan, entries) {
      ghost var rows :| GoodRows(files, spans, plan, entries, rows) && r == Assembled(plan, rows);
      GoodRowsAssemble(files, spans, plan, entries, rows);
    }
  }

  /** Several records: the groups end to end when the list ascends and resolves, else the slots. It
      fails exactly when something asked for is damaged or the totals do not match. */
  method ReadGroups(files: seq<ChainFile>, spans: Spans, plan: seq<BankPlan>, entries: seq<nat>, groups: seq<Group>,
      resolved: nat)
    returns (r: Option<seq<Buffers>>)
    requires Indexed(files, spans) && PlanOk(plan) && GroupsOk(spans, entries, |entries|, groups)
    requires resolved == |entries| <==> forall s :: 0 <= s < |entries| ==> entries[s] < ChainTotal(spans)
    ensures Intact(files, spans, plan, entries) ==>
      exists rows :: GoodRows(files, spans, plan, entries, rows) && r == Assembled(plan, rows)
    ensures !Intact(files, spans, plan, entries) ==> r == None
  {
    hide AllRowsFit, PlanOk, Assembled, Indexed, Intact, GoodRow, GroupsOk, GroupReads;
    if Intact(files, spans, plan, entries) {
      forall j | 0 <= j < |groups|
        ensures GroupReads(files, spans, plan, entries, groups[j])
      {
        IntactReads(files, spans, plan, entries, groups, j);
      }
    }
    var perEntry := resolved != |entries| || exists s :: 0 <= s < |entries| - 1 && entries[s] > entries[s + 1];
    if perEntry {
      r := MergeScattered(files, spans, plan, entries, groups);
    } else {
      AdjacentIsAll(entries);
      r := MergeOrdered(files, spans, plan, entries, groups);
    }
    if r.Some? {
      ReadsIntact(files, spans, plan, entries, groups);
    }
  }

  lemma {:induction false} AdjacentIsAll(entries: seq<nat>)
    requires forall s :: 0 <= s < |entries| - 1 ==> entries[s] <= entries[s + 1]
    ensures forall a, b :: 0 <= a < b < |entries| ==> entries[a] <= entries[b]
  {
    if |entries| > 1 {
      var n := |entries| - 1;
      AdjacentIsAll(entries[..n]);
      forall a | 0 <= a < n
        ensures entries[a] <= entries[n]
      {
        assert entries[..n][a] <= entries[..n][n - 1] || a == n - 1;
      }
      assert forall a, b :: 0 <= a < b < n ==> entries[..n][a] <= entries[..n][b];
    }
  }

  // ---- On damage --------------------------------------------------------------------

  /** A file of two damaged records, one event each by the index. */
  lemma DamagedChain() returns (files: seq<ChainFile>, spans: Spans)
    ensures Indexed(files, spans) && IsOffsets(spans, [0, 2])
    ensures IsAt(spans, 0, (0, 0), 0) && IsAt(spans, 1, (0, 1), 0)
    ensures !StoredAt(files, (0, 0)).Decoded? && !StoredAt(files, (0, 1)).Decoded?
  {
    files := [ChainFile([], [StoredRecord(None, Unreadable), StoredRecord(None, Unreadable)])];
    spans := [[RecordSpan(0, 1, 1, 0), RecordSpan(1, 1, 1, 1)]];
    var counts := Counts(spans[0]);
    assert counts == [1, 1] && counts[..0] == [] && counts[..1] == [1];
    assert Sum([1]) == 1 + Sum([]) && Sum([1, 1]) == 1 + Sum([1]) by { assert [1, 1][1..] == [1] && [1][1..] == []; }
    assert Total(spans[0]) == 2;
    assert Totals(spans) == [2] && Totals(spans)[..0] == [] && Totals(spans)[..1] == [2];
    assert Sum([2]) == 2 + Sum([]) by { assert [2][1..] == []; }
  }

  /** An event of a record that does not decode is defined as one without banks. */
  lemma DamagedEvent(files: seq<ChainFile>, spans: Spans, i: nat, t: (nat, nat), e: nat)
    requires Indexed(files, spans) && IsAt(spans, i, t, e)
    ensures t.0 < |files| && t.1 < |files[t.0].records|
    ensures !StoredAt(files, t).Decoded? ==> TheEvent(files, spans, i) == None
  {
    IndexedRecord(files, spans, t);
    hide Indexed, Answers, Start;
    if !StoredAt(files, t).Decoded? {
      PlaceDecides(files, spans, i);
      AnswerIsTheEvent(files, spans, i, None);
    }
  }

  /** Nothing is ever missing from an event without banks. */
  lemma AbsentIsSound(bp: BankPlan, banks: seq<Option<Bank>>)
    requires AllFit(bp, banks) && AllFit(bp, [None] + banks) && Sound(bp, BuffersOf(bp, banks))
    ensures Sound(bp, BuffersOf(bp, [None] + banks))
  {
    SoundIffFull(bp, banks);
    SoundIffFull(bp, [None] + banks);
    hide Sound, BuffersOf, LaidOut, AllFit, CellsFor, OwnSlice;
    forall ci | 0 <= ci < |bp.cols|
      ensures AllFull(bp, [None] + banks, bp.cols[ci])
    {
      assert AllFull(bp, banks, bp.cols[ci]);
      AbsentIsFull(bp, banks, bp.cols[ci]);
    }
  }

  lemma AbsentIsFull(bp: BankPlan, banks: seq<Option<Bank>>, c: nat)
    requires AllFit(bp, banks) && AllFit(bp, [None] + banks) && c < |bp.schema.entries| && AllFull(bp, banks, c)
    ensures AllFull(bp, [None] + banks, c)
  {
    var all := [None] + banks;
    Arith.MulPositive(0, bp.schema.entries[c].Width());
    hide Entry.Width, LaidOut, Bank.ColBytes;
    forall k | 0 <= k < |all|
      ensures |CellsFor(bp, all[k], c)| == bp.schema.entries[c].Span(RowsFor(all[k]))
    {
      if k > 0 {
        assert all[k] == banks[k - 1];
      }
    }
  }

  /** An event without banks first: what assembles without it assembles with it. */
  lemma AbsentFirst(plan: seq<BankPlan>, rows: seq<Row>)
    requires AllRowsFit(plan, rows) && AllRowsFit(plan, [AbsentRow(plan)] + rows) && Assembled(plan, rows).Some?
    ensures Assembled(plan, [AbsentRow(plan)] + rows).Some?
  {
    hide Sound, BuffersOf, RowFits;
    forall bi | 0 <= bi < |plan|
      ensures Sound(plan[bi], BuffersOf(plan[bi], Pick(plan, [AbsentRow(plan)] + rows, bi)))
    {
      assert Sound(plan[bi], BuffersOf(plan[bi], Pick(plan, rows, bi)));
      assert Pick(plan, [AbsentRow(plan)] + rows, bi) == [None] + Pick(plan, rows, bi);
      AbsentIsSound(plan[bi], Pick(plan, rows, bi));
    }
  }

  lemma NothingAssembles(plan: seq<BankPlan>)
    requires AllRowsFit(plan, [])
    ensures Assembled(plan, []).Some?
  {
    hide LaidOut, Entry.Width;
    forall bi | 0 <= bi < |plan|
      ensures Sound(plan[bi], BuffersOf(plan[bi], Pick(plan, [], bi)))
    {
      SoundIffFull(plan[bi], Pick(plan, [], bi));
    }
  }

  lemma DamagedExpected(files: seq<ChainFile>, spans: Spans, plan: seq<BankPlan>, i: nat, entries: seq<nat>)
    requires Indexed(files, spans) && TheEvent(files, spans, i) == None
    ensures Expected(files, spans, plan, [i] + entries) == [AbsentRow(plan)] + Expected(files, spans, plan, entries)
  {
    hide Indexed, TheEvent;
    assert EventRow(plan, None) == AbsentRow(plan);
    hide EventRow, AbsentRow;
  }

  /** The definition always answers for an event of a damaged record, alone or before others that it
      answers for. */
  lemma DefinitionAnswers(files: seq<ChainFile>, spans: Spans, plan: seq<BankPlan>, i: nat, entries: seq<nat>)
    requires Indexed(files, spans) && PlanOk(plan) && TheEvent(files, spans, i) == None
    ensures AllRowsFit(plan, Expected(files, spans, plan, entries))
    ensures AllRowsFit(plan, Expected(files, spans, plan, [i] + entries))
    ensures Assembled(plan, Expected(files, spans, plan, entries)).Some? ==>
      Assembled(plan, Expected(files, spans, plan, [i] + entries)).Some?
    ensures entries == [] ==> Assembled(plan, Expected(files, spans, plan, [i] + entries)).Some?
  {
    ExpectedFits(files, spans, plan, entries);
    ExpectedFits(files, spans, plan, [i] + entries);
    DamagedExpected(files, spans, plan, i, entries);
    hide Indexed, Expected, PlanOk, AllRowsFit, Assembled, AbsentRow;
    var rows := Expected(files, spans, plan, entries);
    if entries == [] {
      assert rows == [];
      NothingAssembles(plan);
    }
    if Assembled(plan, rows).Some? {
      AbsentFirst(plan, rows);
    }
  }

  /** Alone, `i` is answered as the definition has it; with `j` the read fails, although the
      definition answers wherever it answers for `j`. */
  ghost predicate TwoWays(files: seq<ChainFile>, spans: Spans, plan: seq<BankPlan>, i: nat, j: nat,
    alone: Option<seq<Buffers>>, together: Option<seq<Buffers>>)
    requires Indexed(files, spans) && PlanOk(plan)
  {
    ExpectedFits(files, spans, plan, [i]);
    ExpectedFits(files, spans, plan, [j]);
    ExpectedFits(files, spans, plan, [i, j]);
    && alone.Some? && alone == Assembled(plan, Expected(files, spans, plan, [i]))
    && together == None
    && (Assembled(plan, Expected(files, spans, plan, [j])).Some? ==> Assembled(plan, Expected(files, spans, plan, [i, j])).Some?)
  }

  lemma AreTwoWays(files: seq<ChainFile>, spans: Spans, plan: seq<BankPlan>, i: nat, j: nat,
    alone: Option<seq<Buffers>>, together: Option<seq<Buffers>>)
    requires Indexed(files, spans) && PlanOk(plan) && TheEvent(files, spans, i) == None && together == None
    requires AllRowsFit(plan, Expected(files, spans, plan, [i]))
    requires alone == Assembled(plan, Expected(files, spans, plan, [i]))
    ensures TwoWays(files, spans, plan, i, j, alone, together)
  {
    hide Indexed, PlanOk, AllRowsFit, Assembled, Expected, TheEvent;
    DefinitionAnswers(files, spans, plan, i, []);
    DefinitionAnswers(files, spans, plan, i, [j]);
    assert [i] + [] == [i] && [i] + [j] == [i, j];
  }

  /** Damage read two ways: an event of a record that does not decode, and an event of another. */
  method DamageTwoWays(cache: RecordCache, plan: seq<BankPlan>, i: nat, j: nat, ghost t: (nat, nat), ghost d: nat,
      ghost u: (nat, nat), ghost e: nat)
    returns (alone: Option<seq<Buffers>>, together: Option<seq<Buffers>>)
    requires cache.Valid() && PlanOk(plan) && plan != []
    requires IsAt(cache.spans, i, t, d) && IsAt(cache.spans, j, u, e) && t != u
    requires t.0 < |cache.files| && t.1 < |cache.files[t.0].records| && !StoredAt(cache.files, t).Decoded?
    modifies cache`slot
    ensures cache.Valid() && TwoWays(cache.files, cache.spans, plan, i, j, alone, together)
  {
    CacheIndexed(cache);
    DamagedEvent(cache.files, cache.spans, i, t, d);
    DamagedSelections(cache.files, cache.spans, plan, i, j, t, d, u, e);
    hide Indexed, IsOffsets, PlanOk, AllRowsFit, Assembled, Expected, InOneRecord, Intact, Faithful, AllRegular,
         GoodRows, RecordCache.Valid, TheEvent, TwoWays;
    alone := ReadColumnsAt(cache, plan, [i], [(None, None)]);
    together := ReadColumnsAt(cache, plan, [i, j], [(None, None), (None, None)]);
    AreTwoWays(cache.files, cache.spans, plan, i, j, alone, together);
  }

  lemma DamagedSelections(files: seq<ChainFile>, spans: Spans, plan: seq<BankPlan>, i: nat, j: nat, t: (nat, nat),
      d: nat, u: (nat, nat), e: nat)
    requires Indexed(files, spans) && plan != [] && IsAt(spans, i, t, d) && IsAt(spans, j, u, e) && t != u
    requires t.0 < |files| && t.1 < |files[t.0].records| && !StoredAt(files, t).Decoded?
    ensures InOneRecord(spans, [i]) && !Faithful(files, spans, plan, [i, j])
  {
    IndexedMeans(files, spans);
    hide IndexesOk, IsAt, Indexed;
    forall a: nat, b: nat, v: (nat, nat), w: (nat, nat), m: nat, n: nat |
      a < 1 && b < 1 && IsAt(spans, [i][a], v, m) && IsAt(spans, [i][b], w, n)
      ensures v == w
    {
      OneRecord(spans, i, v, m, w, n);
    }
    assert IsAt(spans, [i, j][0], t, d) && IsAt(spans, [i, j][1], u, e);
    assert !ReadsAt(files, spans, plan, t, d);
  }
}
