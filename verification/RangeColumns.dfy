/** `read_columns`: the columns of a range of the filtered stream, record by record
    (src/read/columns.rs). */
module RangeColumns {
  import opened Bytes
  import opened Schemas
  import opened Filters
  import opened EventIters
  import opened ChainIndexes
  import opened RecordScans
  import opened ChainScans
  import opened RangeScans
  import opened RangeTasks
  import opened RecordCaches
  import opened Columns
  import opened ColumnReads
  import opened ColumnLookups

  function Numbered(es: seq<nat>): (r: seq<(nat, nat)>)
    ensures |r| == |es|
  {
    seq(|es|, k requires 0 <= k < |es| => (k, es[k]))
  }

  /** The record contributes: it was passed over, or it decodes and every bank taken can be read. */
  ghost predicate Contributes(plan: seq<BankPlan>, stored: Stored, start: nat, count: nat, range: Range,
      f: Option<Bound>)
    requires stored.Decoded? ==> stored.content.Valid()
  {
    !Meets(range, start, start + count) || (stored.Decoded? && WantedOk(plan, stored.content, Numbered(Taken(stored, start, range, f))))
  }

  /** The rows a record contributes. */
  ghost function TakenRows(plan: seq<BankPlan>, stored: Stored, start: nat, count: nat, range: Range,
      f: Option<Bound>): (r: seq<Row>)
    requires stored.Decoded? ==> stored.content.Valid() && stored.content.Count() == count
    requires Contributes(plan, stored, start, count, range, f)
    ensures |r| == |Taken(stored, start, range, f)|
  {
    if !Meets(range, start, start + count) then
      SkippedTakesNothing(stored, start, count, range, f);
      []
    else WantedRows(plan, stored.content, Numbered(Taken(stored, start, range, f)))
  }

  /** One more event of the record. */
  lemma RowTaken(plan: seq<BankPlan>, c: Content, seen: seq<nat>, i: nat)
    requires c.Valid() && WantedOk(plan, c, Numbered(seen)) && GroupedOk(plan, c, i)
    ensures WantedOk(plan, c, Numbered(seen + [i]))
    ensures WantedRows(plan, c, Numbered(seen + [i])) == WantedRows(plan, c, Numbered(seen)) + [GroupedRow(plan, c, i)]
  {
    hide GroupedOk, GroupedRow, Content.Valid;
    assert Numbered(seen + [i]) == Numbered(seen) + [(|seen|, i)];
  }

  lemma RowRefused(plan: seq<BankPlan>, c: Content, seen: seq<nat>, i: nat, later: seq<nat>)
    requires c.Valid() && !GroupedOk(plan, c, i)
    ensures !WantedOk(plan, c, Numbered(seen + [i] + later))
  {
    hide GroupedOk, Content.Valid;
    var es := seen + [i] + later;
    assert Numbered(es)[|seen|] == (|seen|, i);
  }

  /** `process_record_columns`: passed over, or read once and every event taken pushed in order. */
  method ProcessRecordColumns(plan: seq<BankPlan>, stored: Stored, start: nat, count: nat, range: Range,
    clauses: Option<Clauses>, union: seq<Schema>) returns (r: Option<seq<Chunk>>)
    requires PlanOk(plan) && (stored.Decoded? ==> stored.content.Valid() && stored.content.Count() == count)
    ensures r.Some? <==> Contributes(plan, stored, start, count, range, Binding(clauses, union))
    ensures r.Some? ==>
      && AllRowsFit(plan, TakenRows(plan, stored, start, count, range, Binding(clauses, union)))
      && r.value == ChunkOf(plan, TakenRows(plan, stored, start, count, range, Binding(clauses, union)))
  {
    NoRowsFit(plan);
    EmptyIsNoRows(plan);
    if !Meets(range, start, start + count) {
      return Some(EmptyRecord(plan));
    }
    if !stored.Decoded? {
      return None;
    }
    hide WantedOk, WantedRows, AllRowsFit, ChunkOf, PlanOk, Content.Valid, Meets, Visited;
    r := CollectTaken(plan, stored.content, RangeWindow(range, start), clauses, union);
  }

  /** `banks` holds the rows of these events. */
  ghost predicate Gathered(plan: seq<BankPlan>, c: Content, es: seq<nat>, banks: seq<Chunk>)
    requires c.Valid()
  {
    && WantedOk(plan, c, Numbered(es)) && AllRowsFit(plan, WantedRows(plan, c, Numbered(es)))
    && banks == ChunkOf(plan, WantedRows(plan, c, Numbered(es)))
  }

  lemma GatheredNothing(plan: seq<BankPlan>, c: Content)
    requires PlanOk(plan) && c.Valid()
    ensures Gathered(plan, c, [], EmptyRecord(plan))
  {
    NoRowsFit(plan);
    EmptyIsNoRows(plan);
    assert WantedRows(plan, c, Numbered([])) == [];
  }

  /** One more event onto the record's chunks. */
  method PushTaken(plan: seq<BankPlan>, c: Content, banks: seq<Chunk>, i: nat, ghost seen: seq<nat>)
    returns (r: Option<seq<Chunk>>)
    requires PlanOk(plan) && c.Valid() && Gathered(plan, c, seen, banks)
    ensures r.Some? <==> GroupedOk(plan, c, i)
    ensures r.Some? ==> Gathered(plan, c, seen + [i], r.value)
  {
    hide Content.Valid, GroupedOk, GroupedRow, ChunkOf, AllRowsFit, PlanOk, RowFits, WantedOk, WantedRows, Numbered;
    var row := ReadRow(plan, c, i);
    if row.None? {
      return None;
    }
    GroupedRowFits(plan, c, i);
    RowTaken(plan, c, seen, i);
    var grown := PushRow(plan, banks, row.value, WantedRows(plan, c, Numbered(seen)));
    r := Some(grown);
  }

  /** Every event the window holds and the filter passes, in order. */
  method CollectTaken(plan: seq<BankPlan>, c: Content, w: Option<Window>, clauses: Option<Clauses>, union: seq<Schema>)
    returns (r: Option<seq<Chunk>>)
    requires PlanOk(plan) && c.Valid()
    ensures r.Some? <==> WantedOk(plan, c, Numbered(Visited(c, Binding(clauses, union), w)))
    ensures r.Some? ==> Gathered(plan, c, Visited(c, Binding(clauses, union), w), r.value)
  {
    GatheredNothing(plan, c);
    ghost var f := Binding(clauses, union);
    ghost var flags := VisitFlags(c, f, w);
    ghost var seen: seq<nat> := [];
    hide Content.Valid, GroupedOk, Gathered, EmptyRecord, PlanOk, Picked, VisitFlags, Inside, Passes, EventAt, BoundTo,
         WantedOk;
    var banks := EmptyRecord(plan);
    for i := 0 to c.Count()
      invariant Picked(flags, 0) == seen + Picked(flags, i)
      invariant Gathered(plan, c, seen, banks)
    {
      FlagsAt(c, f, w, i);
      PickedStep(seen, flags, i);
      if Inside(w, i) {
        var pass := Admits(c, if clauses.Some? then clauses.value else Clauses([], [], [], 0), union, clauses.Some?, i);
        if pass {
          var grown := PushTaken(plan, c, banks, i, seen);
          if grown.None? {
            RowRefused(plan, c, seen, i, Picked(flags, i + 1));
            return None;
          }
          seen := seen + [i];
          banks := grown.value;
        }
      }
    }
    PickedNone(flags, seen);
    GatheredMeans(plan, c, seen, banks);
    r := Some(banks);
  }

  lemma GatheredMeans(plan: seq<BankPlan>, c: Content, es: seq<nat>, banks: seq<Chunk>)
    requires c.Valid() && Gathered(plan, c, es, banks)
    ensures WantedOk(plan, c, Numbered(es))
  {
  }

  lemma PickedNone(flags: seq<bool>, seen: seq<nat>)
    ensures seen + Picked(flags, |flags|) == seen
  {
  }

  // ---- The whole chain ----------------------------------------------------------

  ghost predicate TaskContributes(files: seq<ChainFile>, spans: Spans, plan: seq<BankPlan>, range: Range,
      f: Option<Bound>, t: (nat, nat))
    requires Indexed(files, spans) && IsRecord(spans, t)
  {
    IndexedRecord(files, spans, t);
    Contributes(plan, StoredAt(files, t), Start(spans, t), spans[t.0][t.1].eventCount, range, f)
  }

  /** Every record of the scan contributes. */
  ghost predicate AllContribute(files: seq<ChainFile>, spans: Spans, plan: seq<BankPlan>, range: Range,
      f: Option<Bound>, tasks: seq<(nat, nat)>)
    requires Indexed(files, spans)
  {
    forall k :: 0 <= k < |tasks| ==>
      IsRecord(spans, tasks[k]) && TaskContributes(files, spans, plan, range, f, tasks[k])
  }

  /** The record lies in part within the range, and it is damaged or some event that is to be taken cannot be
      read. */
  ghost predicate FailsAt(files: seq<ChainFile>, spans: Spans, plan: seq<BankPlan>, range: Range, f: Option<Bound>,
      t: (nat, nat))
    requires Indexed(files, spans) && IsRecord(spans, t)
  {
    IndexedRecord(files, spans, t);
    var start, count := Start(spans, t), spans[t.0][t.1].eventCount;
    && (range.Some? ==> start + count > range.value.0 && start < range.value.1)
    && (StoredAt(files, t).Decoded? ==> exists e: nat :: Takes(StoredAt(files, t), start, count, range, f, e)
                                          && !GroupedOk(plan, StoredAt(files, t).content, e))
  }

  lemma ContributesUnless(files: seq<ChainFile>, spans: Spans, plan: seq<BankPlan>, range: Range, f: Option<Bound>,
      t: (nat, nat))
    requires Indexed(files, spans) && IsRecord(spans, t)
    ensures TaskContributes(files, spans, plan, range, f, t) <==> !FailsAt(files, spans, plan, range, f, t)
  {
    IndexedRecord(files, spans, t);
    hide Indexed, Start, Content.Valid, GroupedOk, Passes, EventAt, Taken;
    var stored, start, count := StoredAt(files, t), Start(spans, t), spans[t.0][t.1].eventCount;
    if stored.Decoded? {
      TakenAre(stored, start, range, f);
      var es := Taken(stored, start, range, f);
      assert forall k :: 0 <= k < |es| ==> Numbered(es)[k].1 == es[k] && es[k] in es;
      assert forall e: nat :: e in es <==> Takes(stored, start, count, range, f, e);
    }
  }

  /** A scan contributes throughout exactly when no picked record fails. */
  lemma AllContributeUnless(files: seq<ChainFile>, spans: Spans, plan: seq<BankPlan>, range: Range, f: Option<Bound>,
      tags: Option<seq<nat>>)
    requires Indexed(files, spans)
    ensures AllContribute(files, spans, plan, range, f, Tasks(files, tags, 0)) <==>
      forall t :: Picks(files, spans, tags, t) ==> !FailsAt(files, spans, plan, range, f, t)
  {
    TasksAreRecords(files, spans, tags);
    hide Indexed, Tasks, FailsAt, TaskContributes, Ordered;
    var tasks := Tasks(files, tags, 0);
    forall t | IsRecord(spans, t)
      ensures TaskContributes(files, spans, plan, range, f, t) <==> !FailsAt(files, spans, plan, range, f, t)
    {
      ContributesUnless(files, spans, plan, range, f, t);
    }
    forall k | 0 <= k < |tasks|
      ensures Picks(files, spans, tags, tasks[k])
    {
      assert tasks[k] in tasks;
    }
  }

  ghost function RowsAt(files: seq<ChainFile>, spans: Spans, plan: seq<BankPlan>, range: Range, f: Option<Bound>,
      t: (nat, nat)): (r: seq<Row>)
    requires Indexed(files, spans) && IsRecord(spans, t) && TaskContributes(files, spans, plan, range, f, t)
    ensures |r| == |TaskVisits(files, spans, f, range, t)|
  {
    IndexedRecord(files, spans, t);
    TakenRows(plan, StoredAt(files, t), Start(spans, t), spans[t.0][t.1].eventCount, range, f)
  }

  /** The rows of each record in turn. */
  ghost function RowGroups(files: seq<ChainFile>, spans: Spans, plan: seq<BankPlan>, range: Range, f: Option<Bound>,
      tasks: seq<(nat, nat)>): (r: seq<seq<Row>>)
    requires Indexed(files, spans) && AllContribute(files, spans, plan, range, f, tasks)
    ensures |r| == |tasks|
  {
    seq(|tasks|, k requires 0 <= k < |tasks| => RowsAt(files, spans, plan, range, f, tasks[k]))
  }

  /** The events of each record in turn, by their numbers in the chain. */
  function NumberGroups(files: seq<ChainFile>, spans: Spans, range: Range, f: Option<Bound>,
      tasks: seq<(nat, nat)>): (r: seq<seq<nat>>)
    requires Indexed(files, spans) && forall t :: t in tasks ==> IsRecord(spans, t)
    ensures |r| == |tasks|
  {
    seq(|tasks|, k requires 0 <= k < |tasks| =>
      assert tasks[k] in tasks;
      Shift(TaskVisits(files, spans, f, range, tasks[k]), Start(spans, tasks[k])))
  }

  /** Record `t` is picked by the tags and event `g` of the chain is one of its, decodes, is in the
      range and passes the filter. */
  ghost predicate TakenFrom(files: seq<ChainFile>, spans: Spans, range: Range, tags: Option<seq<nat>>,
      f: Option<Bound>, t: (nat, nat), g: nat)
    requires Indexed(files, spans)
  {
    Picks(files, spans, tags, t) && g >= Start(spans, t) && TakesIn(files, spans, range, f, t, g - Start(spans, t))
  }

  ghost predicate TakesIn(files: seq<ChainFile>, spans: Spans, range: Range, f: Option<Bound>, t: (nat, nat), e: nat)
    requires Indexed(files, spans) && IsRecord(spans, t)
  {
    IndexedRecord(files, spans, t);
    Takes(StoredAt(files, t), Start(spans, t), spans[t.0][t.1].eventCount, range, f, e)
  }

  lemma VisitsAreTaken(files: seq<ChainFile>, spans: Spans, range: Range, f: Option<Bound>, t: (nat, nat))
    requires Indexed(files, spans) && IsRecord(spans, t)
    ensures Increasing(TaskVisits(files, spans, f, range, t))
    ensures forall e: nat :: e in TaskVisits(files, spans, f, range, t) <==> TakesIn(files, spans, range, f, t, e)
  {
    IndexedRecord(files, spans, t);
    hide Indexed, Start, Content.Valid, Takes, Taken;
    WhatIsTaken(StoredAt(files, t), Start(spans, t), spans[t.0][t.1].eventCount, range, f);
  }

  /** The numbers a record's part of the scan stands for. */
  lemma GroupNumbers(files: seq<ChainFile>, spans: Spans, range: Range, tags: Option<seq<nat>>, f: Option<Bound>,
      t: (nat, nat))
    requires Indexed(files, spans) && Picks(files, spans, tags, t)
    ensures
      var own := Shift(TaskVisits(files, spans, f, range, t), Start(spans, t));
      && Increasing(own)
      && forall g: nat :: g in own <==> TakenFrom(files, spans, range, tags, f, t, g)
  {
    hide Indexed, Start, TakesIn, Picks, Shift, Increasing, TaskVisits;
    assert IsRecord(spans, t) by { PickedIsRecord(files, spans, tags, t); }
    VisitsAreTaken(files, spans, range, f, t);
    ShiftAre(TaskVisits(files, spans, f, range, t), Start(spans, t));
  }

  lemma PickedIsRecord(files: seq<ChainFile>, spans: Spans, tags: Option<seq<nat>>, t: (nat, nat))
    requires Picks(files, spans, tags, t)
    ensures IsRecord(spans, t)
  {
  }

  lemma TakenFromOwn(files: seq<ChainFile>, spans: Spans, range: Range, tags: Option<seq<nat>>, f: Option<Bound>,
      t: (nat, nat), g: nat)
    requires Indexed(files, spans) && TakenFrom(files, spans, range, tags, f, t, g)
    ensures IsRecord(spans, t) && Start(spans, t) <= g < End(spans, t)
  {
    hide Indexed, Start, Content.Valid, InRange, Passes, EventAt;
  }

  /** The numbers of the events a columnar scan takes. */
  function Numbers(files: seq<ChainFile>, spans: Spans, range: Range, f: Option<Bound>,
      tags: Option<seq<nat>>): (r: seq<nat>)
    requires Indexed(files, spans)
  {
    TasksAreRecords(files, spans, tags);
    Flatten(NumberGroups(files, spans, range, f, Tasks(files, tags, 0)))
  }

  function Starts(spans: Spans, tasks: seq<(nat, nat)>): (r: seq<nat>)
    requires forall t :: t in tasks ==> IsRecord(spans, t)
    ensures |r| == |tasks|
  {
    seq(|tasks|, k requires 0 <= k < |tasks| => assert tasks[k] in tasks; Start(spans, tasks[k]))
  }

  function Ends(spans: Spans, tasks: seq<(nat, nat)>): (r: seq<nat>)
    requires forall t :: t in tasks ==> IsRecord(spans, t)
    ensures |r| == |tasks|
  {
    seq(|tasks|, k requires 0 <= k < |tasks| => assert tasks[k] in tasks; End(spans, tasks[k]))
  }

  /** The parts stay inside their records, and records follow one another. */
  lemma PartsApart(files: seq<ChainFile>, spans: Spans, range: Range, f: Option<Bound>, tags: Option<seq<nat>>)
    requires Indexed(files, spans) && forall t :: t in Tasks(files, tags, 0) ==> IsRecord(spans, t)
    ensures
      var tasks := Tasks(files, tags, 0);
      var parts := NumberGroups(files, spans, range, f, tasks);
      forall k, g :: 0 <= k < |tasks| && g in parts[k] ==> Starts(spans, tasks)[k] <= g < Ends(spans, tasks)[k]
    ensures
      var tasks := Tasks(files, tags, 0);
      forall i, j :: 0 <= i < j < |tasks| ==> Ends(spans, tasks)[i] <= Starts(spans, tasks)[j]
  {
    TasksAreRecords(files, spans, tags);
    assert IndexesOk(spans);
    var tasks := Tasks(files, tags, 0);
    hide Indexed, IndexesOk, Tasks, TaskVisits, Start, End, Picks, InRange, Passes, EventAt, Content.Valid, Shift;
    forall k | 0 <= k < |tasks|
      ensures forall g: nat :: g in NumberGroups(files, spans, range, f, tasks)[k] ==>
        Starts(spans, tasks)[k] <= g < Ends(spans, tasks)[k]
    {
      assert tasks[k] in tasks;
      GroupNumbers(files, spans, range, tags, f, tasks[k]);
      forall g: nat | g in NumberGroups(files, spans, range, f, tasks)[k]
        ensures Starts(spans, tasks)[k] <= g < Ends(spans, tasks)[k]
      {
        TakenFromOwn(files, spans, range, tags, f, tasks[k], g);
      }
    }
    forall i, j | 0 <= i < j < |tasks|
      ensures Ends(spans, tasks)[i] <= Starts(spans, tasks)[j]
    {
      assert tasks[i] in tasks && tasks[j] in tasks;
      RecordsInOrder(spans, tasks[i], tasks[j]);
    }
  }

  lemma TakenIsPicked(files: seq<ChainFile>, spans: Spans, range: Range, tags: Option<seq<nat>>, f: Option<Bound>,
      t: (nat, nat), g: nat)
    requires Indexed(files, spans) && TakenFrom(files, spans, range, tags, f, t, g)
    ensures Picks(files, spans, tags, t)
  {
  }

  /** They ascend, and they are exactly the events of picked records that are in the range and
      pass the filter. */
  lemma NumbersAre(files: seq<ChainFile>, spans: Spans, range: Range, f: Option<Bound>, tags: Option<seq<nat>>)
    requires Indexed(files, spans)
    ensures Increasing(Numbers(files, spans, range, f, tags))
    ensures forall g: nat :: g in Numbers(files, spans, range, f, tags) <==>
      exists t :: TakenFrom(files, spans, range, tags, f, t, g)
  {
    TasksAreRecords(files, spans, tags);
    var tasks := Tasks(files, tags, 0);
    var parts := NumberGroups(files, spans, range, f, tasks);
    var lows, highs := Starts(spans, tasks), Ends(spans, tasks);
    hide Indexed, Tasks, TaskVisits, Start, End, Starts, Ends, Picks, TakenFrom, InRange, Passes, EventAt,
         Content.Valid, Flatten, Shift;
    forall k | 0 <= k < |tasks|
      ensures Increasing(parts[k]) && forall g: nat :: g in parts[k] <==>
        TakenFrom(files, spans, range, tags, f, tasks[k], g)
    {
      assert tasks[k] in tasks;
      GroupNumbers(files, spans, range, tags, f, tasks[k]);
    }
    PartsApart(files, spans, range, f, tags);
    JoinIncreasing(parts, lows, highs);
    forall g: nat
      ensures g in Numbers(files, spans, range, f, tags) <==> exists t :: TakenFrom(files, spans, range, tags, f, t, g)
    {
      FlattenMember(parts, g);
      NumberIsIn(files, spans, range, f, tags, parts, g);
    }
  }

  lemma NumberIsIn(files: seq<ChainFile>, spans: Spans, range: Range, f: Option<Bound>, tags: Option<seq<nat>>,
      parts: seq<seq<nat>>, g: nat)
    requires Indexed(files, spans) && |parts| == |Tasks(files, tags, 0)|
    requires forall k :: 0 <= k < |parts| ==>
      (g in parts[k] <==> TakenFrom(files, spans, range, tags, f, Tasks(files, tags, 0)[k], g))
    ensures (exists k :: 0 <= k < |parts| && g in parts[k]) <==>
      exists t :: TakenFrom(files, spans, range, tags, f, t, g)
  {
    TasksAreRecords(files, spans, tags);
    hide Indexed, Tasks, Picks, TakenFrom;
    if t :| TakenFrom(files, spans, range, tags, f, t, g) {
      TakenIsPicked(files, spans, range, tags, f, t, g);
      var k :| 0 <= k < |parts| && Tasks(files, tags, 0)[k] == t;
      assert g in parts[k];
    }
  }

  // ---- What the scan returns ------------------------------------------------------

  /** Every row a record contributes is the grouped reader's row of the event of that number. */
  lemma TakenRowGood(files: seq<ChainFile>, spans: Spans, plan: seq<BankPlan>, range: Range, f: Option<Bound>,
      t: (nat, nat), i: nat)
    requires Indexed(files, spans) && IsRecord(spans, t) && TaskContributes(files, spans, plan, range, f, t)
    requires i < |TaskVisits(files, spans, f, range, t)|
    ensures GoodRow(files, spans, plan, Start(spans, t) + TaskVisits(files, spans, f, range, t)[i],
      RowsAt(files, spans, plan, range, f, t)[i])
  {
    IndexedRecord(files, spans, t);
    hide Taken, GroupedOk, GroupedRow, Content.Valid, Start, Base;
    var stored, start, count := StoredAt(files, t), Start(spans, t), spans[t.0][t.1].eventCount;
    var es := Taken(stored, start, range, f);
    if !Meets(range, start, start + count) {
      SkippedTakesNothing(stored, start, count, range, f);
    } else {
      assert Numbered(es)[i] == (i, es[i]);
      PlaceBelowTotal(spans, start + es[i], t, es[i]);
      assert GoodRowAt(files, spans, plan, start + es[i], WantedRows(plan, stored.content, Numbered(es))[i], t, es[i]);
    }
  }

  lemma GroupsInStep(files: seq<ChainFile>, spans: Spans, plan: seq<BankPlan>, range: Range, f: Option<Bound>,
      tasks: seq<(nat, nat)>)
    requires Indexed(files, spans) && AllContribute(files, spans, plan, range, f, tasks)
    ensures
      var rows, numbers := RowGroups(files, spans, plan, range, f, tasks), NumberGroups(files, spans, range, f, tasks);
      && (forall j :: 0 <= j < |tasks| ==> |rows[j]| == |numbers[j]|)
      && forall j, i :: 0 <= j < |tasks| && 0 <= i < |rows[j]| ==>
        GoodRow(files, spans, plan, numbers[j][i], rows[j][i])
  {
    hide Indexed, TaskVisits, RowsAt, TaskContributes, Start, GoodRow, IsRecord;
    forall j, i: nat | 0 <= j < |tasks| && i < |RowsAt(files, spans, plan, range, f, tasks[j])|
      ensures GoodRow(files, spans, plan, Start(spans, tasks[j]) + TaskVisits(files, spans, f, range, tasks[j])[i],
                      RowsAt(files, spans, plan, range, f, tasks[j])[i])
    {
      TakenRowGood(files, spans, plan, range, f, tasks[j], i);
    }
  }

  lemma RowsAreOfNumbers(files: seq<ChainFile>, spans: Spans, plan: seq<BankPlan>, range: Range, f: Option<Bound>,
      tags: Option<seq<nat>>)
    requires Indexed(files, spans) && AllContribute(files, spans, plan, range, f, Tasks(files, tags, 0))
    requires AllRowsFit(plan, Flatten(RowGroups(files, spans, plan, range, f, Tasks(files, tags, 0))))
    ensures GoodRows(files, spans, plan, Numbers(files, spans, range, f, tags),
                     Flatten(RowGroups(files, spans, plan, range, f, Tasks(files, tags, 0))))
  {
    TasksAreRecords(files, spans, tags);
    var tasks := Tasks(files, tags, 0);
    var rows, numbers := RowGroups(files, spans, plan, range, f, tasks), NumberGroups(files, spans, range, f, tasks);
    GroupsInStep(files, spans, plan, range, f, tasks);
    hide Indexed, Tasks, RowGroups, NumberGroups, GoodRow, AllRowsFit, Flatten;
    SameShapeSameLength(rows, numbers);
    forall k | 0 <= k < |Flatten(rows)|
      ensures GoodRow(files, spans, plan, Flatten(numbers)[k], Flatten(rows)[k])
    {
      var j, i := FlattenInStep(rows, numbers, k);
    }
  }

  /** `read_columns`, one record after another. It fails exactly when a record it cannot pass over
      is damaged or a column's totals do not match; otherwise the columns are those of the events
      taken, in order, each once: what `read_columns_at` gives for their numbers. */
  method ReadColumns(files: seq<ChainFile>, spans: Spans, offsets: seq<nat>, plan: seq<BankPlan>, range: Range,
    clauses: Option<Clauses>, union: seq<Schema>, tags: Option<seq<nat>>) returns (r: Option<seq<Buffers>>)
    requires Indexed(files, spans) && IsOffsets(spans, offsets) && PlanOk(plan)
    ensures plan == [] ==> r == Some([])
    ensures plan != [] && (exists t :: Picks(files, spans, tags, t) && FailsAt(files, spans, plan, range, Binding(clauses, union), t)) ==>
      r == None
    ensures
      var f := Binding(clauses, union);
      plan != [] ==>
        if AllContribute(files, spans, plan, range, f, Tasks(files, tags, 0)) then
          && AllRowsFit(plan, Flatten(RowGroups(files, spans, plan, range, f, Tasks(files, tags, 0))))
          && r == Assembled(plan, Flatten(RowGroups(files, spans, plan, range, f, Tasks(files, tags, 0))))
        else r == None
    ensures
      var f := Binding(clauses, union);
      var numbers := Numbers(files, spans, range, f, tags);
      && AllRowsFit(plan, Expected(files, spans, plan, numbers))
      && (r.Some? && AllRegular(files, spans, plan, numbers) ==> r == Assembled(plan, Expected(files, spans, plan, numbers)))
  {
    ghost var f := Binding(clauses, union);
    ExpectedFits(files, spans, plan, Numbers(files, spans, range, f, tags));
    if plan == [] {
      NothingPlanned(plan, Expected(files, spans, plan, Numbers(files, spans, range, f, tags)));
      return Some([]);
    }
    AllContributeUnless(files, spans, plan, range, f, tags);
    r := CollectRecords(files, spans, offsets, plan, range, clauses, union, tags);
    if r.Some? && AllRegular(files, spans, plan, Numbers(files, spans, range, f, tags)) {
      hide Numbers, RowGroups, AllContribute, GoodRows, AllRegular, Indexed, Assembled, AllRowsFit, PlanOk, Expected;
      RowsAreOfNumbers(files, spans, plan, range, f, tags);
      GoodRowsAssemble(files, spans, plan, Numbers(files, spans, range, f, tags),
                       Flatten(RowGroups(files, spans, plan, range, f, Tasks(files, tags, 0))));
    }
  }

  method CollectRecords(files: seq<ChainFile>, spans: Spans, offsets: seq<nat>, plan: seq<BankPlan>, range: Range,
    clauses: Option<Clauses>, union: seq<Schema>, tags: Option<seq<nat>>) returns (r: Option<seq<Buffers>>)
    requires Indexed(files, spans) && IsOffsets(spans, offsets) && PlanOk(plan)
    ensures
      var f := Binding(clauses, union);
      if AllContribute(files, spans, plan, range, f, Tasks(files, tags, 0)) then
        && AllRowsFit(plan, Flatten(RowGroups(files, spans, plan, range, f, Tasks(files, tags, 0))))
        && r == Assembled(plan, Flatten(RowGroups(files, spans, plan, range, f, Tasks(files, tags, 0))))
      else r == None
  {
    hide Indexed, Tasks, Contributes, TakenRows, ChunkOf, AllRowsFit, PlanOk, Flatten, Assembled, Base, Binding;
    ghost var f := Binding(clauses, union);
    NoRowsFit(plan);
    TasksAreRecords(files, spans, tags);
    var tasks := BuildTasks(files, tags);
    var chunks: seq<seq<Chunk>> := [];
    for k := 0 to |tasks|
      invariant AllContribute(files, spans, plan, range, f, tasks[..k])
      invariant Pieces(plan, chunks, RowGroups(files, spans, plan, range, f, tasks[..k]))
    {
      var t := tasks[k];
      assert t in tasks;
      IndexedRecord(files, spans, t);
      var span := spans[t.0][t.1];
      var chunk := ProcessRecordColumns(plan, StoredAt(files, t), offsets[t.0] + span.firstEvent, span.eventCount,
        range, clauses, union);
      if chunk.None? {
        return None;
      }
      assert tasks[..k + 1] == tasks[..k] + [t];
      assert RowGroups(files, spans, plan, range, f, tasks[..k + 1])
        == RowGroups(files, spans, plan, range, f, tasks[..k]) + [RowsAt(files, spans, plan, range, f, t)];
      chunks := chunks + [chunk.value];
    }
    assert tasks[..|tasks|] == tasks;
    r := MergeChunks(plan, chunks, RowGroups(files, spans, plan, range, f, tasks));
  }
}
