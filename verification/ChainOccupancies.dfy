/** Occupancy over a whole chain: per-record tallies merged, over any range and by any workers
    (src/read/occupancy.rs). */
module ChainOccupancies {
  import opened Bytes
  import opened Schemas
  import opened Filters
  import opened EventIters
  import opened RecordScans
  import opened ChainIndexes
  import opened ChainScans
  import opened RangeScans
  import opened RangeTasks
  import opened Occupancies

  function TaskRows(files: seq<ChainFile>, spans: Spans, schemas: seq<BankKey>, f: Option<Bound>, range: Range,
    t: (nat, nat), k: nat): (rows: seq<nat>)
    requires Indexed(files, spans) && IsRecord(spans, t) && k < |schemas|
  {
    IndexedRecord(files, spans, t);
    if StoredAt(files, t).Decoded? then
      RecordRows(schemas, StoredAt(files, t).content, TaskVisits(files, spans, f, range, t), k)
    else []
  }

  // ---- The whole count ----------------------------------------------------------------

  /** The row counts each task contributes to slot `k`. */
  function RowsByTask(files: seq<ChainFile>, spans: Spans, schemas: seq<BankKey>, f: Option<Bound>, range: Range,
    tasks: seq<(nat, nat)>, k: nat): (r: seq<seq<nat>>)
    requires Indexed(files, spans) && AllRecords(spans, tasks) && k < |schemas|
    ensures |r| == |tasks|
  {
    seq(|tasks|, i requires 0 <= i < |tasks| => TaskRows(files, spans, schemas, f, range, tasks[i], k))
  }

  /** How many events each task scans. */
  function VisitCounts(files: seq<ChainFile>, spans: Spans, f: Option<Bound>, range: Range,
      tasks: seq<(nat, nat)>): (r: seq<nat>)
    requires Indexed(files, spans) && AllRecords(spans, tasks)
    ensures |r| == |tasks|
  {
    seq(|tasks|, i requires 0 <= i < |tasks| => |TaskVisits(files, spans, f, range, tasks[i])|)
  }

  /** All the events of the tasks were scanned, and every slot's tally is that of their rows. */
  ghost predicate Counted(files: seq<ChainFile>, spans: Spans, schemas: seq<BankKey>, f: Option<Bound>, range: Range,
    tasks: seq<(nat, nat)>, scanned: nat, total: seq<Tally>)
    requires Indexed(files, spans) && AllRecords(spans, tasks)
  {
    && scanned == Sum(VisitCounts(files, spans, f, range, tasks)) && |total| == |schemas|
    && forall k :: 0 <= k < |schemas| ==>
      total[k] == TallyOf(Flatten(RowsByTask(files, spans, schemas, f, range, tasks, k)))
  }

  method MergeTallies(into: seq<Tally>, from: seq<Tally>) returns (r: seq<Tally>)
    requires |into| == |from|
    ensures |r| == |into| && forall k :: 0 <= k < |into| ==> r[k] == Merged(into[k], from[k])
  {
    r := into;
    for k := 0 to |into|
      invariant |r| == |into|
      invariant forall j :: 0 <= j < k ==> r[j] == Merged(into[j], from[j])
      invariant forall j :: k <= j < |into| ==> r[j] == into[j]
    {
      r := r[k := Merged(r[k], from[k])];
    }
  }

  /** One task: skipped unread when the range misses it, counted otherwise. */
  method CountTask(files: seq<ChainFile>, spans: Spans, offsets: seq<nat>, schemas: seq<BankKey>,
      clauses: Option<Clauses>, union: seq<Schema>,
    range: Range, t: (nat, nat)) returns (tallies: seq<Tally>, scanned: nat, ok: bool)
    requires Indexed(files, spans) && IsOffsets(spans, offsets) && IsRecord(spans, t)
    ensures t.0 < |files| && t.1 < |files[t.0].records|
    ensures ok <==> !Meets(range, Start(spans, t), End(spans, t)) || StoredAt(files, t).Decoded?
    ensures ok ==> scanned == |TaskVisits(files, spans, Binding(clauses, union), range, t)|
    ensures ok ==> |tallies| == |schemas| && forall k :: 0 <= k < |schemas| ==>
      tallies[k] == TallyOf(TaskRows(files, spans, schemas, Binding(clauses, union), range, t, k))
  {
    hide Indexed, Visited, RecordRows, TallyOf, BoundTo, InRanges, Base, Content.Valid;
    IndexedRecord(files, spans, t);
    ghost var f := Binding(clauses, union);
    var start := offsets[t.0] + spans[t.0][t.1].firstEvent;
    var end := start + spans[t.0][t.1].eventCount;
    if !Meets(range, start, end) {
      SkippedTakesNothing(StoredAt(files, t), start, spans[t.0][t.1].eventCount, range, f);
      NoneCounted(files, spans, schemas, f, range, t);
      return NoTallies(|schemas|), 0, true;
    }
    var stored := StoredAt(files, t);
    scanned, tallies, ok := CountRecord(stored, schemas, if clauses.Some? then clauses.value else Clauses([], [], [], 0), union,
                                        clauses.Some?, RangeWindow(range, start));
  }

  lemma NoneCounted(files: seq<ChainFile>, spans: Spans, schemas: seq<BankKey>, f: Option<Bound>, range: Range,
      t: (nat, nat))
    requires Indexed(files, spans) && IsRecord(spans, t) && TaskVisits(files, spans, f, range, t) == []
    ensures forall k :: 0 <= k < |schemas| ==> TallyOf(TaskRows(files, spans, schemas, f, range, t, k)) == NOTHING
  {
    hide Indexed, TaskVisits, Content.Valid;
    IndexedRecord(files, spans, t);
    TallyEmpty();
  }

  lemma CountedSnoc(files: seq<ChainFile>, spans: Spans, schemas: seq<BankKey>, f: Option<Bound>, range: Range,
    tasks: seq<(nat, nat)>, i: nat, scanned: nat, total: seq<Tally>, own: seq<Tally>, merged: seq<Tally>)
    requires Indexed(files, spans) && AllRecords(spans, tasks) && i < |tasks|
    requires Counted(files, spans, schemas, f, range, tasks[..i], scanned, total)
    requires |own| == |merged| == |schemas|
    requires forall k :: 0 <= k < |schemas| ==>
      own[k] == TallyOf(TaskRows(files, spans, schemas, f, range, tasks[i], k))
    requires forall k :: 0 <= k < |schemas| ==> merged[k] == Merged(total[k], own[k])
    ensures Counted(files, spans, schemas, f, range, tasks[..i + 1],
      scanned + |TaskVisits(files, spans, f, range, tasks[i])|, merged)
  {
    hide Indexed, TaskRows, TaskVisits, TallyOf, Flatten, Merged, Sum;
    assert tasks[..i + 1] == tasks[..i] + [tasks[i]];
    var counts := VisitCounts(files, spans, f, range, tasks[..i]);
    assert VisitCounts(files, spans, f, range, tasks[..i + 1])
      == counts + [|TaskVisits(files, spans, f, range, tasks[i])|];
    SumSnoc(counts, |TaskVisits(files, spans, f, range, tasks[i])|);
    forall k | 0 <= k < |schemas|
      ensures merged[k] == TallyOf(Flatten(RowsByTask(files, spans, schemas, f, range, tasks[..i + 1], k)))
    {
      var before, rows := RowsByTask(files, spans, schemas, f, range, tasks[..i], k),
          TaskRows(files, spans, schemas, f, range, tasks[i], k);
      assert RowsByTask(files, spans, schemas, f, range, tasks[..i + 1], k) == before + [rows];
      FlattenSnoc(before, rows);
      MergedIsTogether(Flatten(before), rows);
    }
  }

  /** `bank_occupancy` on one thread: how many events were scanned and the tally of all of them, each
      record read at most once and those outside the range not at all. An empty dictionary is
      answered with nothing scanned, before anything is read. */
  method BankOccupancy(files: seq<ChainFile>, spans: Spans, offsets: seq<nat>, schemas: seq<BankKey>,
      clauses: Option<Clauses>,
    union: seq<Schema>, tags: Option<seq<nat>>, range: Range) returns (total: seq<Tally>, scanned: nat, ok: bool)
    requires Indexed(files, spans) && IsOffsets(spans, offsets)
    ensures AllRecords(spans, Tasks(files, tags, 0))
    ensures schemas == [] ==> ok && total == [] && scanned == 0
    ensures schemas != [] ==>
      (ok <==> forall t :: t in Tasks(files, tags, 0) && IsRecord(spans, t) && Meets(range, Start(spans, t), End(spans, t)) ==> Decodes(files, t))
    ensures schemas != [] && ok ==>
      Counted(files, spans, schemas, Binding(clauses, union), range, Tasks(files, tags, 0), scanned, total)
  {
    hide Indexed, Tasks, TaskRows, TaskVisits, TallyOf, Binding, Base, Flatten, Counted, IsOffsets, Meets;
    TasksAreRecords(files, spans, tags);
    total, scanned, ok := NoTallies(|schemas|), 0, true;
    if schemas == [] {
      return;
    }
    var tasks := BuildTasks(files, tags);
    ghost var f := Binding(clauses, union);
    CountedNothing(files, spans, schemas, f, range);
    for i := 0 to |tasks|
      invariant Counted(files, spans, schemas, f, range, tasks[..i], scanned, total) && |total| == |schemas|
      invariant forall j :: 0 <= j < i && Meets(range, Start(spans, tasks[j]), End(spans, tasks[j])) ==>
        Decodes(files, tasks[j])
    {
      var own, n, read := CountTask(files, spans, offsets, schemas, clauses, union, range, tasks[i]);
      if !read {
        ok := false;
        assert tasks[i] in tasks;
        return;
      }
      ghost var before := total;
      total := MergeTallies(total, own);
      CountedSnoc(files, spans, schemas, f, range, tasks, i, scanned, before, own, total);
      scanned := scanned + n;
      CountedLength(files, spans, schemas, f, range, tasks[..i + 1], scanned, total);
    }
    assert tasks[..|tasks|] == tasks;
  }

  lemma CountedLength(files: seq<ChainFile>, spans: Spans, schemas: seq<BankKey>, f: Option<Bound>, range: Range,
    tasks: seq<(nat, nat)>, scanned: nat, total: seq<Tally>)
    requires Indexed(files, spans) && AllRecords(spans, tasks)
    requires Counted(files, spans, schemas, f, range, tasks, scanned, total)
    ensures |total| == |schemas|
  {
  }

  lemma CountedNothing(files: seq<ChainFile>, spans: Spans, schemas: seq<BankKey>, f: Option<Bound>, range: Range)
    requires Indexed(files, spans)
    ensures Counted(files, spans, schemas, f, range, [], 0, NoTallies(|schemas|))
  {
    TallyEmpty();
    assert VisitCounts(files, spans, f, range, []) == [];
    forall k | 0 <= k < |schemas|
      ensures RowsByTask(files, spans, schemas, f, range, [], k) == []
    {
    }
  }

  // ---- Ranges and workers -----------------------------------------------------------

  lemma {:induction false} PickedSplit(a: seq<bool>, b: seq<bool>, both: seq<bool>, m: nat, i: nat)
    requires |a| == |b| == |both| && i <= |a|
    requires forall e :: 0 <= e < |a| ==> (both[e] <==> a[e] || b[e]) && (a[e] ==> e < m) && (b[e] ==> e >= m)
    ensures Picked(both, i) == Picked(a, i) + Picked(b, i)
    decreases |a| - i
  {
    if i < |a| {
      PickedSplit(a, b, both, m, i + 1);
      if b[i] {
        NonePicked(a, i);
      }
    }
  }

  lemma {:induction false} NonePicked(a: seq<bool>, i: nat)
    requires i <= |a| && forall e :: i <= e < |a| ==> !a[e]
    ensures Picked(a, i) == []
    decreases |a| - i
  {
    if i < |a| {
      NonePicked(a, i + 1);
    }
  }

  /** A range cut in two scans the same events: those of the first part, then those of the second. */
  lemma VisitsSplit(c: Content, f: Option<Bound>, start: nat, lo: nat, mid: nat, hi: nat)
    requires c.Valid() && lo <= mid <= hi
    ensures Visited(c, f, RangeWindow(Some((lo, hi)), start))
      == Visited(c, f, RangeWindow(Some((lo, mid)), start)) + Visited(c, f, RangeWindow(Some((mid, hi)), start))
  {
    var w, v, u := RangeWindow(Some((lo, hi)), start), RangeWindow(Some((lo, mid)), start),
        RangeWindow(Some((mid, hi)), start);
    var both, a, b := VisitFlags(c, f, w), VisitFlags(c, f, v), VisitFlags(c, f, u);
    hide Content.Valid, Passes, EventAt, InRanges, Picked;
    forall e | 0 <= e < c.Count()
      ensures (both[e] <==> a[e] || b[e]) && (a[e] ==> e < Max(mid - start, 0)) && (b[e] ==> e >= Max(mid - start, 0))
    {
      RangeWindowHolds(Some((lo, hi)), start, e);
      RangeWindowHolds(Some((lo, mid)), start, e);
      RangeWindowHolds(Some((mid, hi)), start, e);
    }
    PickedSplit(a, b, both, Max(mid - start, 0), 0);
  }

  lemma {:induction false} RecordRowsAppend(schemas: seq<BankKey>, c: Content, a: seq<nat>, b: seq<nat>, k: nat)
    requires k < |schemas| && c.Valid()
    requires (forall i :: 0 <= i < |a| ==> a[i] < c.Count()) && forall i :: 0 <= i < |b| ==> b[i] < c.Count()
    ensures RecordRows(schemas, c, a + b, k) == RecordRows(schemas, c, a, k) + RecordRows(schemas, c, b, k)
    decreases |b|
  {
    hide Content.Valid, EventRows;
    if b == [] {
      assert a + b == a;
    } else {
      var n := |b| - 1;
      RecordRowsAppend(schemas, c, a, b[..n], k);
      assert (a + b)[..|a + b| - 1] == a + b[..n];
      var x, y, z := RecordRows(schemas, c, a, k), RecordRows(schemas, c, b[..n], k), EventRows(schemas, c, b[n], k);
      assert x + y + z == x + (y + z);
    }
  }

  lemma TaskRowsSplit(files: seq<ChainFile>, spans: Spans, schemas: seq<BankKey>, f: Option<Bound>, lo: nat, mid: nat,
      hi: nat,
    t: (nat, nat), k: nat)
    requires Indexed(files, spans) && IsRecord(spans, t) && k < |schemas| && lo <= mid <= hi
    ensures TaskRows(files, spans, schemas, f, Some((lo, hi)), t, k)
      == TaskRows(files, spans, schemas, f, Some((lo, mid)), t, k) + TaskRows(files, spans, schemas, f, Some((mid, hi)), t, k)
  {
    hide Indexed, Visited, RecordRows, Content.Valid, RangeWindow;
    IndexedRecord(files, spans, t);
    if StoredAt(files, t).Decoded? {
      var c, start := StoredAt(files, t).content, Start(spans, t);
      VisitsSplit(c, f, start, lo, mid, hi);
      RecordRowsAppend(schemas, c, Visited(c, f, RangeWindow(Some((lo, mid)), start)),
        Visited(c, f, RangeWindow(Some((mid, hi)), start)), k);
    }
  }

  /** Pairs counted together or apart. */
  lemma {:induction false} MergePairs(a: seq<seq<nat>>, b: seq<seq<nat>>, both: seq<seq<nat>>)
    requires |a| == |b| == |both| && forall i :: 0 <= i < |a| ==> both[i] == a[i] + b[i]
    ensures TallyOf(Flatten(both)) == Merged(TallyOf(Flatten(a)), TallyOf(Flatten(b)))
  {
    if a == [] {
      TallyEmpty();
      MergeZero(NOTHING);
    } else {
      MergePairs(a[1..], b[1..], both[1..]);
      MergedIsTogether(both[0], Flatten(both[1..]));
      MergedIsTogether(a[0], b[0]);
      MergedIsTogether(a[0], Flatten(a[1..]));
      MergedIsTogether(b[0], Flatten(b[1..]));
      hide TallyOf, Flatten;
      MergeFour(TallyOf(a[0]), TallyOf(b[0]), TallyOf(Flatten(a[1..])), TallyOf(Flatten(b[1..])));
    }
  }

  lemma MergeFour(a: Tally, b: Tally, c: Tally, d: Tally)
    ensures Merged(Merged(a, b), Merged(c, d)) == Merged(Merged(a, c), Merged(b, d))
  {
  }

  lemma {:induction false} SumsAdd(a: seq<nat>, b: seq<nat>, both: seq<nat>)
    requires |a| == |b| == |both| && forall i :: 0 <= i < |a| ==> both[i] == a[i] + b[i]
    ensures Sum(both) == Sum(a) + Sum(b)
  {
    if a != [] {
      SumsAdd(a[1..], b[1..], both[1..]);
    }
  }

  lemma TaskVisitsSplit(files: seq<ChainFile>, spans: Spans, f: Option<Bound>, lo: nat, mid: nat, hi: nat,
      t: (nat, nat))
    requires Indexed(files, spans) && IsRecord(spans, t) && lo <= mid <= hi
    ensures TaskVisits(files, spans, f, Some((lo, hi)), t)
      == TaskVisits(files, spans, f, Some((lo, mid)), t) + TaskVisits(files, spans, f, Some((mid, hi)), t)
  {
    IndexedRecord(files, spans, t);
    hide Indexed, Visited, Content.Valid, RangeWindow;
    if StoredAt(files, t).Decoded? {
      VisitsSplit(StoredAt(files, t).content, f, Start(spans, t), lo, mid, hi);
    }
  }

  lemma ScannedSplit(files: seq<ChainFile>, spans: Spans, f: Option<Bound>, tasks: seq<(nat, nat)>, lo: nat, mid: nat,
      hi: nat)
    requires Indexed(files, spans) && AllRecords(spans, tasks) && lo <= mid <= hi
    ensures Sum(VisitCounts(files, spans, f, Some((lo, hi)), tasks))
      == Sum(VisitCounts(files, spans, f, Some((lo, mid)), tasks)) + Sum(VisitCounts(files, spans, f, Some((mid, hi)), tasks))
  {
    hide Indexed, TaskVisits, Sum;
    var a, b := VisitCounts(files, spans, f, Some((lo, mid)), tasks),
        VisitCounts(files, spans, f, Some((mid, hi)), tasks);
    var both := VisitCounts(files, spans, f, Some((lo, hi)), tasks);
    forall i | 0 <= i < |tasks|
      ensures both[i] == a[i] + b[i]
    {
      TaskVisitsSplit(files, spans, f, lo, mid, hi, tasks[i]);
    }
    SumsAdd(a, b, both);
  }

  /** Adjacent ranges: the events scanned, those with rows and the rows add, the largest counts
      combine by max. */
  lemma AdjacentRangesMerge(files: seq<ChainFile>, spans: Spans, schemas: seq<BankKey>, f: Option<Bound>,
      tasks: seq<(nat, nat)>,
    lo: nat, mid: nat, hi: nat, m: nat, first: seq<Tally>, n: nat, second: seq<Tally>, all: nat, whole: seq<Tally>)
    requires Indexed(files, spans) && AllRecords(spans, tasks) && lo <= mid <= hi
    requires Counted(files, spans, schemas, f, Some((lo, mid)), tasks, m, first)
    requires Counted(files, spans, schemas, f, Some((mid, hi)), tasks, n, second)
    requires Counted(files, spans, schemas, f, Some((lo, hi)), tasks, all, whole)
    ensures all == m + n
    ensures forall k :: 0 <= k < |schemas| ==> whole[k] == Merged(first[k], second[k])
  {
    hide Indexed, TaskRows, TallyOf, Flatten, Merged, VisitCounts, Sum;
    ScannedSplit(files, spans, f, tasks, lo, mid, hi);
    forall k | 0 <= k < |schemas|
      ensures whole[k] == Merged(first[k], second[k])
    {
      var a := RowsByTask(files, spans, schemas, f, Some((lo, mid)), tasks, k);
      var b := RowsByTask(files, spans, schemas, f, Some((mid, hi)), tasks, k);
      var both := RowsByTask(files, spans, schemas, f, Some((lo, hi)), tasks, k);
      forall i | 0 <= i < |tasks|
        ensures both[i] == a[i] + b[i]
      {
        TaskRowsSplit(files, spans, schemas, f, lo, mid, hi, tasks[i], k);
      }
      MergePairs(a, b, both);
    }
  }

  lemma {:induction false} FlattenWithout(b: seq<seq<nat>>, k: nat)
    requires k < |b|
    ensures multiset(Flatten(b)) == multiset(Flatten(b[..k] + b[k + 1..])) + multiset(b[k])
  {
    assert b == b[..k] + ([b[k]] + b[k + 1..]);
    FlattenAppend(b[..k], [b[k]] + b[k + 1..]);
    FlattenAppend(b[..k], b[k + 1..]);
    assert ([b[k]] + b[k + 1..])[1..] == b[k + 1..];
  }

  lemma {:induction false} SameBagFlattens(a: seq<seq<nat>>, b: seq<seq<nat>>)
    requires multiset(a) == multiset(b)
    ensures multiset(Flatten(a)) == multiset(Flatten(b))
  {
    if a == [] {
      EmptyBag(b);
    } else {
      var k := PlaceInOther(a, b);
      FlattenWithout(b, k);
      SameBagFlattens(a[1..], b[..k] + b[k + 1..]);
    }
  }

  /** Whichever worker takes which task, and in whatever order they finish, the tally is the same. */
  lemma AnyWorkersCountTheSame(files: seq<ChainFile>, spans: Spans, schemas: seq<BankKey>, f: Option<Bound>,
      range: Range,
    tasks: seq<(nat, nat)>, shuffled: seq<(nat, nat)>, scanned: nat, total: seq<Tally>)
    requires Indexed(files, spans) && AllRecords(spans, tasks) && AllRecords(spans, shuffled)
    requires multiset(tasks) == multiset(shuffled)
    ensures Counted(files, spans, schemas, f, range, tasks, scanned, total) <==>
      Counted(files, spans, schemas, f, range, shuffled, scanned, total)
  {
    hide Indexed, TaskRows, TallyOf, Flatten, VisitCounts, Sum;
    CountsShuffle(files, spans, f, range, tasks, shuffled);
    forall k | 0 <= k < |schemas|
      ensures TallyOf(Flatten(RowsByTask(files, spans, schemas, f, range, tasks, k)))
        == TallyOf(Flatten(RowsByTask(files, spans, schemas, f, range, shuffled, k)))
    {
      RowsShuffle(files, spans, schemas, f, range, tasks, shuffled, k);
      SameBagFlattens(RowsByTask(files, spans, schemas, f, range, tasks, k),
        RowsByTask(files, spans, schemas, f, range, shuffled, k));
      SameBagSameTally(Flatten(RowsByTask(files, spans, schemas, f, range, tasks, k)),
        Flatten(RowsByTask(files, spans, schemas, f, range, shuffled, k)));
    }
  }

  lemma CountsShuffle(files: seq<ChainFile>, spans: Spans, f: Option<Bound>, range: Range, a: seq<(nat, nat)>,
      b: seq<(nat, nat)>)
    requires Indexed(files, spans) && AllRecords(spans, a) && AllRecords(spans, b) && multiset(a) == multiset(b)
    ensures Sum(VisitCounts(files, spans, f, range, a)) == Sum(VisitCounts(files, spans, f, range, b))
  {
    hide Indexed, TaskVisits, Sum;
    var x, y := VisitCounts(files, spans, f, range, a), VisitCounts(files, spans, f, range, b);
    ShuffleAlong(a, b, x, y);
    SameBagSameSum(x, y);
  }

  lemma RowsShuffle(files: seq<ChainFile>, spans: Spans, schemas: seq<BankKey>, f: Option<Bound>, range: Range,
    a: seq<(nat, nat)>, b: seq<(nat, nat)>, k: nat)
    requires Indexed(files, spans) && AllRecords(spans, a) && AllRecords(spans, b) && multiset(a) == multiset(b) && k < |schemas|
    ensures multiset(RowsByTask(files, spans, schemas, f, range, a, k))
      == multiset(RowsByTask(files, spans, schemas, f, range, b, k))
  {
    hide Indexed, TaskRows;
    ShuffleAlong(a, b, RowsByTask(files, spans, schemas, f, range, a, k),
      RowsByTask(files, spans, schemas, f, range, b, k));
  }
}
