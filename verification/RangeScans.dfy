/** `for_each_ranges`: which events a range scan visits, in order on one thread and as a bag under
    any interleaving (src/read/chain.rs). */
module RangeScans {
  import opened Bytes
  import opened ChainIndexes
  import opened Schemas
  import opened Filters
  import opened EventIters
  import opened RecordScans
  import opened ChainScans
  import opened Ranges
  import opened Schedules

  /** The index has one span a record, and tells the truth about the records that decode. */
  ghost predicate Indexed(files: seq<ChainFile>, spans: Spans)
  {
    && FilesOk(files) && IndexesOk(spans) && |files| == |spans|
    && forall fi :: 0 <= fi < |files| ==> Describes(spans[fi], files[fi].records)
  }

  ghost predicate Describes(spans: seq<EventIndexes.RecordSpan>, records: seq<StoredRecord>)
  {
    && |spans| == |records|
    && forall ri :: 0 <= ri < |records| && records[ri].stored.Decoded? ==>
      records[ri].stored.content.Count() == spans[ri].eventCount
  }

  /** What the index promises of one record. */
  lemma IndexedRecord(files: seq<ChainFile>, spans: Spans, t: (nat, nat))
    requires Indexed(files, spans) && IsRecord(spans, t)
    ensures t.0 < |files| && t.1 < |files[t.0].records|
    ensures StoredAt(files, t).Decoded? ==>
      StoredAt(files, t).content.Valid() && StoredAt(files, t).content.Count() == spans[t.0][t.1].eventCount
  {
    assert RecordsOk(files[t.0].records) && Describes(spans[t.0], files[t.0].records);
  }

  function StoredAt(files: seq<ChainFile>, t: (nat, nat)): Stored
    requires t.0 < |files| && t.1 < |files[t.0].records|
  {
    files[t.0].records[t.1].stored
  }

  /** Record `t` passes the tag pushdown. */
  predicate Picks(files: seq<ChainFile>, spans: Spans, tags: Option<seq<nat>>, t: (nat, nat))
  {
    IsRecord(spans, t) && t.0 < |files| && t.1 < |files[t.0].records| && Selected(files[t.0].records[t.1], tags)
  }

  /** A record and the slice of the merged request that touches it. */
  datatype Job = Job(task: (nat, nat), start: nat, first: nat, last: nat)

  predicate JobOk(files: seq<ChainFile>, spans: Spans, merged: Pairs, tags: Option<seq<nat>>, job: Job)
  {
    && Picks(files, spans, tags, job.task) && job.start == Start(spans, job.task) && job.first < job.last
    && EndsCut(merged, job.start, job.first) && StartsCut(merged, End(spans, job.task), job.last)
  }

  /** Some range reaches into the record. */
  predicate Touched(spans: Spans, merged: Pairs, t: (nat, nat))
    requires IsRecord(spans, t)
  {
    exists k :: 0 <= k < |merged| && !EndsBy(Start(spans, t), merged[k]) && StartsBefore(End(spans, t), merged[k])
  }

  predicate Ordered(tasks: seq<(nat, nat)>)
  {
    forall i, j :: 0 <= i < j < |tasks| ==> Earlier(tasks[i], tasks[j])
  }

  lemma {:induction false} FileTasksAre(records: seq<StoredRecord>, tags: Option<seq<nat>>, fi: nat, ri: nat)
    ensures Ordered(FileTasks(records, tags, fi, ri))
    ensures forall t :: t in FileTasks(records, tags, fi, ri) <==>
      t.0 == fi && ri <= t.1 < |records| && Selected(records[t.1], tags)
    decreases |records| - ri
  {
    hide Selected;
    if ri < |records| {
      FileTasksAre(records, tags, fi, ri + 1);
      OrderedJoin(if Selected(records[ri], tags) then [(fi, ri)] else [], FileTasks(records, tags, fi, ri + 1));
    }
  }

  lemma OrderedJoin(a: seq<(nat, nat)>, b: seq<(nat, nat)>)
    requires Ordered(a) && Ordered(b) && forall s, t :: s in a && t in b ==> Earlier(s, t)
    ensures Ordered(a + b)
  {
    hide Earlier;
    var c := a + b;
    forall i, j | 0 <= i < j < |c|
      ensures Earlier(c[i], c[j])
    {
      if i < |a| && j >= |a| {
        assert c[i] in a && c[j] in b;
      }
    }
  }

  /** The list of tasks is exactly the records the pushdown picks, in file order. */
  lemma {:induction false} TasksAre(files: seq<ChainFile>, tags: Option<seq<nat>>, fi: nat)
    ensures Ordered(Tasks(files, tags, fi))
    ensures forall t :: t in Tasks(files, tags, fi) <==>
      fi <= t.0 < |files| && t.1 < |files[t.0].records| && Selected(files[t.0].records[t.1], tags)
    decreases |files| - fi
  {
    hide Selected, FileTasks;
    if fi < |files| {
      FileTasksAre(files[fi].records, tags, fi, 0);
      TasksAre(files, tags, fi + 1);
      OrderedJoin(FileTasks(files[fi].records, tags, fi, 0), Tasks(files, tags, fi + 1));
    }
  }

  function TasksOf(plan: seq<Job>): seq<(nat, nat)>
  {
    seq(|plan|, k requires 0 <= k < |plan| => plan[k].task)
  }

  /** The jobs are the picked records some range touches, in order, each with its slice. */
  ghost predicate IsPlan(files: seq<ChainFile>, spans: Spans, merged: Pairs, tags: Option<seq<nat>>,
      tasks: seq<(nat, nat)>, plan: seq<Job>)
    requires forall t :: t in tasks ==> IsRecord(spans, t)
  {
    && (forall k :: 0 <= k < |plan| ==> JobOk(files, spans, merged, tags, plan[k]))
    && Ordered(TasksOf(plan))
    && forall t :: t in TasksOf(plan) <==> t in tasks && Touched(spans, merged, t)
  }

  lemma TouchedIffCut(spans: Spans, merged: Pairs, t: (nat, nat), first: nat, last: nat)
    requires IsRecord(spans, t) && EndsCut(merged, Start(spans, t), first) && StartsCut(merged, End(spans, t), last)
    ensures Touched(spans, merged, t) <==> first < last
  {
    hide Start, End;
    if first < last {
      assert !EndsBy(Start(spans, t), merged[first]) && StartsBefore(End(spans, t), merged[first]);
    }
  }

  /** The jobs of a scan. */
  method Plan(files: seq<ChainFile>, spans: Spans, offsets: seq<nat>, merged: Pairs, tags: Option<seq<nat>>)
    returns (plan: seq<Job>)
    requires Indexed(files, spans) && IsOffsets(spans, offsets) && Separated(merged)
    ensures forall t :: t in Tasks(files, tags, 0) ==> IsRecord(spans, t)
    ensures IsPlan(files, spans, merged, tags, Tasks(files, tags, 0), plan)
  {
    hide Separated, Base, Touched, Selected, EndsCut, StartsCut;
    var tasks := BuildTasks(files, tags);
    TasksAre(files, tags, 0);
    plan := [];
    for k := 0 to |tasks|
      invariant IsPlan(files, spans, merged, tags, tasks[..k], plan)
    {
      var t := tasks[k];
      assert t in tasks;
      var span := spans[t.0][t.1];
      var start := offsets[t.0] + span.firstEvent;
      var first, last := Cut(merged, start, start + span.eventCount);
      TouchedIffCut(spans, merged, t, first, last);
      assert tasks[..k + 1] == tasks[..k] + [t];
      ghost var before := plan;
      if first < last {
        plan := plan + [Job(t, start, first, last)];
        assert TasksOf(plan) == TasksOf(before) + [t];
        OrderedJoin(TasksOf(before), [t]);
      }
    }
    assert tasks[..|tasks|] == tasks;
  }

  // ---- Visits -------------------------------------------------------------

  function Shift(es: seq<nat>, start: nat): (r: seq<nat>)
    ensures |r| == |es|
  {
    seq(|es|, k requires 0 <= k < |es| => start + es[k])
  }

  lemma ShiftAre(es: seq<nat>, start: nat)
    requires Increasing(es)
    ensures Increasing(Shift(es, start))
    ensures forall g: nat :: g in Shift(es, start) <==> g >= start && g - start in es
  {
    forall g: nat | g >= start && g - start in es
      ensures g in Shift(es, start)
    {
      var k :| 0 <= k < |es| && es[k] == g - start;
      assert Shift(es, start)[k] == g;
    }
    forall g: nat | g in Shift(es, start)
      ensures g >= start && g - start in es
    {
      var k :| 0 <= k < |es| && Shift(es, start)[k] == g;
      assert es[k] in es;
    }
  }

  /** The events job `job` hands out, by their numbers in the chain. */
  function JobVisits(stored: Stored, merged: Pairs, job: Job, f: Option<Bound>): seq<nat>
    requires stored.Decoded? && stored.content.Valid() && job.first <= job.last <= |merged|
  {
    Shift(Visited(stored.content, f, Some(Window(job.start, merged[job.first..job.last]))), job.start)
  }

  /** Record `t` holds event `g`, the request asks for it and the filter passes it. */
  predicate VisitOf(stored: Stored, spans: Spans, merged: Pairs, f: Option<Bound>, t: (nat, nat), g: nat)
    requires IsRecord(spans, t) && stored.Decoded? && stored.content.Valid()
    requires stored.content.Count() == spans[t.0][t.1].eventCount
  {
    && Start(spans, t) <= g < End(spans, t) && InRanges(merged, g)
    && Passes(f, EventAt(stored.content, g - Start(spans, t)))
  }

  /** A job hands out exactly the events of its record that are asked for and pass. */
  lemma JobVisitsAre(stored: Stored, spans: Spans, merged: Pairs, f: Option<Bound>, job: Job)
    requires IsRecord(spans, job.task) && stored.Decoded? && stored.content.Valid() && Separated(merged)
    requires stored.content.Count() == spans[job.task.0][job.task.1].eventCount
    requires job.start == Start(spans, job.task) && job.first < job.last
    requires EndsCut(merged, job.start, job.first) && StartsCut(merged, End(spans, job.task), job.last)
    ensures Increasing(JobVisits(stored, merged, job, f))
    ensures forall g: nat :: g in JobVisits(stored, merged, job, f) <==> VisitOf(stored, spans, merged, f, job.task, g)
  {
    hide Visited, InRanges, Separated, EndsCut, StartsCut, Passes, EventAt, Content.Valid, Base;
    assert job.last <= |merged| by { CutInside(merged, job.start, End(spans, job.task), job.first, job.last); }
    var c := stored.content;
    var slice := merged[job.first..job.last];
    VisitedAre(c, f, Some(Window(job.start, slice)));
    ShiftAre(Visited(c, f, Some(Window(job.start, slice))), job.start);
    forall g: nat | job.start <= g < End(spans, job.task)
      ensures InRanges(slice, g) <==> InRanges(merged, g)
    {
      CutSuffices(merged, job.start, End(spans, job.task), job.first, job.last, g);
    }
  }

  lemma CutInside(merged: Pairs, start: nat, end: nat, first: nat, last: nat)
    requires EndsCut(merged, start, first) && StartsCut(merged, end, last)
    ensures first <= |merged| && last <= |merged|
  {
  }

  ghost predicate AllDecoded(files: seq<ChainFile>, plan: seq<Job>)
  {
    forall k :: 0 <= k < |plan| ==>
      plan[k].task.0 < |files| && plan[k].task.1 < |files[plan[k].task.0].records| && StoredAt(files, plan[k].task).Decoded?
  }

  lemma JobReady(files: seq<ChainFile>, spans: Spans, merged: Pairs, tags: Option<seq<nat>>, job: Job)
    requires Indexed(files, spans) && JobOk(files, spans, merged, tags, job) && StoredAt(files, job.task).Decoded?
    ensures StoredAt(files, job.task).content.Valid() && job.first <= job.last <= |merged|
    ensures StoredAt(files, job.task).content.Count() == spans[job.task.0][job.task.1].eventCount
  {
    CutInside(merged, job.start, End(spans, job.task), job.first, job.last);
    assert RecordsOk(files[job.task.0].records) && Describes(spans[job.task.0], files[job.task.0].records);
  }

  /** The visits of every job. */
  function Parts(files: seq<ChainFile>, spans: Spans, merged: Pairs, tags: Option<seq<nat>>, plan: seq<Job>,
      f: Option<Bound>): (r: seq<seq<nat>>)
    requires Indexed(files, spans) && AllDecoded(files, plan)
    requires forall k :: 0 <= k < |plan| ==> JobOk(files, spans, merged, tags, plan[k])
    ensures |r| == |plan|
  {
    seq(|plan|, k requires 0 <= k < |plan| =>
      JobReady(files, spans, merged, tags, plan[k]);
      JobVisits(StoredAt(files, plan[k].task), merged, plan[k], f))
  }

  /** Lists that follow one another join into one. */
  lemma {:induction false} JoinIncreasing(parts: seq<seq<nat>>, lows: seq<nat>, highs: seq<nat>)
    requires |parts| == |lows| == |highs|
    requires forall k :: 0 <= k < |parts| ==> Increasing(parts[k])
    requires forall k, g :: 0 <= k < |parts| && g in parts[k] ==> lows[k] <= g < highs[k]
    requires forall i, j :: 0 <= i < j < |parts| ==> highs[i] <= lows[j]
    ensures Increasing(Flatten(parts))
  {
    if parts != [] {
      JoinIncreasing(parts[1..], lows[1..], highs[1..]);
      var own, later := parts[0], Flatten(parts[1..]);
      forall i, j | 0 <= i < |own| && 0 <= j < |later|
        ensures own[i] < later[j]
      {
        assert own[i] in own && later[j] in later;
        FlattenMember(parts[1..], later[j]);
        var k :| 0 <= k < |parts| - 1 && later[j] in parts[1..][k];
        assert later[j] in parts[k + 1];
      }
      AppendIncreasing(own, later);
    }
  }

  lemma AppendIncreasing(a: seq<nat>, b: seq<nat>)
    requires Increasing(a) && Increasing(b)
    requires forall i, j :: 0 <= i < |a| && 0 <= j < |b| ==> a[i] < b[j]
    ensures Increasing(a + b)
  {
  }

  /** What a successful range scan must visit: every event of a picked record that is asked for
      and passes, and no other. */
  ghost predicate Asked(files: seq<ChainFile>, spans: Spans, merged: Pairs, tags: Option<seq<nat>>, f: Option<Bound>,
      g: nat)
    requires Indexed(files, spans)
  {
    exists t :: Picks(files, spans, tags, t) && StoredAt(files, t).Decoded? && VisitOf(StoredAt(files, t), spans, merged, f, t, g)
  }

  lemma CountedIsUnfiltered(c: Content, w: Option<Window>)
    requires c.Valid()
    ensures Counted(c, w) == Visited(c, None, w)
  {
    assert CountFlags(c, w) == VisitFlags(c, None, w);
  }

  lemma AskedIsTouched(spans: Spans, merged: Pairs, t: (nat, nat), g: nat)
    requires IsRecord(spans, t) && Start(spans, t) <= g < End(spans, t) && InRanges(merged, g)
    ensures Touched(spans, merged, t)
  {
    hide Start, End;
    var k :| 0 <= k < |merged| && merged[k].0 <= g < merged[k].1;
    assert !EndsBy(Start(spans, t), merged[k]) && StartsBefore(End(spans, t), merged[k]);
  }

  lemma PartIs(files: seq<ChainFile>, spans: Spans, merged: Pairs, tags: Option<seq<nat>>, plan: seq<Job>,
      f: Option<Bound>, k: nat)
    requires Indexed(files, spans) && AllDecoded(files, plan) && Separated(merged) && k < |plan|
    requires forall k :: 0 <= k < |plan| ==> JobOk(files, spans, merged, tags, plan[k])
    ensures
      var t, part := plan[k].task, Parts(files, spans, merged, tags, plan, f)[k];
      && StoredAt(files, t).content.Valid() && StoredAt(files, t).content.Count() == spans[t.0][t.1].eventCount
      && Increasing(part)
      && forall g: nat :: g in part <==> VisitOf(StoredAt(files, t), spans, merged, f, t, g)
  {
    hide Indexed, Separated, VisitOf, JobVisits, EndsCut, StartsCut, Content.Valid;
    JobReady(files, spans, merged, tags, plan[k]);
    JobVisitsAre(StoredAt(files, plan[k].task), spans, merged, f, plan[k]);
  }

  /** The jobs' visits, one after another, are the events asked for, once each and ascending. */
  lemma PartsAscend(files: seq<ChainFile>, spans: Spans, merged: Pairs, tags: Option<seq<nat>>, plan: seq<Job>,
      f: Option<Bound>)
    requires Indexed(files, spans) && AllDecoded(files, plan) && Separated(merged) && Ordered(TasksOf(plan))
    requires forall k :: 0 <= k < |plan| ==> JobOk(files, spans, merged, tags, plan[k])
    ensures Increasing(Flatten(Parts(files, spans, merged, tags, plan, f)))
  {
    var parts := Parts(files, spans, merged, tags, plan, f);
    var lows := seq(|plan|, k requires 0 <= k < |plan| => Start(spans, plan[k].task));
    var highs := seq(|plan|, k requires 0 <= k < |plan| => End(spans, plan[k].task));
    hide Separated, Parts, Start, End, EndsCut, StartsCut, InRanges, Passes, EventAt, Content.Valid;
    forall k | 0 <= k < |plan|
      ensures Increasing(parts[k]) && forall g :: g in parts[k] ==> lows[k] <= g < highs[k]
    {
      PartIs(files, spans, merged, tags, plan, f, k);
    }
    forall i, j | 0 <= i < j < |plan|
      ensures highs[i] <= lows[j]
    {
      assert TasksOf(plan)[i] == plan[i].task && TasksOf(plan)[j] == plan[j].task;
      RecordsInOrder(spans, plan[i].task, plan[j].task);
    }
    JoinIncreasing(parts, lows, highs);
  }

  lemma InPartIsAsked(files: seq<ChainFile>, spans: Spans, merged: Pairs, tags: Option<seq<nat>>, plan: seq<Job>,
    f: Option<Bound>, k: nat, g: nat)
    requires Indexed(files, spans) && AllDecoded(files, plan) && Separated(merged) && k < |plan|
    requires forall k :: 0 <= k < |plan| ==> JobOk(files, spans, merged, tags, plan[k])
    requires g in Parts(files, spans, merged, tags, plan, f)[k]
    ensures Asked(files, spans, merged, tags, f, g)
  {
    hide Indexed, Separated, Parts, VisitOf, EndsCut, StartsCut, Selected, Start, End;
    PartIs(files, spans, merged, tags, plan, f, k);
    assert Picks(files, spans, tags, plan[k].task);
  }

  lemma AskedInPart(files: seq<ChainFile>, spans: Spans, merged: Pairs, tags: Option<seq<nat>>, tasks: seq<(nat, nat)>,
    plan: seq<Job>, f: Option<Bound>, t: (nat, nat), g: nat) returns (k: nat)
    requires Indexed(files, spans) && AllDecoded(files, plan) && Separated(merged)
    requires tasks == Tasks(files, tags, 0) && forall t :: t in tasks ==> IsRecord(spans, t)
    requires IsPlan(files, spans, merged, tags, tasks, plan)
    requires Picks(files, spans, tags, t) && StoredAt(files, t).Decoded? && StoredAt(files, t).content.Valid()
    requires StoredAt(files, t).content.Count() == spans[t.0][t.1].eventCount
    requires VisitOf(StoredAt(files, t), spans, merged, f, t, g)
    ensures k < |plan| && g in Parts(files, spans, merged, tags, plan, f)[k]
  {
    TasksAre(files, tags, 0);
    AskedIsTouched(spans, merged, t, g);
    hide Indexed, Separated, Parts, JobOk, Selected, Touched, Tasks, Start, End, InRanges, Passes, EventAt,
         Content.Valid;
    assert t in TasksOf(plan);
    k :| 0 <= k < |plan| && TasksOf(plan)[k] == t;
    PartIs(files, spans, merged, tags, plan, f, k);
  }

  /** The plan loses no event asked for and adds none. */
  lemma PartsCover(files: seq<ChainFile>, spans: Spans, merged: Pairs, tags: Option<seq<nat>>, tasks: seq<(nat, nat)>,
    plan: seq<Job>, f: Option<Bound>, g: nat)
    requires Indexed(files, spans) && AllDecoded(files, plan) && Separated(merged)
    requires tasks == Tasks(files, tags, 0) && forall t :: t in tasks ==> IsRecord(spans, t)
    requires IsPlan(files, spans, merged, tags, tasks, plan)
    ensures g in Flatten(Parts(files, spans, merged, tags, plan, f)) <==> Asked(files, spans, merged, tags, f, g)
  {
    var parts := Parts(files, spans, merged, tags, plan, f);
    hide Separated, Parts, JobOk, VisitOf, Selected, Touched, Tasks, Flatten, Picks;
    FlattenMember(parts, g);
    if g in Flatten(parts) {
      var k :| 0 <= k < |parts| && g in parts[k];
      InPartIsAsked(files, spans, merged, tags, plan, f, k, g);
    }
    if Asked(files, spans, merged, tags, f, g) {
      var t :| Picks(files, spans, tags, t) && StoredAt(files, t).Decoded? && VisitOf(StoredAt(files, t), spans, merged, f, t, g);
      var k := AskedInPart(files, spans, merged, tags, tasks, plan, f, t, g);
      assert parts[k] in parts;
    }
  }

  /** Merging changed nothing that is asked. */
  lemma AskedOfRequest(files: seq<ChainFile>, spans: Spans, merged: Pairs, ranges: Pairs, tags: Option<seq<nat>>,
      f: Option<Bound>, g: nat)
    requires Indexed(files, spans)
    requires forall g: nat :: InRanges(merged, g) <==> g < ChainTotal(spans) && InRanges(ranges, g)
    ensures Asked(files, spans, merged, tags, f, g) <==> Asked(files, spans, ranges, tags, f, g)
  {
    hide InRanges, Base, Passes, EventAt, Content.Valid, Selected;
    forall t | Picks(files, spans, tags, t)
      ensures End(spans, t) <= ChainTotal(spans)
    {
      RecordsInOrder(spans, t, t);
    }
    if Asked(files, spans, merged, tags, f, g) {
      var t :| Picks(files, spans, tags, t) && StoredAt(files, t).Decoded? && VisitOf(StoredAt(files, t), spans, merged, f, t, g);
      assert VisitOf(StoredAt(files, t), spans, ranges, f, t, g);
    }
    if Asked(files, spans, ranges, tags, f, g) {
      var t :| Picks(files, spans, tags, t) && StoredAt(files, t).Decoded? && VisitOf(StoredAt(files, t), spans, ranges, f, t, g);
      assert VisitOf(StoredAt(files, t), spans, merged, f, t, g);
    }
  }

  // ---- The scan -----------------------------------------------------------

  lemma PartsSnoc(files: seq<ChainFile>, spans: Spans, merged: Pairs, tags: Option<seq<nat>>, plan: seq<Job>,
      f: Option<Bound>, k: nat)
    requires Indexed(files, spans) && k < |plan| && AllDecoded(files, plan[..k + 1])
    requires forall k :: 0 <= k < |plan| ==> JobOk(files, spans, merged, tags, plan[k])
    ensures AllDecoded(files, plan[..k])
    ensures StoredAt(files, plan[k].task).content.Valid() && plan[k].first <= plan[k].last <= |merged|
    ensures Flatten(Parts(files, spans, merged, tags, plan[..k + 1], f))
      == Flatten(Parts(files, spans, merged, tags, plan[..k], f)) + JobVisits(StoredAt(files, plan[k].task), merged, plan[k], f)
  {
    hide Indexed, JobOk, JobVisits, Flatten, Content.Valid;
    assert plan[..k + 1][k] == plan[k] && plan[..k + 1][..k] == plan[..k];
    JobReady(files, spans, merged, tags, plan[k]);
    var own := JobVisits(StoredAt(files, plan[k].task), merged, plan[k], f);
    assert Parts(files, spans, merged, tags, plan[..k + 1], f)
      == Parts(files, spans, merged, tags, plan[..k], f) + [own];
    FlattenSnoc(Parts(files, spans, merged, tags, plan[..k], f), own);
  }

  lemma PartsNothing(files: seq<ChainFile>, spans: Spans, merged: Pairs, tags: Option<seq<nat>>, f: Option<Bound>)
    requires Indexed(files, spans)
    ensures Flatten(Parts(files, spans, merged, tags, [], f)) == []
  {
  }

  /** One record of the scan. */
  method RunJob(stored: Stored, merged: Pairs, job: Job, clauses: Option<Clauses>, union: seq<Schema>)
    returns (visits: seq<nat>, localIn: nat)
    requires stored.Decoded? && stored.content.Valid() && job.first <= job.last <= |merged|
    ensures visits == JobVisits(stored, merged, job, Binding(clauses, union))
    ensures localIn == |JobVisits(stored, merged, job, None)|
  {
    hide Visited, Counted, BoundTo, Content.Valid;
    var window := Window(job.start, merged[job.first..job.last]);
    var local, counted, _ := ProcessRecord(stored, if clauses.Some? then clauses.value else Clauses([], [], [], 0),
                                           union, clauses.Some?, Some(window));
    CountedIsUnfiltered(stored.content, Some(window));
    visits, localIn := Shift(local, job.start), counted;
  }

  /** One thread: the jobs in order, each record read once; the first that cannot be read ends
      the scan with its error. */
  method RunJobs(files: seq<ChainFile>, spans: Spans, merged: Pairs, tags: Option<seq<nat>>, plan: seq<Job>,
    clauses: Option<Clauses>, union: seq<Schema>) returns (visits: seq<nat>, eventsIn: nat, eventsYielded: nat, ok: bool)
    requires Indexed(files, spans)
    requires forall k :: 0 <= k < |plan| ==> JobOk(files, spans, merged, tags, plan[k])
    ensures ok <==> AllDecoded(files, plan)
    ensures ok ==>
      && visits == Flatten(Parts(files, spans, merged, tags, plan, Binding(clauses, union)))
      && eventsIn == |Flatten(Parts(files, spans, merged, tags, plan, None))| && eventsYielded == |visits|
  {
    hide Flatten, Parts, Indexed, JobVisits, Binding, Content.Valid, EndsCut, StartsCut, Selected, Start, End;
    ghost var f := Binding(clauses, union);
    visits, eventsIn, eventsYielded, ok := [], 0, 0, true;
    PartsNothing(files, spans, merged, tags, f);
    PartsNothing(files, spans, merged, tags, None);
    for k := 0 to |plan|
      invariant AllDecoded(files, plan[..k]) && eventsYielded == |visits|
      invariant visits == Flatten(Parts(files, spans, merged, tags, plan[..k], f))
      invariant eventsIn == |Flatten(Parts(files, spans, merged, tags, plan[..k], None))|
    {
      var job := plan[k];
      var stored := StoredAt(files, job.task);
      if !stored.Decoded? {
        ok := false;
        return;
      }
      assert AllDecoded(files, plan[..k + 1]);
      PartsSnoc(files, spans, merged, tags, plan, f, k);
      PartsSnoc(files, spans, merged, tags, plan, None, k);
      var local, localIn := RunJob(stored, merged, job, clauses, union);
      visits := visits + local;
      eventsIn := eventsIn + localIn;
      eventsYielded := eventsYielded + |local|;
    }
    assert plan[..|plan|] == plan;
  }

  /** `for_each_ranges` on one thread, for any request at all: ascending, every event asked for
      exactly once, no other. */
  method ForEachRanges(files: seq<ChainFile>, spans: Spans, offsets: seq<nat>, ranges: Pairs, clauses: Option<Clauses>,
    union: seq<Schema>, tags: Option<seq<nat>>)
    returns (visits: seq<nat>, eventsIn: nat, eventsYielded: nat, ok: bool, ghost merged: Pairs, ghost plan: seq<Job>)
    requires Indexed(files, spans) && IsOffsets(spans, offsets)
    ensures Separated(merged) && forall g: nat :: InRanges(merged, g) <==> g < ChainTotal(spans) && InRanges(ranges, g)
    ensures forall t :: t in Tasks(files, tags, 0) ==> IsRecord(spans, t)
    ensures IsPlan(files, spans, merged, tags, Tasks(files, tags, 0), plan)
    ensures ok <==> AllDecoded(files, plan)
    ensures ok ==> Increasing(visits) && eventsYielded == |visits|
    ensures ok ==> forall g: nat :: g in visits <==> Asked(files, spans, ranges, tags, Binding(clauses, union), g)
    ensures ok ==> visits == Flatten(Parts(files, spans, merged, tags, plan, Binding(clauses, union)))
    ensures ok ==> eventsIn == |Flatten(Parts(files, spans, merged, tags, plan, None))|
  {
    var total := offsets[|spans|];
    var wanted := Prepare(ranges, total);
    merged := wanted;
    var jobs := Plan(files, spans, offsets, wanted, tags);
    plan := jobs;
    visits, eventsIn, eventsYielded, ok := RunJobs(files, spans, wanted, tags, jobs, clauses, union);
    ghost var f := Binding(clauses, union);
    hide Separated, Parts, IsPlan, Asked, Indexed, Tasks, Binding, InRanges, Flatten;
    if ok {
      IsPlanMeans(files, spans, merged, tags, Tasks(files, tags, 0), plan);
      PartsAscend(files, spans, merged, tags, plan, f);
      forall g: nat
        ensures g in visits <==> Asked(files, spans, ranges, tags, f, g)
      {
        PartsCover(files, spans, merged, tags, Tasks(files, tags, 0), plan, f, g);
        AskedOfRequest(files, spans, merged, ranges, tags, f, g);
      }
    }
  }

  lemma IsPlanMeans(files: seq<ChainFile>, spans: Spans, merged: Pairs, tags: Option<seq<nat>>, tasks: seq<(nat, nat)>,
      plan: seq<Job>)
    requires forall t :: t in tasks ==> IsRecord(spans, t)
    requires IsPlan(files, spans, merged, tags, tasks, plan)
    ensures Ordered(TasksOf(plan)) && forall k :: 0 <= k < |plan| ==> JobOk(files, spans, merged, tags, plan[k])
  {
  }

  /** Any number of workers, in any interleaving: the same events, each once, and the same count
      of events read. */
  lemma AnyWorkersVisitTheSame(files: seq<ChainFile>, spans: Spans, merged: Pairs, tags: Option<seq<nat>>,
      plan: seq<Job>,
    f: Option<Bound>, moves: seq<Move>, end: Pool<nat>)
    requires Indexed(files, spans) && AllDecoded(files, plan) && Separated(merged)
    requires forall t :: t in Tasks(files, tags, 0) ==> IsRecord(spans, t)
    requires IsPlan(files, spans, merged, tags, Tasks(files, tags, 0), plan)
    requires Run(moves,
      Initial(Parts(files, spans, merged, tags, plan, f), Lengths(Parts(files, spans, merged, tags, plan, None))), end)
    requires Finished(end)
    ensures forall g: nat :: multiset(end.visited)[g] == if Asked(files, spans, merged, tags, f, g) then 1 else 0
    ensures multiset(end.visited) == multiset(Flatten(Parts(files, spans, merged, tags, plan, f)))
    ensures end.eventsIn == |Flatten(Parts(files, spans, merged, tags, plan, None))|
  {
    var parts, counts := Parts(files, spans, merged, tags, plan, f), Parts(files, spans, merged, tags, plan, None);
    IsPlanMeans(files, spans, merged, tags, Tasks(files, tags, 0), plan);
    hide Separated, Parts, Asked, Indexed, Tasks, Flatten, Run, IsPlan;
    AnyInterleaving(parts, Lengths(counts), moves, end);
    FlattenLength(counts);
    PartsAscend(files, spans, merged, tags, plan, f);
    DistinctMultiplicity(Flatten(parts));
    forall g: nat
      ensures multiset(end.visited)[g] == if Asked(files, spans, merged, tags, f, g) then 1 else 0
    {
      PartsCover(files, spans, merged, tags, Tasks(files, tags, 0), plan, f, g);
    }
  }
}
