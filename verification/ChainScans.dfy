/** Whole-chain reads: `events()` file by file, and `for_each` record by record
    (src/read/chain.rs). */
module ChainScans {
  import opened Bytes
  import opened Events
  import opened Schemas
  import opened Dictionaries
  import opened Filters
  import opened EventIters
  import opened RecordScans

  /** A file as the chain sees it. */
  datatype ChainFile = ChainFile(schemas: seq<Schema>, records: seq<StoredRecord>)

  ghost predicate FilesOk(files: seq<ChainFile>)
  {
    forall k :: 0 <= k < |files| ==> RecordsOk(files[k].records)
  }

  function Binding(clauses: Option<Clauses>, schemas: seq<Schema>): Option<Bound>
  {
    match clauses
    case None => None
    case Some(c) => Some(BoundTo(c, schemas))
  }

  predicate Broken(run: seq<Item>)
  {
    run != [] && run[|run| - 1].Failure?
  }

  /** One run after another; a failure in the first is the end of both. */
  function Then(a: seq<Item>, b: seq<Item>): (r: seq<Item>)
  {
    if Broken(a) then a else a + b
  }

  lemma ThenAssociates(a: seq<Item>, b: seq<Item>, c: seq<Item>)
    ensures Then(Then(a, b), c) == Then(a, Then(b, c))
  {
    if !Broken(a) {
      if b == [] {
        assert a + b == a;
      } else {
        assert (a + b)[|a + b| - 1] == b[|b| - 1];
        assert a + b + c == a + (b + c);
      }
    }
  }

  /** Taking the head off a run. */
  lemma ThenHead(a: seq<Item>, b: seq<Item>)
    ensures a == [] ==> Then(a, b) == b
    ensures a == [Failure] ==> Then(a, b) == [Failure]
    ensures a != [] && a[0].Event? ==> Then(a, b) != [] && Then(a, b)[0] == a[0] && Then(a, b)[1..] == Then(a[1..], b)
  {
    if a != [] && a[0].Event? {
      assert Broken(a) <==> Broken(a[1..]);
      assert (a + b)[1..] == a[1..] + b;
    }
  }

  // ---- events() -----------------------------------------------------------

  /** What `events()` yields from file `k` on, each file filtered by its own dictionary. */
  function EventsRun(files: seq<ChainFile>, clauses: Option<Clauses>, tags: Option<seq<nat>>, k: nat): (r: seq<Item>)
    requires FilesOk(files)
    decreases |files| - k
  {
    if k >= |files| then []
    else
      Then(FileRun(files[k].records, Binding(clauses, files[k].schemas), tags, 0),
        EventsRun(files, clauses, tags, k + 1))
  }

  class ChainEventIter {
    const files: seq<ChainFile>
    const clauses: Option<Clauses>
    const tags: Option<seq<nat>>
    var nextFile: nat
    var current: EventIter?
    var finished: bool
    ghost var repr: set<object>

    /** Payloads that events of earlier files still hold. */
    ghost var past: set<Arc>

    ghost predicate Valid()
      reads this, repr
    {
      && FilesOk(files) && nextFile <= |files| && this !in repr
      && (current == null ==> repr == {})
      && (current != null ==> current in repr && repr == {current} + current.repr && current.Valid())
      && forall a :: a in past ==> a.vec !in repr
    }

    /** A payload some event handed out so far may hold. */
    ghost predicate Lent(a: Arc)
      reads this, repr
      requires Valid()
    {
      a in past || (current != null && a in current.held)
    }

    ghost function Pending(): (items: seq<Item>)
      reads this, repr
      requires Valid()
    {
      var later := EventsRun(files, clauses, tags, nextFile);
      if finished then [] else if current == null then later else Then(current.Pending(), later)
    }

    constructor (files: seq<ChainFile>, clauses: Option<Clauses>, tags: Option<seq<nat>>)
      requires FilesOk(files)
      ensures Valid() && this.files == files && this.clauses == clauses && this.tags == tags && repr == {} && past == {}
      ensures Pending() == EventsRun(files, clauses, tags, 0)
    {
      this.files, this.clauses, this.tags := files, clauses, tags;
      nextFile, current, finished, repr, past := 0, null, false, {}, {};
    }

    method OpenNext() returns (found: bool)
      requires Valid() && current == null && !finished
      modifies this
      ensures Valid() && !finished && fresh(repr) && past == old(past) && Pending() == old(Pending())
      ensures found ==> current != null && nextFile > old(nextFile)
      ensures !found ==> Pending() == []
    {
      hide FileRun;
      if nextFile >= |files| {
        return false;
      }
      var file := files[nextFile];
      nextFile := nextFile + 1;
      current := new EventIter(file.records, clauses, file.schemas, tags);
      repr := {current} + current.repr;
      return true;
    }

    /** One step of the open file's iterator. */
    method StepFile() returns (step: Step)
      requires Valid() && !finished && current != null
      modifies this, repr
      ensures Valid() && fresh(repr - old(repr)) && nextFile == old(nextFile)
      ensures forall a: Arc :: old(allocated(a)) && old(Lent(a)) ==> Lent(a) && a.vec.data == old(a.vec.data)
      ensures step.Done? ==> Pending() == old(Pending()) && !finished && current == null
      ensures step.Failed? ==> old(Pending()) == [Failure] && Pending() == []
      ensures step.Yielded? ==> IsHead(step.event, old(Pending())) && Pending() == old(Pending())[1..]
    {
      hide EventsRun, FilesOk, Shows, EventIter.Valid, EventIter.Pending, Then;
      ThenHead(current.Pending(), EventsRun(files, clauses, tags, nextFile));
      step := current.Next();
      repr := {current} + current.repr;
      match step {
        case Yielded(_) =>
        case Failed =>
          finished := true;
        case Done =>
          past := past + set a | a in current.held;
          current, repr := null, {};
      }
    }

    /** Yields the run of every file in turn, once; after a failure or the end, nothing more. */
    method Next() returns (step: Step)
      requires Valid()
      modifies this, repr
      ensures Valid() && fresh(repr - old(repr))
      ensures forall a: Arc :: old(allocated(a)) && old(Lent(a)) ==> Lent(a) && a.vec.data == old(a.vec.data)
      ensures step.Done? <==> old(Pending()) == []
      ensures step.Done? ==> Pending() == []
      ensures step.Failed? ==> old(Pending()) == [Failure] && Pending() == []
      ensures step.Yielded? ==> IsHead(step.event, old(Pending())) && Pending() == old(Pending())[1..]
    {
      hide EventsRun, Shows, EventIter.Valid, EventIter.Pending, Then;
      if finished {
        return Done;
      }
      while true
        invariant Valid() && !finished && fresh(repr - old(repr)) && Pending() == old(Pending())
        invariant forall a: Arc :: old(allocated(a)) && old(Lent(a)) ==> Lent(a) && a.vec.data == old(a.vec.data)
        decreases |files| - nextFile, current != null
      {
        if current == null {
          var found := OpenNext();
          if !found {
            finished := true;
            return Done;
          }
        }
        step := StepFile();
        if !step.Done? {
          return step;
        }
      }
    }
  }

  // ---- for_each -----------------------------------------------------------

  predicate Selected(rec: StoredRecord, tags: Option<seq<nat>>)
  {
    tags.None? || (rec.userWord.Some? && rec.userWord.value in tags.value)
  }

  function FileTasks(records: seq<StoredRecord>, tags: Option<seq<nat>>, fi: nat, ri: nat): (r: seq<(nat, nat)>)
    decreases |records| - ri
  {
    if ri >= |records| then []
    else (if Selected(records[ri], tags) then [(fi, ri)] else []) + FileTasks(records, tags, fi, ri + 1)
  }

  function Tasks(files: seq<ChainFile>, tags: Option<seq<nat>>, fi: nat): (r: seq<(nat, nat)>)
    decreases |files| - fi
  {
    if fi >= |files| then [] else FileTasks(files[fi].records, tags, fi, 0) + Tasks(files, tags, fi + 1)
  }

  predicate InFiles(files: seq<ChainFile>, tasks: seq<(nat, nat)>)
  {
    forall k :: 0 <= k < |tasks| ==> tasks[k].0 < |files| && tasks[k].1 < |files[tasks[k].0].records|
  }

  lemma {:induction false} FileTasksInFiles(files: seq<ChainFile>, tags: Option<seq<nat>>, fi: nat, ri: nat)
    requires fi < |files|
    ensures InFiles(files, FileTasks(files[fi].records, tags, fi, ri))
    decreases |files[fi].records| - ri
  {
    if ri < |files[fi].records| {
      FileTasksInFiles(files, tags, fi, ri + 1);
    }
  }

  lemma {:induction false} TasksInFiles(files: seq<ChainFile>, tags: Option<seq<nat>>, fi: nat)
    ensures InFiles(files, Tasks(files, tags, fi))
    decreases |files| - fi
  {
    if fi < |files| {
      FileTasksInFiles(files, tags, fi, 0);
      TasksInFiles(files, tags, fi + 1);
    }
  }

  method BuildFileTasks(records: seq<StoredRecord>, tags: Option<seq<nat>>, fi: nat) returns (tasks: seq<(nat, nat)>)
    ensures tasks == FileTasks(records, tags, fi, 0)
  {
    hide Selected;
    tasks := [];
    for ri := 0 to |records|
      invariant FileTasks(records, tags, fi, 0) == tasks + FileTasks(records, tags, fi, ri)
    {
      ghost var later := FileTasks(records, tags, fi, ri + 1);
      assert tasks + ([(fi, ri)] + later) == tasks + [(fi, ri)] + later && [] + later == later;
      if Selected(records[ri], tags) {
        tasks := tasks + [(fi, ri)];
      }
    }
  }

  /** `build_tasks`: a record whose header cannot be read is passed over. */
  method BuildTasks(files: seq<ChainFile>, tags: Option<seq<nat>>) returns (tasks: seq<(nat, nat)>)
    ensures tasks == Tasks(files, tags, 0)
  {
    hide FileTasks;
    tasks := [];
    for fi := 0 to |files|
      invariant Tasks(files, tags, 0) == tasks + Tasks(files, tags, fi)
    {
      var own := BuildFileTasks(files[fi].records, tags, fi);
      assert tasks + (own + Tasks(files, tags, fi + 1)) == tasks + own + Tasks(files, tags, fi + 1);
      tasks := tasks + own;
    }
  }

  /** What one record hands to the caller, or the error it ends the scan with. */
  function TaskRun(stored: Stored, f: Option<Bound>): (r: seq<Item>)
    requires stored.Decoded? ==> stored.content.Valid()
  {
    if stored.Decoded? then Survivors(stored.content, f, 0) else [Failure]
  }

  function ScanRun(files: seq<ChainFile>, tasks: seq<(nat, nat)>, f: Option<Bound>): (r: seq<Item>)
    requires FilesOk(files) && InFiles(files, tasks)
  {
    if tasks == [] then []
    else Then(TaskRun(files[tasks[0].0].records[tasks[0].1].stored, f), ScanRun(files, tasks[1..], f))
  }

  lemma ScanRunStep(files: seq<ChainFile>, t: (nat, nat), tasks: seq<(nat, nat)>, f: Option<Bound>)
    requires FilesOk(files) && InFiles(files, [t] + tasks)
    ensures InFiles(files, tasks) && t.0 < |files| && t.1 < |files[t.0].records|
    ensures ScanRun(files, [t] + tasks, f) == Then(TaskRun(files[t.0].records[t.1].stored, f), ScanRun(files, tasks, f))
  {
    assert ([t] + tasks)[0] == t && ([t] + tasks)[1..] == tasks;
    hide TaskRun, Then;
    forall k | 0 <= k < |tasks|
      ensures tasks[k].0 < |files| && tasks[k].1 < |files[tasks[k].0].records|
    {
      assert ([t] + tasks)[k + 1] == tasks[k];
    }
  }

  lemma ScanNothing(files: seq<ChainFile>, f: Option<Bound>)
    requires FilesOk(files)
    ensures ScanRun(files, [], f) == []
  {
  }

  lemma {:induction false} ScanRunAppend(files: seq<ChainFile>, a: seq<(nat, nat)>, b: seq<(nat, nat)>,
      f: Option<Bound>)
    requires FilesOk(files) && InFiles(files, a) && InFiles(files, b)
    ensures ScanRun(files, a + b, f) == Then(ScanRun(files, a, f), ScanRun(files, b, f))
  {
    hide TaskRun, Then;
    if a == [] {
      assert a + b == b;
      ThenNothing(ScanRun(files, b, f));
    } else {
      ScanRunAppend(files, a[1..], b, f);
      assert (a + b)[1..] == a[1..] + b;
      ThenAssociates(TaskRun(files[a[0].0].records[a[0].1].stored, f), ScanRun(files, a[1..], f), ScanRun(files, b, f));
    }
  }

  lemma ThenNothing(a: seq<Item>)
    ensures Then([], a) == a && Then(a, []) == a
  {
  }

  // ---- The two agree ------------------------------------------------------

  /** The bank ids an event carries. */
  ghost function Carried(ev: EventValue): iset<Id>
    requires ev.SplitEvent? ==> ev.split.Dir().Valid() && ev.e < ev.split.Dir().Events()
  {
    match ev
    case BlobEvent(bytes) => iset id: Id | Has(bytes, id)
    case SplitEvent(split, e) => iset id: Id | InDirectory(split.Dir(), e, id)
  }

  ghost predicate EventDeclared(schemas: seq<Schema>, ev: EventValue)
    requires ev.SplitEvent? ==> ev.split.Dir().Valid() && ev.e < ev.split.Dir().Events()
  {
    forall id :: id in Carried(ev) ==> DeclaredIn(schemas, id)
  }

  /** Every bank of every event is in the file's own dictionary. */
  ghost predicate Declared(file: ChainFile)
    requires RecordsOk(file.records)
  {
    forall k, i: nat :: 0 <= k < |file.records| && file.records[k].stored.Decoded? && i < file.records[k].stored.content.Count() ==>
      EventDeclared(file.schemas, EventAt(file.records[k].stored.content, i))
  }

  /** `with_filter` accepts only names the chain's own dictionary declares. */
  predicate Accepted(clauses: Option<Clauses>, union: seq<Schema>)
  {
    clauses.Some? ==> AllDeclared(clauses.value.names, union)
  }

  lemma PassesAsCarried(b: Bound, ev: EventValue)
    requires ev.SplitEvent? ==> ev.split.Dir().Valid() && ev.e < ev.split.Dir().Events()
    ensures Passes(Some(b), ev) <==>
      && !b.unsatisfiable
      && (b.clauses.TagActive() ==> b.clauses.TagMatches(if ev.BlobEvent? then EventTag(ev.bytes) else ev.split.Dir().tags[ev.e]))
      && forall id :: id in b.ids ==> id in Carried(ev)
  {
    hide Has, InDirectory, EventTag;
    assert forall k :: 0 <= k < |b.ids| ==> b.ids[k] in b.ids;
  }

  lemma SameVerdict(clauses: Option<Clauses>, schemas: seq<Schema>, union: seq<Schema>, ev: EventValue)
    requires ev.SplitEvent? ==> ev.split.Dir().Valid() && ev.e < ev.split.Dir().Events()
    requires Compatible(union) && (forall s :: s in schemas ==> s in union) && Accepted(clauses, union)
    requires EventDeclared(schemas, ev)
    ensures Passes(Binding(clauses, schemas), ev) <==> Passes(Binding(clauses, union), ev)
  {
    if clauses.Some? {
      var own, all := BoundTo(clauses.value, schemas), BoundTo(clauses.value, union);
      hide Compatible, DeclaredIn, BoundTo, Has, InDirectory, EventTag, Carried, Passes;
      PassesAsCarried(own, ev);
      PassesAsCarried(all, ev);
      BindingsAgree(clauses.value, schemas, union, Carried(ev));
      SameClauses(clauses.value, schemas, union);
    }
  }

  lemma SameClauses(clauses: Clauses, schemas: seq<Schema>, union: seq<Schema>)
    ensures BoundTo(clauses, schemas).clauses == clauses == BoundTo(clauses, union).clauses
  {
  }

  lemma {:induction false} SurvivorsAgree(clauses: Option<Clauses>, schemas: seq<Schema>, union: seq<Schema>,
      c: Content, i: nat)
    requires c.Valid() && Compatible(union) && (forall s :: s in schemas ==> s in union) && Accepted(clauses, union)
    requires forall j: nat :: j < c.Count() ==> EventDeclared(schemas, EventAt(c, j))
    ensures Survivors(c, Binding(clauses, schemas), i) == Survivors(c, Binding(clauses, union), i)
    decreases c.Count() - i
  {
    hide Compatible, Accepted, Binding, Passes, EventAt, EventDeclared, Content.Valid;
    if i < c.Count() {
      SurvivorsAgree(clauses, schemas, union, c, i + 1);
      SameVerdict(clauses, schemas, union, EventAt(c, i));
    }
  }

  /** Every header the tag pushdown looks at can be read. */
  predicate HeadersReadable(records: seq<StoredRecord>, tags: Option<seq<nat>>)
  {
    tags.Some? ==> forall k :: 0 <= k < |records| ==> records[k].userWord.Some?
  }

  lemma FileRunStep(records: seq<StoredRecord>, f: Option<Bound>, tags: Option<seq<nat>>, k: nat)
    requires RecordsOk(records) && k < |records| && HeadersReadable(records, tags)
    ensures FileRun(records, f, tags, k)
      == if Selected(records[k], tags) then Then(TaskRun(records[k].stored, f), FileRun(records, f, tags, k + 1))
         else FileRun(records, f, tags, k + 1)
  {
    if records[k].stored.Decoded? {
      SurvivorsAreEvents(records[k].stored.content, f, 0);
    }
  }

  lemma FileRunEnd(records: seq<StoredRecord>, f: Option<Bound>, tags: Option<seq<nat>>, k: nat)
    requires RecordsOk(records) && k >= |records|
    ensures FileRun(records, f, tags, k) == []
  {
  }

  lemma {:induction false} FileAgrees(files: seq<ChainFile>, clauses: Option<Clauses>, union: seq<Schema>,
    tags: Option<seq<nat>>, fi: nat, ri: nat)
    requires FilesOk(files) && fi < |files| && HeadersReadable(files[fi].records, tags)
    requires Compatible(union) && (forall s :: s in files[fi].schemas ==> s in union) && Accepted(clauses, union)
    requires Declared(files[fi])
    ensures InFiles(files, FileTasks(files[fi].records, tags, fi, ri))
    ensures FileRun(files[fi].records, Binding(clauses, files[fi].schemas), tags, ri)
      == ScanRun(files, FileTasks(files[fi].records, tags, fi, ri), Binding(clauses, union))
    decreases |files[fi].records| - ri
  {
    hide Compatible, Accepted, Binding, EventDeclared, Survivors, Then, FileRun, Selected, HeadersReadable;
    FileTasksInFiles(files, tags, fi, ri);
    var records := files[fi].records;
    if ri < |records| {
      FileAgrees(files, clauses, union, tags, fi, ri + 1);
      FileRunStep(records, Binding(clauses, files[fi].schemas), tags, ri);
      if Selected(records[ri], tags) {
        ScanRunStep(files, (fi, ri), FileTasks(records, tags, fi, ri + 1), Binding(clauses, union));
        hide ScanRun;
        if records[ri].stored.Decoded? {
          SurvivorsAgree(clauses, files[fi].schemas, union, records[ri].stored.content, 0);
        }
      } else {
        assert FileTasks(records, tags, fi, ri) == FileTasks(records, tags, fi, ri + 1);
      }
    } else {
      FileRunEnd(records, Binding(clauses, files[fi].schemas), tags, ri);
    }
  }

  /** On one thread, `for_each` hands out what `events()` yields, in the same order and up to the
      same error, although one filters by the chain's dictionary and the other by each file's. */
  lemma {:induction false} EventsEqualForEach(files: seq<ChainFile>, clauses: Option<Clauses>, union: seq<Schema>,
    tags: Option<seq<nat>>, fi: nat)
    requires FilesOk(files) && Compatible(union) && Accepted(clauses, union)
    requires forall k :: 0 <= k < |files| ==>
      HeadersReadable(files[k].records, tags) && Declared(files[k]) && forall s :: s in files[k].schemas ==> s in union
    ensures InFiles(files, Tasks(files, tags, fi))
    ensures EventsRun(files, clauses, tags, fi) == ScanRun(files, Tasks(files, tags, fi), Binding(clauses, union))
    decreases |files| - fi
  {
    hide Compatible, Accepted, Binding, Declared, Then, FileRun, FileTasks, HeadersReadable, InFiles;
    TasksInFiles(files, tags, fi);
    if fi < |files| {
      EventsEqualForEach(files, clauses, union, tags, fi + 1);
      FileAgrees(files, clauses, union, tags, fi, 0);
      ScanRunAppend(files, FileTasks(files[fi].records, tags, fi, 0), Tasks(files, tags, fi + 1),
        Binding(clauses, union));
    }
  }

  lemma BrokenThen(a: seq<Item>, b: seq<Item>)
    ensures Broken(Then(a, b)) <==> Broken(a) || Broken(b)
  {
    if !Broken(a) && b != [] {
      assert (a + b)[|a + b| - 1] == b[|b| - 1];
    } else if b == [] {
      assert a + b == a;
    }
  }

  lemma {:induction false} UnreadableBreaksFile(records: seq<StoredRecord>, f: Option<Bound>, tags: Option<seq<nat>>,
      k: nat)
    requires RecordsOk(records) && tags.Some?
    requires exists i :: k <= i < |records| && records[i].userWord.None?
    ensures Broken(FileRun(records, f, tags, k))
    decreases |records| - k
  {
    hide Survivors, Broken;
    FailureBreaks();
    if records[k].userWord.Some? {
      UnreadableBreaksFile(records, f, tags, k + 1);
      if records[k].userWord.value in tags.value && records[k].stored.Decoded? {
        SurvivorsThen(records[k].stored.content, f, FileRun(records, f, tags, k + 1));
      }
    }
  }

  lemma FailureBreaks()
    ensures Broken([Failure])
  {
  }

  lemma SurvivorsThen(c: Content, f: Option<Bound>, later: seq<Item>)
    requires c.Valid() && Broken(later)
    ensures Broken(Survivors(c, f, 0) + later)
  {
    var own := Survivors(c, f, 0);
    assert (own + later)[|own + later| - 1] == later[|later| - 1];
  }

  lemma {:induction false} UnreadableBreaks(files: seq<ChainFile>, clauses: Option<Clauses>, tags: Option<seq<nat>>,
      fi: nat, k: nat)
    requires FilesOk(files) && fi <= k < |files| && !HeadersReadable(files[k].records, tags)
    ensures Broken(EventsRun(files, clauses, tags, fi))
    decreases |files| - fi
  {
    hide FileRun, Broken, Then;
    var own, later := FileRun(files[fi].records, Binding(clauses, files[fi].schemas), tags, 0),
        EventsRun(files, clauses, tags, fi + 1);
    BrokenThen(own, later);
    if fi == k {
      UnreadableBreaksFile(files[fi].records, Binding(clauses, files[fi].schemas), tags, 0);
    } else {
      UnreadableBreaks(files, clauses, tags, fi + 1, k);
    }
  }

  /** Wherever `for_each` succeeds, the two agree exactly when every header the record tags look
      at can be read: `events()` reports an unreadable one, `for_each` passes over it. */
  lemma AgreeIffHeadersReadable(files: seq<ChainFile>, clauses: Option<Clauses>, union: seq<Schema>,
      tags: Option<seq<nat>>)
    requires FilesOk(files) && Compatible(union) && Accepted(clauses, union)
    requires forall k :: 0 <= k < |files| ==> Declared(files[k]) && forall s :: s in files[k].schemas ==> s in union
    ensures InFiles(files, Tasks(files, tags, 0))
    ensures
      var scan := ScanRun(files, Tasks(files, tags, 0), Binding(clauses, union));
      !Broken(scan) ==>
        (EventsRun(files, clauses, tags, 0) == scan <==> forall k :: 0 <= k < |files| ==> HeadersReadable(files[k].records, tags))
  {
    hide Declared, Compatible, Accepted, ScanRun, EventsRun, HeadersReadable, Broken, Tasks, Binding;
    TasksInFiles(files, tags, 0);
    if k :| 0 <= k < |files| && !HeadersReadable(files[k].records, tags) {
      UnreadableBreaks(files, clauses, tags, 0, k);
    } else {
      EventsEqualForEach(files, clauses, union, tags, 0);
    }
  }

  /** One such chain. */
  lemma UnreadableHeaderDiverges(files: seq<ChainFile>, tags: seq<nat>)
    requires files == [ChainFile([], [StoredRecord(None, Unreadable)])]
    ensures FilesOk(files) && InFiles(files, Tasks(files, Some(tags), 0))
    ensures EventsRun(files, None, Some(tags), 0) == [Failure]
    ensures ScanRun(files, Tasks(files, Some(tags), 0), None) == []
  {
    assert FileTasks(files[0].records, Some(tags), 0, 0) == FileTasks(files[0].records, Some(tags), 0, 1) == [];
    assert Tasks(files, Some(tags), 0) == [] + Tasks(files, Some(tags), 1) == [];
    assert FileRun(files[0].records, None, Some(tags), 0) == [Failure];
  }

  /** One task done: its visits move from what is left to what is done. */
  lemma ScanStep(files: seq<ChainFile>, tasks: seq<(nat, nat)>, f: Option<Bound>, k: nat, done: seq<Item>)
    requires FilesOk(files) && InFiles(files, tasks) && k < |tasks|
    ensures
      var stored := files[tasks[k].0].records[tasks[k].1].stored;
      && (!stored.Decoded? ==> ScanRun(files, tasks[k..], f) == [Failure])
      && (stored.Decoded? ==>
            done + ScanRun(files, tasks[k..], f) == done + Survivors(stored.content, f, 0) + ScanRun(files, tasks[k + 1..], f))
  {
    hide Content.Valid, Survivors;
    var stored := files[tasks[k].0].records[tasks[k].1].stored;
    assert tasks[k..][1..] == tasks[k + 1..];
    if stored.Decoded? {
      var own, later := Survivors(stored.content, f, 0), ScanRun(files, tasks[k + 1..], f);
      SurvivorsAreEvents(stored.content, f, 0);
      assert ScanRun(files, tasks[k..], f) == own + later;
      assert done + (own + later) == done + own + later;
    }
  }

  /** How many events each record of the scan holds. */
  function EventCounts(files: seq<ChainFile>, tasks: seq<(nat, nat)>): (r: seq<nat>)
    requires InFiles(files, tasks)
    ensures |r| == |tasks|
  {
    seq(|tasks|, k requires 0 <= k < |tasks| =>
      match files[tasks[k].0].records[tasks[k].1].stored case Decoded(c) => c.Count() case _ => 0)
  }

  lemma CountsStep(files: seq<ChainFile>, tasks: seq<(nat, nat)>, k: nat)
    requires InFiles(files, tasks) && k < |tasks|
    ensures InFiles(files, tasks[..k]) && InFiles(files, tasks[..k + 1])
    ensures Sum(EventCounts(files, tasks[..k + 1]))
      == Sum(EventCounts(files, tasks[..k])) + EventCounts(files, tasks)[k]
  {
    hide Sum;
    assert EventCounts(files, tasks[..k + 1]) == EventCounts(files, tasks[..k]) + [EventCounts(files, tasks)[k]];
    SumSnoc(EventCounts(files, tasks[..k]), EventCounts(files, tasks)[k]);
  }

  lemma CountsNothing(files: seq<ChainFile>)
    ensures InFiles(files, []) && Sum(EventCounts(files, [])) == 0
  {
  }

  /** `for_each` on one thread: the scan up to its first failure; when it ends well, every event of
      every record of the scan was read. */
  method ForEach(files: seq<ChainFile>, clauses: Option<Clauses>, union: seq<Schema>, tags: Option<seq<nat>>)
    returns (visited: seq<Item>, eventsIn: nat, eventsYielded: nat, ok: bool)
    requires FilesOk(files)
    ensures InFiles(files, Tasks(files, tags, 0))
    ensures ScanRun(files, Tasks(files, tags, 0), Binding(clauses, union)) == visited + if ok then [] else [Failure]
    ensures ok ==> eventsYielded == |visited| && eventsIn == Sum(EventCounts(files, Tasks(files, tags, 0)))
  {
    hide Tasks, Content.Valid, BoundTo, Visited, Survivors, ScanRun, Counted, Sum, EventCounts;
    var tasks := BuildTasks(files, tags);
    TasksInFiles(files, tags, 0);
    ghost var f := Binding(clauses, union);
    visited, eventsIn, eventsYielded, ok := [], 0, 0, true;
    var k := 0;
    ScanNothing(files, f);
    CountsNothing(files);
    while k < |tasks|
      invariant k <= |tasks| && InFiles(files, tasks[..k])
      invariant ScanRun(files, tasks, f) == visited + ScanRun(files, tasks[k..], f)
      invariant eventsYielded == |visited| && eventsIn == Sum(EventCounts(files, tasks[..k]))
    {
      var (fi, ri) := tasks[k];
      var stored := files[fi].records[ri].stored;
      var visits, localIn, read := ProcessRecord(stored,
        if clauses.Some? then clauses.value else Clauses([], [], [], 0), union, clauses.Some?, None);
      ScanStep(files, tasks, f, k, visited);
      if !read {
        ok := false;
        return;
      }
      VisitedAreSurvivors(stored.content, f);
      AllCounted(stored.content);
      CountsStep(files, tasks, k);
      CountAt(files, tasks, k);
      visited := visited + Values(stored.content, visits);
      eventsIn := eventsIn + localIn;
      eventsYielded := eventsYielded + |visits|;
      k := k + 1;
    }
    assert tasks[..|tasks|] == tasks;
  }

  lemma CountAt(files: seq<ChainFile>, tasks: seq<(nat, nat)>, k: nat)
    requires InFiles(files, tasks) && k < |tasks| && files[tasks[k].0].records[tasks[k].1].stored.Decoded?
    ensures EventCounts(files, tasks)[k] == files[tasks[k].0].records[tasks[k].1].stored.content.Count()
  {
  }
}
