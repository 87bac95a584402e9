/** When `events()` and `for_each` give the same, failures included (src/read/chain.rs). */
module ScanAgreements {
  import opened Bytes
  import opened Schemas
  import opened Dictionaries
  import opened Filters
  import opened EventIters
  import opened ChainScans

  // ---- One list of records ------------------------------------------------------

  /** The header the record tags look at cannot be read. */
  predicate Hidden(recs: seq<StoredRecord>, tags: Option<seq<nat>>, p: nat)
  {
    p < |recs| && tags.Some? && recs[p].userWord.None?
  }

  /** A record that is picked and does not decode. */
  predicate Bad(recs: seq<StoredRecord>, tags: Option<seq<nat>>, d: nat)
  {
    d < |recs| && Selected(recs[d], tags) && !recs[d].stored.Decoded?
  }

  /** A record with nothing to hand out, because it is not picked or no event of it passes. */
  ghost predicate Quiet(recs: seq<StoredRecord>, f: Option<Bound>, tags: Option<seq<nat>>, i: nat)
    requires RecordsOk(recs)
  {
    i < |recs| && Selected(recs[i], tags) && recs[i].stored.Decoded? ==> Survivors(recs[i].stored.content, f, 0) == []
  }

  /** What `events()` yields over the records. */
  function Read(recs: seq<StoredRecord>, f: Option<Bound>, tags: Option<seq<nat>>): (r: seq<Item>)
    requires RecordsOk(recs)
  {
    if recs == [] then []
    else if Hidden(recs, tags, 0) then [Failure]
    else if Selected(recs[0], tags) then Then(TaskRun(recs[0].stored, f), Read(recs[1..], f, tags))
    else Read(recs[1..], f, tags)
  }

  /** What `for_each` hands out over the records. */
  function Scanned(recs: seq<StoredRecord>, f: Option<Bound>, tags: Option<seq<nat>>): (r: seq<Item>)
    requires RecordsOk(recs)
  {
    if recs == [] then []
    else if Selected(recs[0], tags) then Then(TaskRun(recs[0].stored, f), Scanned(recs[1..], f, tags))
    else Scanned(recs[1..], f, tags)
  }

  /** The scan fails before it hands anything out. */
  ghost predicate FailsFirst(recs: seq<StoredRecord>, f: Option<Bound>, tags: Option<seq<nat>>)
    requires RecordsOk(recs)
  {
    exists d: nat :: Bad(recs, tags, d) && forall i :: 0 <= i < d ==> Quiet(recs, f, tags, i)
  }

  lemma FailsFirstStep(recs: seq<StoredRecord>, f: Option<Bound>, tags: Option<seq<nat>>)
    requires RecordsOk(recs) && recs != []
    ensures RecordsOk(recs[1..])
    ensures FailsFirst(recs, f, tags) <==>
      Bad(recs, tags, 0) || (Quiet(recs, f, tags, 0) && FailsFirst(recs[1..], f, tags))
  {
    hide Selected, Survivors;
    var rest := recs[1..];
    assert forall i :: 0 <= i < |rest| ==> rest[i] == recs[i + 1];
    if d: nat :| Bad(recs, tags, d) && forall i :: 0 <= i < d ==> Quiet(recs, f, tags, i) {
      if d > 0 {
        assert Bad(rest, tags, d - 1);
        forall i | 0 <= i < d - 1
          ensures Quiet(rest, f, tags, i)
        {
          assert Quiet(recs, f, tags, i + 1);
        }
      }
    }
    if Quiet(recs, f, tags, 0) && FailsFirst(rest, f, tags) {
      var d: nat :| Bad(rest, tags, d) && forall i :: 0 <= i < d ==> Quiet(rest, f, tags, i);
      assert Bad(recs, tags, d + 1);
      forall i | 0 <= i < d + 1
        ensures Quiet(recs, f, tags, i)
      {
        assert i > 0 ==> Quiet(rest, f, tags, i - 1);
      }
    }
  }

  lemma TaskHead(stored: Stored, f: Option<Bound>, later: seq<Item>)
    requires stored.Decoded? ==> stored.content.Valid()
    ensures Then(TaskRun(stored, f), later)
      == if stored.Decoded? then Survivors(stored.content, f, 0) + later else [Failure]
    ensures stored.Decoded? ==> AllEvents(Survivors(stored.content, f, 0))
  {
    if stored.Decoded? {
      SurvivorsAreEvents(stored.content, f, 0);
    }
  }

  lemma {:induction false} FailsFirstIs(recs: seq<StoredRecord>, f: Option<Bound>, tags: Option<seq<nat>>)
    requires RecordsOk(recs)
    ensures Scanned(recs, f, tags) == [Failure] <==> FailsFirst(recs, f, tags)
  {
    if recs != [] {
      FailsFirstStep(recs, f, tags);
      FailsFirstIs(recs[1..], f, tags);
      hide FailsFirst, Survivors, Then, TaskRun;
      TaskHead(recs[0].stored, f, Scanned(recs[1..], f, tags));
      if Selected(recs[0], tags) && recs[0].stored.Decoded? {
        OnlyFailure(Survivors(recs[0].stored.content, f, 0), Scanned(recs[1..], f, tags));
      }
    }
  }

  lemma OnlyFailure(own: seq<Item>, later: seq<Item>)
    requires AllEvents(own)
    ensures own + later == [Failure] <==> own == [] && later == [Failure]
  {
    if own != [] {
      assert (own + later)[0] == own[0] && own[0].Event?;
    }
  }

  /** At every unreadable header the scan has failed before, or fails after it with nothing handed
      out in between. */
  ghost predicate SameFailures(recs: seq<StoredRecord>, f: Option<Bound>, tags: Option<seq<nat>>)
    requires RecordsOk(recs)
  {
    forall p: nat :: Hidden(recs, tags, p) ==>
      (exists d: nat :: d < p && Bad(recs, tags, d)) || FailsFirst(recs[p + 1..], f, tags)
  }

  lemma SuffixOk(recs: seq<StoredRecord>, k: nat)
    requires RecordsOk(recs) && k <= |recs|
    ensures RecordsOk(recs[k..])
  {
  }

  lemma {:induction false} FailureFound(recs: seq<StoredRecord>, f: Option<Bound>, tags: Option<seq<nat>>, p: nat)
    requires RecordsOk(recs) && FailsFirst(recs, f, tags) && Hidden(recs, tags, p)
    ensures (exists d: nat :: d < p && Bad(recs, tags, d)) || FailsFirst(recs[p + 1..], f, tags)
    decreases |recs|
  {
    FailsFirstStep(recs, f, tags);
    if !Bad(recs, tags, 0) {
      assert recs[1..][p..] == recs[p + 1..];
      if p > 0 {
        hide FailsFirst;
        assert Hidden(recs[1..], tags, p - 1);
        FailureFound(recs[1..], f, tags, p - 1);
        if d: nat :| d < p - 1 && Bad(recs[1..], tags, d) {
          assert Bad(recs, tags, d + 1);
        }
      }
    }
  }

  lemma SameFailuresStep(recs: seq<StoredRecord>, f: Option<Bound>, tags: Option<seq<nat>>)
    requires RecordsOk(recs) && recs != []
    ensures RecordsOk(recs[1..])
    ensures SameFailures(recs, f, tags) <==>
      if Hidden(recs, tags, 0) then FailsFirst(recs[1..], f, tags)
      else Bad(recs, tags, 0) || SameFailures(recs[1..], f, tags)
  {
    hide FailsFirst, Selected;
    var rest := recs[1..];
    if Hidden(recs, tags, 0) {
      if FailsFirst(rest, f, tags) {
        forall p: nat | Hidden(recs, tags, p)
          ensures (exists d: nat :: d < p && Bad(recs, tags, d)) || FailsFirst(recs[p + 1..], f, tags)
        {
          LaterFailure(recs, f, tags, p);
        }
      }
    } else if !Bad(recs, tags, 0) {
      forall p: nat | p > 0
        ensures Hidden(recs, tags, p) <==> Hidden(rest, tags, p - 1)
        ensures Hidden(recs, tags, p) ==> recs[p + 1..] == rest[p..]
        ensures (exists d: nat :: d < p && Bad(recs, tags, d)) <==> exists d: nat :: d < p - 1 && Bad(rest, tags, d)
      {
        BadShift(recs, tags, p);
      }
    }
  }

  lemma LaterFailure(recs: seq<StoredRecord>, f: Option<Bound>, tags: Option<seq<nat>>, p: nat)
    requires RecordsOk(recs) && recs != [] && RecordsOk(recs[1..]) && FailsFirst(recs[1..], f, tags)
    requires Hidden(recs, tags, p)
    ensures (exists d: nat :: d < p && Bad(recs, tags, d)) || FailsFirst(recs[p + 1..], f, tags)
  {
    hide FailsFirst, Selected;
    if p > 0 {
      assert Hidden(recs[1..], tags, p - 1);
      FailureFound(recs[1..], f, tags, p - 1);
      assert recs[1..][p..] == recs[p + 1..];
      if d: nat :| d < p - 1 && Bad(recs[1..], tags, d) {
        assert Bad(recs, tags, d + 1);
      }
    }
  }

  lemma BadShift(recs: seq<StoredRecord>, tags: Option<seq<nat>>, p: nat)
    requires recs != [] && !Bad(recs, tags, 0) && p > 0
    ensures (exists d: nat :: d < p && Bad(recs, tags, d)) <==> exists d: nat :: d < p - 1 && Bad(recs[1..], tags, d)
  {
    if d: nat :| d < p && Bad(recs, tags, d) {
      assert Bad(recs[1..], tags, d - 1);
    }
    if d: nat :| d < p - 1 && Bad(recs[1..], tags, d) {
      assert Bad(recs, tags, d + 1);
    }
  }

  /** Over one list of records the two agree exactly then. */
  lemma {:induction false} SameIffFailuresAre(recs: seq<StoredRecord>, f: Option<Bound>, tags: Option<seq<nat>>)
    requires RecordsOk(recs)
    ensures Read(recs, f, tags) == Scanned(recs, f, tags) <==> SameFailures(recs, f, tags)
  {
    if recs != [] {
      SameFailuresStep(recs, f, tags);
      SameIffFailuresAre(recs[1..], f, tags);
      FailsFirstIs(recs[1..], f, tags);
      hide SameFailures, FailsFirst, Then, TaskRun, Survivors;
      TaskHead(recs[0].stored, f, Read(recs[1..], f, tags));
      TaskHead(recs[0].stored, f, Scanned(recs[1..], f, tags));
      if recs[0].stored.Decoded? {
        SameTail(Survivors(recs[0].stored.content, f, 0), Read(recs[1..], f, tags), Scanned(recs[1..], f, tags));
      }
    }
  }

  lemma SameTail(own: seq<Item>, a: seq<Item>, b: seq<Item>)
    ensures own + a == own + b <==> a == b
  {
    if own + a == own + b {
      assert a == (own + a)[|own|..] && b == (own + b)[|own|..];
    }
  }

  // ---- The chain ------------------------------------------------------------------

  /** The records of the chain from file `fi` on. */
  function Joined(files: seq<ChainFile>, fi: nat): (r: seq<StoredRecord>)
    decreases |files| - fi
  {
    if fi >= |files| then [] else files[fi].records + Joined(files, fi + 1)
  }

  lemma {:induction false} JoinedOk(files: seq<ChainFile>, fi: nat)
    requires FilesOk(files)
    ensures RecordsOk(Joined(files, fi))
    decreases |files| - fi
  {
    if fi < |files| {
      JoinedOk(files, fi + 1);
    }
  }

  lemma {:induction false} ReadAppend(a: seq<StoredRecord>, b: seq<StoredRecord>, f: Option<Bound>,
      tags: Option<seq<nat>>)
    requires RecordsOk(a) && RecordsOk(b) && RecordsOk(a + b)
    ensures Read(a + b, f, tags) == Then(Read(a, f, tags), Read(b, f, tags))
  {
    hide Then, TaskRun;
    if a == [] {
      assert a + b == b;
      ThenNothing(Read(b, f, tags));
    } else {
      assert (a + b)[1..] == a[1..] + b;
      ReadAppend(a[1..], b, f, tags);
      FailureStays(Read(b, f, tags));
      ThenAssociates(TaskRun(a[0].stored, f), Read(a[1..], f, tags), Read(b, f, tags));
    }
  }

  lemma FailureStays(later: seq<Item>)
    ensures Then([Failure], later) == [Failure]
  {
  }

  lemma {:induction false} ScannedAppend(a: seq<StoredRecord>, b: seq<StoredRecord>, f: Option<Bound>,
      tags: Option<seq<nat>>)
    requires RecordsOk(a) && RecordsOk(b) && RecordsOk(a + b)
    ensures Scanned(a + b, f, tags) == Then(Scanned(a, f, tags), Scanned(b, f, tags))
  {
    hide Then, TaskRun;
    if a == [] {
      assert a + b == b;
      ThenNothing(Scanned(b, f, tags));
    } else {
      assert (a + b)[1..] == a[1..] + b;
      ScannedAppend(a[1..], b, f, tags);
      ThenAssociates(TaskRun(a[0].stored, f), Scanned(a[1..], f, tags), Scanned(b, f, tags));
    }
  }

  /** A file's run, filtered by its own dictionary, is what the chain's filter reads. */
  lemma {:induction false} FileIsRead(file: ChainFile, clauses: Option<Clauses>, union: seq<Schema>,
      tags: Option<seq<nat>>, k: nat)
    requires RecordsOk(file.records) && k <= |file.records| && RecordsOk(file.records[k..])
    requires Compatible(union) && (forall s :: s in file.schemas ==> s in union) && Accepted(clauses, union)
    requires Declared(file)
    ensures FileRun(file.records, Binding(clauses, file.schemas), tags, k)
      == Read(file.records[k..], Binding(clauses, union), tags)
    decreases |file.records| - k
  {
    hide Compatible, Accepted, Binding, EventDeclared, Survivors, Then, TaskRun;
    if k < |file.records| {
      var rec := file.records[k];
      assert file.records[k..][0] == rec && file.records[k..][1..] == file.records[k + 1..];
      SuffixOk(file.records, k + 1);
      FileIsRead(file, clauses, union, tags, k + 1);
      TaskHead(rec.stored, Binding(clauses, union), Read(file.records[k + 1..], Binding(clauses, union), tags));
      if rec.stored.Decoded? {
        SurvivorsAgree(clauses, file.schemas, union, rec.stored.content, 0);
      }
    }
  }

  lemma {:induction false} EventsAreRead(files: seq<ChainFile>, clauses: Option<Clauses>, union: seq<Schema>,
      tags: Option<seq<nat>>, fi: nat)
    requires FilesOk(files) && Compatible(union) && Accepted(clauses, union)
    requires forall k :: 0 <= k < |files| ==> Declared(files[k]) && forall s :: s in files[k].schemas ==> s in union
    ensures RecordsOk(Joined(files, fi))
    ensures EventsRun(files, clauses, tags, fi) == Read(Joined(files, fi), Binding(clauses, union), tags)
    decreases |files| - fi
  {
    hide Compatible, Accepted, Binding, Declared, Then, FileRun, Read;
    JoinedOk(files, fi);
    if fi < |files| {
      JoinedOk(files, fi + 1);
      EventsAreRead(files, clauses, union, tags, fi + 1);
      assert files[fi].records[0..] == files[fi].records;
      FileIsRead(files[fi], clauses, union, tags, 0);
      ReadAppend(files[fi].records, Joined(files, fi + 1), Binding(clauses, union), tags);
    } else {
      ReadNothing(Binding(clauses, union), tags);
    }
  }

  lemma ReadNothing(f: Option<Bound>, tags: Option<seq<nat>>)
    ensures Read([], f, tags) == [] && Scanned([], f, tags) == []
  {
  }

  lemma {:induction false} FileIsScanned(files: seq<ChainFile>, f: Option<Bound>, tags: Option<seq<nat>>, fi: nat,
      k: nat)
    requires FilesOk(files) && fi < |files| && k <= |files[fi].records| && RecordsOk(files[fi].records[k..])
    ensures InFiles(files, FileTasks(files[fi].records, tags, fi, k))
    ensures ScanRun(files, FileTasks(files[fi].records, tags, fi, k), f) == Scanned(files[fi].records[k..], f, tags)
    decreases |files[fi].records| - k
  {
    hide Then, TaskRun, ScanRun, Selected;
    FileTasksInFiles(files, tags, fi, k);
    var records := files[fi].records;
    if k < |records| {
      assert records[k..][0] == records[k] && records[k..][1..] == records[k + 1..];
      SuffixOk(records, k + 1);
      FileIsScanned(files, f, tags, fi, k + 1);
      if Selected(records[k], tags) {
        ScanRunStep(files, (fi, k), FileTasks(records, tags, fi, k + 1), f);
      } else {
        assert FileTasks(records, tags, fi, k) == FileTasks(records, tags, fi, k + 1);
      }
    } else {
      ScanNothing(files, f);
    }
  }

  lemma {:induction false} ScanIsScanned(files: seq<ChainFile>, f: Option<Bound>, tags: Option<seq<nat>>, fi: nat)
    requires FilesOk(files)
    ensures InFiles(files, Tasks(files, tags, fi)) && RecordsOk(Joined(files, fi))
    ensures ScanRun(files, Tasks(files, tags, fi), f) == Scanned(Joined(files, fi), f, tags)
    decreases |files| - fi
  {
    hide Then, FileTasks, Scanned, ScanRun, InFiles;
    TasksInFiles(files, tags, fi);
    JoinedOk(files, fi);
    if fi < |files| {
      JoinedOk(files, fi + 1);
      ScanIsScanned(files, f, tags, fi + 1);
      assert files[fi].records[0..] == files[fi].records;
      FileIsScanned(files, f, tags, fi, 0);
      ScanRunAppend(files, FileTasks(files[fi].records, tags, fi, 0), Tasks(files, tags, fi + 1), f);
      ScannedAppend(files[fi].records, Joined(files, fi + 1), f, tags);
    } else {
      ScanNothing(files, f);
      ReadNothing(f, tags);
    }
  }

  /** `events()` and `for_each` on one thread, filtered by the files' dictionaries and the chain's, give
      the same events up to the same error exactly when, at every header that cannot be read, the scan
      has met damage already, or meets it with nothing handed out in between. */
  lemma PathsAgreeIff(files: seq<ChainFile>, clauses: Option<Clauses>, union: seq<Schema>, tags: Option<seq<nat>>)
    requires FilesOk(files) && Compatible(union) && Accepted(clauses, union)
    requires forall k :: 0 <= k < |files| ==> Declared(files[k]) && forall s :: s in files[k].schemas ==> s in union
    ensures InFiles(files, Tasks(files, tags, 0)) && RecordsOk(Joined(files, 0))
    ensures EventsRun(files, clauses, tags, 0) == ScanRun(files, Tasks(files, tags, 0), Binding(clauses, union))
            <==> SameFailures(Joined(files, 0), Binding(clauses, union), tags)
  {
    hide Compatible, Accepted, Declared, Binding, EventsRun, ScanRun, Read, Scanned, SameFailures, Joined, Tasks;
    EventsAreRead(files, clauses, union, tags, 0);
    ScanIsScanned(files, Binding(clauses, union), tags, 0);
    SameIffFailuresAre(Joined(files, 0), Binding(clauses, union), tags);
  }
}
