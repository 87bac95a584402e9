/** What the readers hand out of records of whole events, told from the events themselves: their bytes,
    the records' user words and what the filter was built from (src/read/iter.rs, src/read/chain.rs). */
module PlainRuns {
  import opened Bytes
  import opened Events
  import opened Schemas
  import opened Filters
  import opened EventIters
  import opened BlobRecords
  import opened ChainIndexes
  import opened ChainScans
  import opened RangeScans
  import opened RecordCaches

  // ---- Record tags ------------------------------------------------------------------

  /** The records a list of tags asks for. A record whose header cannot be read is still met, and
      fails as one whose body cannot be read. */
  function AskedFor(records: seq<StoredRecord>, tags: seq<nat>): (r: seq<StoredRecord>)
  {
    if records == [] then []
    else
      (match records[0].userWord
       case None => [StoredRecord(None, Unreadable)]
       case Some(w) => if exists t :: 0 <= t < |tags| && tags[t] == w then [records[0]] else [])
      + AskedFor(records[1..], tags)
  }

  lemma {:induction false} AskedForOk(records: seq<StoredRecord>, tags: seq<nat>)
    requires RecordsOk(records)
    ensures RecordsOk(AskedFor(records, tags))
  {
    hide Content.Valid;
    if records != [] {
      AskedForOk(records[1..], tags);
    }
  }

  lemma {:induction false} RunOfRest(records: seq<StoredRecord>, f: Option<Bound>, tags: Option<seq<nat>>, k: nat,
      n: nat)
    requires RecordsOk(records) && k <= n <= |records|
    ensures RecordsOk(records[k..]) && FileRun(records[k..], f, tags, n - k) == FileRun(records, f, tags, n)
    decreases |records| - n
  {
    hide Content.Valid, Survivors;
    if n < |records| {
      RunOfRest(records, f, tags, k, n + 1);
      assert records[k..][n - k] == records[n];
    }
  }

  lemma RunOfOne(r: StoredRecord, rest: seq<StoredRecord>, f: Option<Bound>, tags: Option<seq<nat>>)
    requires RecordsOk([r] + rest)
    ensures RecordsOk(rest)
    ensures FileRun([r] + rest, f, tags, 0) ==
      if tags.Some? && r.userWord.None? then [Failure]
      else if tags.Some? && r.userWord.value !in tags.value then FileRun(rest, f, tags, 0)
      else if !r.stored.Decoded? then [Failure]
      else assert ([r] + rest)[0] == r; Survivors(r.stored.content, f, 0) + FileRun(rest, f, tags, 0)
  {
    hide Survivors, Content.Valid;
    RunOfRest([r] + rest, f, tags, 1, 1);
    assert ([r] + rest)[1..] == rest && ([r] + rest)[0] == r;
  }

  /** A run with tags is the run over the records whose user word is one of the tags. */
  lemma {:induction false} TagRun(records: seq<StoredRecord>, f: Option<Bound>, tags: seq<nat>)
    requires RecordsOk(records)
    ensures RecordsOk(AskedFor(records, tags))
    ensures FileRun(records, f, Some(tags), 0) == FileRun(AskedFor(records, tags), f, None, 0)
  {
    AskedForOk(records, tags);
    if records != [] {
      var r, rest := records[0], records[1..];
      assert records == [r] + rest;
      TagRun(rest, f, tags);
      RunOfOne(r, rest, f, Some(tags));
      hide FileRun, Survivors, Content.Valid;
      match r.userWord {
        case None =>
          RunOfOne(StoredRecord(None, Unreadable), AskedFor(rest, tags), f, None);
        case Some(w) =>
          if exists t :: 0 <= t < |tags| && tags[t] == w {
            RunOfOne(r, AskedFor(rest, tags), f, None);
          } else {
            assert AskedFor(records, tags) == AskedFor(rest, tags);
          }
      }
    }
  }

  // ---- Records of whole events ------------------------------------------------------

  /** A record as its writer thinks of it. */
  datatype Plain = Plain(word: nat, front: seq<byte>, events: seq<seq<byte>>, rest: seq<byte>)

  function Store(p: Plain): (r: StoredRecord)
  {
    StoredRecord(Some(p.word), Decoded(Whole(p.front, p.events, p.rest)))
  }

  function StoreAll(ps: seq<Plain>): (r: seq<StoredRecord>)
  {
    if ps == [] then [] else [Store(ps[0])] + StoreAll(ps[1..])
  }

  /** The event has what the filter was built to ask. */
  ghost predicate Asked(c: Option<Clauses>, schemas: seq<Schema>, ev: seq<byte>)
  {
    c.Some? ==>
      TagAsked(c.value, EventTag(ev)) && forall k :: 0 <= k < |c.value.names| ==>
        NameCarried(schemas, c.value.names[k], ev)
  }

  ghost function Wanted(evs: seq<seq<byte>>, c: Option<Clauses>, schemas: seq<Schema>): (r: seq<seq<byte>>)
    ensures |r| <= |evs|
  {
    if evs == [] then [] else (if Asked(c, schemas, evs[0]) then [evs[0]] else []) + Wanted(evs[1..], c, schemas)
  }

  /** The events of the records whose word is one of the tags. */
  function OfTags(ps: seq<Plain>, tags: Option<seq<nat>>): (r: seq<seq<byte>>)
  {
    if ps == [] then []
    else
      (if tags.None? || exists t :: 0 <= t < |tags.value| && tags.value[t] == ps[0].word then ps[0].events else [])
      + OfTags(ps[1..], tags)
  }

  lemma {:induction false} StoreAllOk(ps: seq<Plain>)
    ensures RecordsOk(StoreAll(ps)) && |StoreAll(ps)| == |ps|
    ensures forall k :: 0 <= k < |ps| ==> StoreAll(ps)[k] == Store(ps[k])
  {
    hide Content.Valid, Whole;
    if ps != [] {
      StoreAllOk(ps[1..]);
      WholeIsValid(ps[0].front, ps[0].events, ps[0].rest);
    }
  }

  lemma AskedIsPassed(c: Option<Clauses>, schemas: seq<Schema>, ev: seq<byte>)
    ensures Passes(Binding(c, schemas), BlobEvent(ev)) <==> Asked(c, schemas, ev)
  {
    hide Check, BoundTo, TagAsked, NameCarried;
    if c.Some? {
      EventVerdict(c.value, schemas, ev);
    }
  }

  lemma {:induction false} WholeWanted(front: seq<byte>, evs: seq<seq<byte>>, rest: seq<byte>, c: Option<Clauses>,
      schemas: seq<Schema>, i: nat)
    requires i <= |evs|
    ensures Whole(front, evs, rest).Valid()
    ensures Survivors(Whole(front, evs, rest), Binding(c, schemas), i) == Items(Wanted(evs[i..], c, schemas))
    decreases |evs| - i
  {
    hide Whole, Asked, Passes, EventAt, Binding;
    WholeIsValid(front, evs, rest);
    if i < |evs| {
      WholeWanted(front, evs, rest, c, schemas, i + 1);
      EventOfWhole(front, evs, rest, i);
      AskedIsPassed(c, schemas, evs[i]);
      assert evs[i..][1..] == evs[i + 1..];
    }
  }

  lemma {:induction false} WantedJoin(a: seq<seq<byte>>, b: seq<seq<byte>>, c: Option<Clauses>, schemas: seq<Schema>)
    ensures Wanted(a + b, c, schemas) == Wanted(a, c, schemas) + Wanted(b, c, schemas)
  {
    hide Asked;
    if a == [] {
      assert a + b == b;
    } else {
      hide Wanted;
      WantedJoin(a[1..], b, c, schemas);
      assert [a[0]] + a[1..] == a && [a[0]] + (a[1..] + b) == a + b;
      WantedStep(a[0], a[1..], c, schemas);
      WantedStep(a[0], a[1..] + b, c, schemas);
      Associates(if Asked(c, schemas, a[0]) then [a[0]] else [], Wanted(a[1..], c, schemas), Wanted(b, c, schemas));
    }
  }

  lemma WantedStep(ev: seq<byte>, evs: seq<seq<byte>>, c: Option<Clauses>, schemas: seq<Schema>)
    ensures Wanted([ev] + evs, c, schemas) == (if Asked(c, schemas, ev) then [ev] else []) + Wanted(evs, c, schemas)
  {
    assert ([ev] + evs)[1..] == evs;
  }

  lemma ItemsJoin(a: seq<seq<byte>>, b: seq<seq<byte>>)
    ensures Items(a + b) == Items(a) + Items(b)
  {
  }

  /** The run of a file: of the records the tags ask for, the events the filter asks for, in order, each
      with its own bytes. */
  lemma {:induction false} PlainRun(ps: seq<Plain>, c: Option<Clauses>, schemas: seq<Schema>, tags: Option<seq<nat>>)
    ensures RecordsOk(StoreAll(ps))
    ensures FileRun(StoreAll(ps), Binding(c, schemas), tags, 0) == Items(Wanted(OfTags(ps, tags), c, schemas))
  {
    StoreAllOk(ps);
    if ps != [] {
      var p, rest := ps[0], ps[1..];
      PlainRun(rest, c, schemas, tags);
      RunOfOne(Store(p), StoreAll(rest), Binding(c, schemas), tags);
      hide FileRun, Survivors, Wanted, Whole, Content.Valid, Binding, Items;
      if tags.None? || exists t :: 0 <= t < |tags.value| && tags.value[t] == p.word {
        WholeWanted(p.front, p.events, p.rest, c, schemas, 0);
        assert p.events[0..] == p.events;
        WantedJoin(p.events, OfTags(rest, tags), c, schemas);
        ItemsJoin(Wanted(p.events, c, schemas), Wanted(OfTags(rest, tags), c, schemas));
      } else {
        assert OfTags(ps, tags) == OfTags(rest, tags);
      }
    }
  }

  // ---- Chains of such files ---------------------------------------------------------

  datatype PlainFile = PlainFile(schemas: seq<Schema>, records: seq<Plain>)

  function ChainOf(files: seq<PlainFile>): (r: seq<ChainFile>)
    ensures |r| == |files|
  {
    seq(|files|, k requires 0 <= k < |files| => ChainFile(files[k].schemas, StoreAll(files[k].records)))
  }

  /** The events asked for, file after file, each file's names meant by its own dictionary. */
  ghost function ChainWanted(files: seq<PlainFile>, c: Option<Clauses>, tags: Option<seq<nat>>,
      k: nat): (r: seq<seq<byte>>)
    decreases |files| - k
  {
    if k >= |files| then []
    else Wanted(OfTags(files[k].records, tags), c, files[k].schemas) + ChainWanted(files, c, tags, k + 1)
  }

  lemma ChainOk(files: seq<PlainFile>)
    ensures FilesOk(ChainOf(files))
  {
    hide RecordsOk;
    forall k | 0 <= k < |files|
      ensures RecordsOk(ChainOf(files)[k].records)
    {
      StoreAllOk(files[k].records);
    }
  }

  /** `events()` over a chain. */
  lemma {:induction false} PlainEvents(files: seq<PlainFile>, c: Option<Clauses>, tags: Option<seq<nat>>, k: nat)
    ensures FilesOk(ChainOf(files))
    ensures EventsRun(ChainOf(files), c, tags, k) == Items(ChainWanted(files, c, tags, k))
    decreases |files| - k
  {
    ChainOk(files);
    hide FileRun, Wanted, Items, FilesOk, RecordsOk, Binding;
    if k < |files| {
      PlainEvents(files, c, tags, k + 1);
      PlainRun(files[k].records, c, files[k].schemas, tags);
      ItemsJoin(Wanted(OfTags(files[k].records, tags), c, files[k].schemas), ChainWanted(files, c, tags, k + 1));
      NoneBroken(Wanted(OfTags(files[k].records, tags), c, files[k].schemas));
    }
  }

  lemma NoneBroken(evs: seq<seq<byte>>)
    ensures !Broken(Items(evs))
  {
  }

  /** The events asked for, all names meant by one dictionary. */
  ghost function ScanWanted(files: seq<PlainFile>, c: Option<Clauses>, union: seq<Schema>, tags: Option<seq<nat>>,
      k: nat)
    : (r: seq<seq<byte>>)
    decreases |files| - k
  {
    if k >= |files| then []
    else Wanted(OfTags(files[k].records, tags), c, union) + ScanWanted(files, c, union, tags, k + 1)
  }

  lemma {:induction false} PlainFileScan(files: seq<PlainFile>, c: Option<Clauses>, union: seq<Schema>,
      tags: Option<seq<nat>>, fi: nat, ri: nat)
    requires fi < |files| && ri <= |files[fi].records|
    ensures FilesOk(ChainOf(files)) && InFiles(ChainOf(files), FileTasks(StoreAll(files[fi].records), tags, fi, ri))
    ensures ScanRun(ChainOf(files), FileTasks(StoreAll(files[fi].records), tags, fi, ri), Binding(c, union))
      == Items(Wanted(OfTags(files[fi].records[ri..], tags), c, union))
    decreases |files[fi].records| - ri
  {
    ChainOk(files);
    StoreAllOk(files[fi].records);
    FileTasksInFiles(ChainOf(files), tags, fi, ri);
    var records := StoreAll(files[fi].records);
    hide FilesOk, Binding, Wanted, Items, OfTags, ScanRun, TaskRun, Then, StoreAll, Content.Valid;
    if ri < |records| {
      PlainFileScan(files, c, union, tags, fi, ri + 1);
      var p, rest := files[fi].records[ri], files[fi].records[ri + 1..];
      assert files[fi].records[ri..] == [p] + rest;
      OfTagsStep(p, rest, tags, records[ri]);
      var later := FileTasks(records, tags, fi, ri + 1);
      hide Selected;
      if Selected(records[ri], tags) {
        ScanRunStep(ChainOf(files), (fi, ri), later, Binding(c, union));
        TaskOfPlain(p, OfTags(rest, tags), c, union);
      } else {
        assert FileTasks(records, tags, fi, ri) == later;
      }
    } else {
      assert files[fi].records[ri..] == [];
      NothingOfTags(c, union, tags);
      ScanNothing(ChainOf(files), Binding(c, union));
    }
  }

  lemma OfTagsStep(p: Plain, rest: seq<Plain>, tags: Option<seq<nat>>, r: StoredRecord)
    requires r == Store(p)
    ensures OfTags([p] + rest, tags) == if Selected(r, tags) then p.events + OfTags(rest, tags) else OfTags(rest, tags)
  {
    hide Whole;
    assert ([p] + rest)[1..] == rest;
    assert [] + OfTags(rest, tags) == OfTags(rest, tags);
  }

  lemma TaskOfPlain(p: Plain, later: seq<seq<byte>>, c: Option<Clauses>, schemas: seq<Schema>)
    ensures Whole(p.front, p.events, p.rest).Valid()
    ensures Then(TaskRun(Store(p).stored, Binding(c, schemas)), Items(Wanted(later, c, schemas)))
      == Items(Wanted(p.events + later, c, schemas))
  {
    hide Wanted, Items, Whole, Content.Valid, Survivors, Then, Binding;
    WholeWanted(p.front, p.events, p.rest, c, schemas, 0);
    assert p.events[0..] == p.events;
    WantedJoin(p.events, later, c, schemas);
    ItemsJoin(Wanted(p.events, c, schemas), Wanted(later, c, schemas));
    ThenPlain(Wanted(p.events, c, schemas), Items(Wanted(later, c, schemas)));
  }

  lemma NothingOfTags(c: Option<Clauses>, schemas: seq<Schema>, tags: Option<seq<nat>>)
    ensures Items(Wanted(OfTags([], tags), c, schemas)) == []
  {
  }

  lemma NothingWanted(c: Option<Clauses>, schemas: seq<Schema>)
    ensures Wanted([], c, schemas) == [] && Items([]) == []
  {
  }

  lemma ThenPlain(evs: seq<seq<byte>>, later: seq<Item>)
    ensures Then(Items(evs), later) == Items(evs) + later
  {
  }

  /** `for_each` on one thread over a chain: the same, but every name is meant by the chain's dictionary. */
  lemma {:induction false} PlainForEach(files: seq<PlainFile>, c: Option<Clauses>, union: seq<Schema>,
      tags: Option<seq<nat>>, k: nat)
    ensures FilesOk(ChainOf(files)) && InFiles(ChainOf(files), Tasks(ChainOf(files), tags, k))
    ensures ScanRun(ChainOf(files), Tasks(ChainOf(files), tags, k), Binding(c, union))
      == Items(ScanWanted(files, c, union, tags, k))
    decreases |files| - k
  {
    ChainOk(files);
    TasksInFiles(ChainOf(files), tags, k);
    hide FilesOk, Binding, Wanted, FileTasks, Then, Items, OfTags;
    if k < |files| {
      PlainForEach(files, c, union, tags, k + 1);
      PlainFileScan(files, c, union, tags, k, 0);
      assert files[k].records[0..] == files[k].records;
      ScanRunAppend(ChainOf(files), FileTasks(StoreAll(files[k].records), tags, k, 0),
        Tasks(ChainOf(files), tags, k + 1), Binding(c, union));
      ThenPlain(Wanted(OfTags(files[k].records, tags), c, union), Items(ScanWanted(files, c, union, tags, k + 1)));
      ItemsJoin(Wanted(OfTags(files[k].records, tags), c, union), ScanWanted(files, c, union, tags, k + 1));
    } else {
      ScanNothing(ChainOf(files), Binding(c, union));
      NothingWanted(c, union);
    }
  }

  lemma {:induction false} AllWanted(evs: seq<seq<byte>>, schemas: seq<Schema>)
    ensures Wanted(evs, None, schemas) == evs
  {
    if evs != [] {
      AllWanted(evs[1..], schemas);
    }
  }

  /** Every event of the chain, in order. */
  function AllEventsOf(files: seq<PlainFile>, k: nat): (r: seq<seq<byte>>)
    decreases |files| - k
  {
    if k >= |files| then [] else OfTags(files[k].records, None) + AllEventsOf(files, k + 1)
  }

  lemma {:induction false} NothingAsked(files: seq<PlainFile>, k: nat)
    ensures ChainWanted(files, None, None, k) == AllEventsOf(files, k)
    decreases |files| - k
  {
    if k < |files| {
      NothingAsked(files, k + 1);
      AllWanted(OfTags(files[k].records, None), files[k].schemas);
    }
  }

  /** `event(i)` is the bytes of event `i`, counted through all files, and there is none past the last. */
  lemma PlainEvent(files: seq<PlainFile>, spans: Spans, i: nat, r: Option<EventValue>)
    requires Indexed(ChainOf(files), spans) && Answers(ChainOf(files), spans, i, r)
    ensures
      var all := AllEventsOf(files, 0);
      r == if i < |all| then Some(BlobEvent(all[i])) else None
  {
    hide Indexed, Answers, EventsRun;
    AllPlainDecode(files);
    EventIsElementOfStream(ChainOf(files), spans, i, r);
    PlainEvents(files, None, None, 0);
    NothingAsked(files, 0);
  }

  lemma AllPlainDecode(files: seq<PlainFile>)
    ensures AllDecode(ChainOf(files))
  {
    forall fi, ri | 0 <= fi < |files| && 0 <= ri < |ChainOf(files)[fi].records|
      ensures ChainOf(files)[fi].records[ri].stored.Decoded?
    {
      StoreAllOk(files[fi].records);
    }
  }

  /** The call as code: whatever other threads leave in the slot, it hands out those bytes. */
  method EventBytes(cache: RecordCache, ghost files: seq<PlainFile>, i: nat, others: Option<Slot>)
    returns (r: Option<EventValue>)
    requires cache.Valid() && cache.files == ChainOf(files) && SlotOk(cache.files, cache.spans, others)
    modifies cache`slot
    ensures cache.Valid()
    ensures i < |AllEventsOf(files, 0)| ==> r == Some(BlobEvent(AllEventsOf(files, 0)[i]))
    ensures i >= |AllEventsOf(files, 0)| ==> r == None
  {
    hide Answers, SlotOk, Indexed;
    r := cache.Event(i, others);
    CacheIndexed(cache);
    PlainEvent(files, cache.spans, i, r);
  }

  lemma CacheIndexed(cache: RecordCache)
    requires cache.Valid()
    ensures Indexed(cache.files, cache.spans)
  {
  }

  // ---- A run of `next` --------------------------------------------------------------

  lemma {:induction false} KeepAllOf(evs: seq<seq<byte>>, keep: set<nat>)
    requires forall k: nat :: k < |evs| ==> k in keep
    ensures |KeptOf(Items(evs), keep)| == |evs|
    ensures forall k :: 0 <= k < |evs| ==> KeptOf(Items(evs), keep)[k] == BlobEvent(evs[k])
  {
    if evs != [] {
      var n := |evs| - 1;
      KeepAllOf(evs[..n], keep);
      assert Items(evs)[..n] == Items(evs[..n]);
    }
  }

  function FirstNumbers(n: nat): (r: set<nat>)
    ensures forall k: nat :: k in r <==> k < n
  {
    if n == 0 then {} else FirstNumbers(n - 1) + {n - 1}
  }

  /** What the caller reads through a slice. */
  ghost predicate Reads(ev: OwnedEvent, bytes: seq<byte>, buffers: set<object>)
    reads buffers
  {
    && ev.Slice? && ev.arc.vec in buffers
    && ev.start <= ev.end <= |ev.arc.vec.data| && ev.arc.vec.data[ev.start..ev.end] == bytes
  }

  lemma ShownIsRead(ev: OwnedEvent, bytes: seq<byte>, buffers: set<object>)
    requires Shows(ev, BlobEvent(bytes)) && (ev.Slice? ==> ev.arc.vec in buffers)
    ensures Reads(ev, bytes, buffers)
  {
  }

  /** How many events the records hold, asked for or not. */
  function CountAll(records: seq<StoredRecord>): (n: nat)
  {
    if records == [] then 0
    else (if records[0].stored.Decoded? then records[0].stored.content.Count() else 0) + CountAll(records[1..])
  }

  lemma {:induction false} OfTagsCount(ps: seq<Plain>, tags: Option<seq<nat>>)
    ensures |OfTags(ps, tags)| <= CountAll(StoreAll(ps))
  {
    hide Whole;
    if ps != [] {
      OfTagsCount(ps[1..], tags);
      WholeIsValid(ps[0].front, ps[0].events, ps[0].rest);
      assert StoreAll(ps)[1..] == StoreAll(ps[1..]);
    }
  }

  /** Reading a whole file of such records and keeping every event: one slice for every event asked for, in
      order, each reading as that event's own bytes. */
  method ReadFile(records: seq<StoredRecord>, ghost ps: seq<Plain>, c: Option<Clauses>, schemas: seq<Schema>,
      tags: Option<seq<nat>>)
    returns (kept: seq<OwnedEvent>, it: EventIter)
    requires records == StoreAll(ps)
    ensures fresh(it) && it.Valid()
    ensures |kept| == |Wanted(OfTags(ps, tags), c, schemas)|
    ensures forall k :: 0 <= k < |kept| ==> Reads(kept[k], Wanted(OfTags(ps, tags), c, schemas)[k], it.repr)
  {
    hide EventIter.Valid, EventIter.Pending, Wanted, KeptOf, FileRun, Shows, Reads, StoreAll, RecordsOk, Items, OfTags;
    StoreAllOk(ps);
    it := new EventIter(records, c, schemas, tags);
    ghost var evs := Wanted(OfTags(ps, tags), c, schemas);
    PlainRun(ps, c, schemas, tags);
    assert it.Pending() == Items(evs) by {
      assert it.filter == Binding(c, schemas);
    }
    OfTagsCount(ps, tags);
    var keep := FirstNumbers(CountAll(records));
    var count: nat, failed: bool;
    kept, count, failed := Consume(it, keep);
    KeepAllOf(evs, keep);
    forall k | 0 <= k < |kept|
      ensures Reads(kept[k], evs[k], it.repr)
    {
      ShownIsRead(kept[k], evs[k], it.repr);
    }
  }
}
