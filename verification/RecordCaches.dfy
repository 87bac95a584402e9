/** Random access by event number through one shared, racing record cache
    (`Chain::event`, src/read/chain.rs). The files do not change. */
module RecordCaches {
  import opened Bytes
  import opened EventIndexes
  import opened ChainIndexes
  import opened EventIters
  import opened ChainScans
  import opened RangeScans

  // ---- What a call should answer ------------------------------------------

  /** Event `i` of the chain is event `e` of record `t`, and `t` decodes. */
  ghost predicate Readable(files: seq<ChainFile>, spans: Spans, i: nat, t: (nat, nat), e: nat)
    requires Indexed(files, spans)
  {
    IsAt(spans, i, t, e) && StoredAt(files, t).Decoded?
  }

  /** The event itself, or `None` when there is no such event or its record does not decode. */
  ghost predicate Answers(files: seq<ChainFile>, spans: Spans, i: nat, r: Option<EventValue>)
    requires Indexed(files, spans)
  {
    match r
    case None => forall t, e :: !Readable(files, spans, i, t, e)
    case Some(ev) => exists t, e :: Readable(files, spans, i, t, e) && ev == ValueAt(files, spans, t, e)
  }

  ghost function ValueAt(files: seq<ChainFile>, spans: Spans, t: (nat, nat), e: nat): EventValue
    requires Indexed(files, spans) && IsRecord(spans, t) && e < spans[t.0][t.1].eventCount
    requires StoredAt(files, t).Decoded?
  {
    IndexedRecord(files, spans, t);
    EventAt(StoredAt(files, t).content, e)
  }

  // ---- One call in its steps ----------------------------------------------

  datatype Slot = Slot(task: (nat, nat), content: Content)

  /** Where a call stands: only `Looking` and `Read` touch the slot, each under the lock. */
  datatype Phase =
    | Asking
    | Looking(task: (nat, nat), e: nat)
    | Missed(task: (nat, nat), e: nat)
    | Read(task: (nat, nat), e: nat, content: Content)
    | Holding(task: (nat, nat), e: nat, content: Content)
    | Answered(r: Option<EventValue>)

  datatype Call = Call(i: nat, phase: Phase)

  datatype System = System(slot: Option<Slot>, calls: seq<Call>)

  /** One step of call `k`; every other call may be anywhere. */
  ghost predicate Step(files: seq<ChainFile>, spans: Spans, s: System, k: nat, next: System)
    requires Indexed(files, spans)
  {
    && k < |s.calls| && |next.calls| == |s.calls|
    && next.calls == s.calls[k := Call(s.calls[k].i, next.calls[k].phase)]
    && var i, now := s.calls[k].i, next.calls[k].phase;
    match s.calls[k].phase
    case Asking =>
      && next.slot == s.slot
      && if i >= ChainTotal(spans) then now == Answered(None)
         else now.Looking? && IsAt(spans, i, now.task, now.e)
    case Looking(t, e) =>
      && next.slot == s.slot
      && now == if s.slot.Some? && s.slot.value.task == t then Holding(t, e, s.slot.value.content) else Missed(t, e)
    case Missed(t, e) =>
      && next.slot == s.slot && IsRecord(spans, t)
      && now == (match StoredAt(files, t) case Decoded(c) => Read(t, e, c) case _ => Answered(None))
    case Read(t, e, c) =>
      && next.slot == Some(Slot(t, c))
      && now == Holding(t, e, c)
    case Holding(t, e, c) =>
      && next.slot == s.slot
      && now == Answered(if c.Valid() && e < c.Count() then Some(EventAt(c, e)) else None)
    case Answered(_) => false
  }

  ghost predicate Initial(s: System)
  {
    s.slot.None? && forall k :: 0 <= k < |s.calls| ==> s.calls[k].phase.Asking?
  }

  ghost predicate Moves(files: seq<ChainFile>, spans: Spans, s: System, next: System)
    requires Indexed(files, spans)
  {
    exists k: nat :: Step(files, spans, s, k, next)
  }

  /** A run: every step belongs to some call. */
  ghost predicate IsRun(files: seq<ChainFile>, spans: Spans, run: seq<System>)
    requires Indexed(files, spans)
  {
    && run != [] && Initial(run[0])
    && forall n :: 0 <= n < |run| - 1 ==> Moves(files, spans, run[n], run[n + 1])
  }

  // ---- The invariant ------------------------------------------------------

  /** Whatever the slot or a call carries for a record is that record's content. */
  ghost predicate Genuine(files: seq<ChainFile>, spans: Spans, t: (nat, nat), c: Content)
    requires Indexed(files, spans)
  {
    IsRecord(spans, t) && StoredAt(files, t) == Decoded(c)
  }

  ghost predicate SlotOk(files: seq<ChainFile>, spans: Spans, slot: Option<Slot>)
    requires Indexed(files, spans)
  {
    slot.Some? ==> Genuine(files, spans, slot.value.task, slot.value.content)
  }

  ghost predicate CallOk(files: seq<ChainFile>, spans: Spans, c: Call)
    requires Indexed(files, spans)
  {
    match c.phase
    case Asking => true
    case Looking(t, e) => IsAt(spans, c.i, t, e)
    case Missed(t, e) => IsAt(spans, c.i, t, e)
    case Read(t, e, content) => IsAt(spans, c.i, t, e) && Genuine(files, spans, t, content)
    case Holding(t, e, content) => IsAt(spans, c.i, t, e) && Genuine(files, spans, t, content)
    case Answered(r) => Answers(files, spans, c.i, r)
  }

  ghost predicate SystemOk(files: seq<ChainFile>, spans: Spans, s: System)
    requires Indexed(files, spans)
  {
    SlotOk(files, spans, s.slot) && forall k :: 0 <= k < |s.calls| ==> CallOk(files, spans, s.calls[k])
  }

  /** Past the end nothing is readable; before it exactly one place is. */
  lemma PlaceDecides(files: seq<ChainFile>, spans: Spans, i: nat)
    requires Indexed(files, spans)
    ensures i >= ChainTotal(spans) ==> Answers(files, spans, i, None)
    ensures forall t, e :: IsAt(spans, i, t, e) ==>
      Answers(files, spans, i, if StoredAt(files, t).Decoded? then Some(ValueAt(files, spans, t, e)) else None)
  {
    hide Base, ValueAt, Start, RecordsOk, Describes, FilesOk, IndexesOk;
    IndexedMeans(files, spans);
    forall t, e | IsAt(spans, i, t, e)
      ensures i < ChainTotal(spans)
    {
      PlaceBelowTotal(spans, i, t, e);
    }
    forall t, e | IsAt(spans, i, t, e)
      ensures Answers(files, spans, i, if StoredAt(files, t).Decoded? then Some(ValueAt(files, spans, t, e)) else None)
    {
      if StoredAt(files, t).Decoded? {
        assert Readable(files, spans, i, t, e);
      } else {
        forall u, d | IsAt(spans, i, u, d)
          ensures u == t
        {
          SamePlace(files, spans, i, t, e, u, d);
        }
      }
    }
  }

  lemma IndexedMeans(files: seq<ChainFile>, spans: Spans)
    requires Indexed(files, spans)
    ensures IndexesOk(spans) && |files| == |spans|
    ensures forall t: (nat, nat) :: IsRecord(spans, t) ==> t.1 < |files[t.0].records|
  {
    forall t: (nat, nat) | IsRecord(spans, t)
      ensures t.1 < |files[t.0].records|
    {
      assert Describes(spans[t.0], files[t.0].records);
    }
  }

  lemma PlaceBelowTotal(spans: Spans, i: nat, t: (nat, nat), e: nat)
    requires IndexesOk(spans) && IsAt(spans, i, t, e)
    ensures i < ChainTotal(spans)
  {
    RecordsInOrder(spans, t, t);
  }

  lemma SamePlace(files: seq<ChainFile>, spans: Spans, i: nat, t: (nat, nat), e: nat, u: (nat, nat), d: nat)
    requires Indexed(files, spans) && IsAt(spans, i, t, e) && IsAt(spans, i, u, d)
    ensures t == u && e == d
  {
    OneRecord(spans, i, t, e, u, d);
  }

  lemma StepKeeps(files: seq<ChainFile>, spans: Spans, s: System, k: nat, next: System)
    requires Indexed(files, spans) && SystemOk(files, spans, s) && Step(files, spans, s, k, next)
    ensures SystemOk(files, spans, next)
  {
    hide Base, Start, Answers, Content.Valid, EventAt, RecordsOk, Describes, FilesOk, IndexesOk;
    IndexedMeans(files, spans);
    PlaceDecides(files, spans, s.calls[k].i);
    assert CallOk(files, spans, s.calls[k]);
    match s.calls[k].phase {
      case Holding(t, e, c) =>
        IndexedRecord(files, spans, t);
      case _ =>
    }
    assert CallOk(files, spans, next.calls[k]);
  }

  /** Whatever the interleaving, every finished call has answered as it should. */
  lemma {:induction false} EveryCallAnswers(files: seq<ChainFile>, spans: Spans, run: seq<System>, n: nat)
    requires Indexed(files, spans) && IsRun(files, spans, run) && n < |run|
    ensures SystemOk(files, spans, run[n])
    ensures forall k :: 0 <= k < |run[n].calls| && run[n].calls[k].phase.Answered? ==>
      Answers(files, spans, run[n].calls[k].i, run[n].calls[k].phase.r)
  {
    hide Step, Indexed, Answers;
    if n > 0 {
      EveryCallAnswers(files, spans, run, n - 1);
      assert Moves(files, spans, run[n - 1], run[n - 1 + 1]);
      var k: nat :| Step(files, spans, run[n - 1], k, run[n]);
      StepKeeps(files, spans, run[n - 1], k, run[n]);
    }
    assert forall k :: 0 <= k < |run[n].calls| ==> CallOk(files, spans, run[n].calls[k]);
  }

  /** No call ever waits on another: one that has not answered can always step. */
  lemma CallsNeverWait(files: seq<ChainFile>, spans: Spans, s: System, k: nat)
    requires Indexed(files, spans) && SystemOk(files, spans, s) && k < |s.calls|
    ensures !s.calls[k].phase.Answered? ==> exists next :: Step(files, spans, s, k, next)
  {
    hide Base, Start, Answers, Content.Valid, EventAt, RecordsOk, Describes, FilesOk;
    IndexedMeans(files, spans);
    var i := s.calls[k].i;
    assert CallOk(files, spans, s.calls[k]);
    match s.calls[k].phase {
      case Asking =>
        if i >= ChainTotal(spans) {
          CanStep(files, spans, s, k, s.slot, Answered(None));
        } else {
          var t, e := PlaceOf(spans, i);
          CanStep(files, spans, s, k, s.slot, Looking(t, e));
        }
      case Looking(t, e) =>
        CanStep(files, spans, s, k, s.slot,
                if s.slot.Some? && s.slot.value.task == t then Holding(t, e, s.slot.value.content) else Missed(t, e));
      case Missed(t, e) =>
        CanStep(files, spans, s, k, s.slot, match StoredAt(files, t) case Decoded(c) => Read(t, e, c) case _ => Answered(None));
      case Read(t, e, c) =>
        CanStep(files, spans, s, k, Some(Slot(t, c)), Holding(t, e, c));
      case Holding(t, e, c) =>
        CanStep(files, spans, s, k, s.slot, Answered(if c.Valid() && e < c.Count() then Some(EventAt(c, e)) else None));
      case Answered(_) =>
    }
  }

  lemma CanStep(files: seq<ChainFile>, spans: Spans, s: System, k: nat, slot: Option<Slot>, phase: Phase)
    requires Indexed(files, spans) && k < |s.calls|
    requires Step(files, spans, s, k, System(slot, s.calls[k := Call(s.calls[k].i, phase)]))
    ensures exists next :: Step(files, spans, s, k, next)
  {
  }

  /** Every event number below the total has its place. */
  lemma {:induction false} PlaceInFile(records: seq<RecordSpan>, local: nat) returns (ri: nat)
    requires Chained(records) && local < Total(records)
    ensures ri < |records| && records[ri].firstEvent <= local < records[ri].firstEvent + records[ri].eventCount
  {
    var n := |records| - 1;
    assert records == records[..n] + [records[n]];
    TotalSnoc(records[..n], records[n]);
    if local < Total(records[..n]) {
      ri := PlaceInFile(records[..n], local);
    } else {
      ri := n;
    }
  }

  lemma PlaceOf(spans: Spans, i: nat) returns (t: (nat, nat), e: nat)
    requires IndexesOk(spans) && i < ChainTotal(spans)
    ensures IsAt(spans, i, t, e)
  {
    hide Base;
    var fi := FileOf(spans, i, |spans|);
    var ri := PlaceInFile(spans[fi], i - Base(spans, fi));
    t, e := (fi, ri), i - Base(spans, fi) - spans[fi][ri].firstEvent;
  }

  lemma {:induction false} FileOf(spans: Spans, i: nat, n: nat) returns (fi: nat)
    requires n <= |spans| && i < Base(spans, n)
    ensures fi < n && Base(spans, fi) <= i < Base(spans, fi) + Total(spans[fi])
  {
    hide Base;
    BaseNothing(spans);
    BaseStep(spans, n - 1);
    if i < Base(spans, n - 1) {
      fi := FileOf(spans, i, n - 1);
    } else {
      fi := n - 1;
    }
  }

  // ---- Random access and the sequential reader ------------------------------

  ghost predicate AllDecode(files: seq<ChainFile>)
  {
    forall fi, ri :: 0 <= fi < |files| && 0 <= ri < |files[fi].records| ==> files[fi].records[ri].stored.Decoded?
  }

  function RecordRuns(records: seq<StoredRecord>): (r: seq<seq<Item>>)
    requires RecordsOk(records)
    ensures |r| == |records|
  {
    seq(|records|, ri requires 0 <= ri < |records| => TaskRun(records[ri].stored, None))
  }

  function FileRuns(files: seq<ChainFile>): (r: seq<seq<Item>>)
    requires FilesOk(files)
    ensures |r| == |files|
  {
    seq(|files|, fi requires 0 <= fi < |files| => FileRun(files[fi].records, None, None, 0))
  }

  lemma {:induction false} FileRunIsFlat(records: seq<StoredRecord>, k: nat)
    requires RecordsOk(records) && k <= |records| && forall ri :: 0 <= ri < |records| ==> records[ri].stored.Decoded?
    ensures FileRun(records, None, None, k) == Flatten(RecordRuns(records)[k..])
    decreases |records| - k
  {
    hide Survivors;
    if k < |records| {
      FileRunIsFlat(records, k + 1);
      assert RecordRuns(records)[k..][1..] == RecordRuns(records)[k + 1..];
    }
  }

  lemma {:induction false} EventsRunIsFlat(files: seq<ChainFile>, k: nat)
    requires FilesOk(files) && AllDecode(files) && k <= |files|
    ensures EventsRun(files, None, None, k) == Flatten(FileRuns(files)[k..])
    decreases |files| - k
  {
    hide FileRun;
    if k < |files| {
      EventsRunIsFlat(files, k + 1);
      assert FileRuns(files)[k..][1..] == FileRuns(files)[k + 1..];
      NoFailure(files[k].records, 0);
    }
  }

  lemma {:induction false} NoFailure(records: seq<StoredRecord>, k: nat)
    requires RecordsOk(records) && forall ri :: 0 <= ri < |records| ==> records[ri].stored.Decoded?
    ensures AllEvents(FileRun(records, None, None, k))
    decreases |records| - k
  {
    hide Survivors;
    if k < |records| {
      NoFailure(records, k + 1);
      SurvivorsAreEvents(records[k].stored.content, None, 0);
    }
  }

  lemma FileLengths(file: ChainFile, spans: seq<RecordSpan>)
    requires RecordsOk(file.records) && Describes(spans, file.records)
    requires forall ri :: 0 <= ri < |file.records| ==> file.records[ri].stored.Decoded?
    ensures Lengths(RecordRuns(file.records)) == Counts(spans)
    ensures |FileRun(file.records, None, None, 0)| == Total(spans)
    ensures FileRun(file.records, None, None, 0) == Flatten(RecordRuns(file.records))
  {
    hide Survivors, Content.Valid, FileRun;
    forall ri | 0 <= ri < |spans|
      ensures |RecordRuns(file.records)[ri]| == spans[ri].eventCount
    {
      SurvivorsAll(file.records[ri].stored.content, 0);
    }
    FileRunIsFlat(file.records, 0);
    assert RecordRuns(file.records)[0..] == RecordRuns(file.records);
    FlattenLength(RecordRuns(file.records));
  }

  lemma ChainLengths(files: seq<ChainFile>, spans: Spans)
    requires Indexed(files, spans) && AllDecode(files)
    ensures Lengths(FileRuns(files)) == Totals(spans)
    ensures |EventsRun(files, None, None, 0)| == ChainTotal(spans)
    ensures EventsRun(files, None, None, 0) == Flatten(FileRuns(files))
  {
    hide EventsRun, FileRun, Flatten, Sum, Total;
    forall fi | 0 <= fi < |files|
      ensures |FileRuns(files)[fi]| == Total(spans[fi])
    {
      FileLengths(files[fi], spans[fi]);
    }
    EventsRunIsFlat(files, 0);
    assert FileRuns(files)[0..] == FileRuns(files);
    FlattenLength(FileRuns(files));
    assert Totals(spans)[..|spans|] == Totals(spans);
  }

  /** `event(i)` is element `i` of the unfiltered `events()` stream, and there is one exactly
      below the total: both readers number the same events, empty files and records included. */
  lemma EventIsElementOfStream(files: seq<ChainFile>, spans: Spans, i: nat, r: Option<EventValue>)
    requires Indexed(files, spans) && AllDecode(files) && Answers(files, spans, i, r)
    ensures
      var stream := EventsRun(files, None, None, 0);
      && (r.Some? <==> i < |stream|)
      && (r.Some? ==> stream[i] == Event(r.value))
  {
    hide EventsRun, FileRun, Flatten, Base, Total, Chained, Start, ValueAt, Indexed;
    ChainLengths(files, spans);
    if i < ChainTotal(spans) {
      IndexedMeans(files, spans);
      var t, e := PlaceOf(spans, i);
      assert Readable(files, spans, i, t, e);
    }
    if r.Some? {
      var t, e :| Readable(files, spans, i, t, e) && r.value == ValueAt(files, spans, t, e);
      StreamAt(files, spans, i, t, e);
    }
  }

  lemma StreamAt(files: seq<ChainFile>, spans: Spans, i: nat, t: (nat, nat), e: nat)
    requires Indexed(files, spans) && AllDecode(files) && Readable(files, spans, i, t, e)
    ensures i < |EventsRun(files, None, None, 0)|
    ensures EventsRun(files, None, None, 0)[i] == Event(ValueAt(files, spans, t, e))
  {
    hide EventsRun, FileRun, Flatten, Survivors, Total, EventAt, Content.Valid;
    ChainLengths(files, spans);
    FileLengths(files[t.0], spans[t.0]);
    IndexedRecord(files, spans, t);
    FlattenSlice(FileRuns(files), t.0);
    FlattenSlice(RecordRuns(files[t.0].records), t.1);
    SurvivorsAll(StoredAt(files, t).content, 0);
    var run, own := EventsRun(files, None, None, 0), FileRuns(files)[t.0];
    var at, first := Base(spans, t.0), spans[t.0][t.1].firstEvent;
    assert run[at..at + |own|] == own;
    assert own[first..first + spans[t.0][t.1].eventCount] == Survivors(StoredAt(files, t).content, None, 0);
    assert own[first..first + spans[t.0][t.1].eventCount][e] == own[first + e];
    assert run[at..at + |own|][first + e] == run[i];
  }

  // ---- The call as code ---------------------------------------------------

  /** The shared slot. Between a call's two critical sections other calls may leave anything
      genuine in it. */
  class RecordCache {
    const files: seq<ChainFile>
    const spans: Spans
    const offsets: seq<nat>
    var slot: Option<Slot>

    ghost predicate Valid()
      reads this
    {
      Indexed(files, spans) && IsOffsets(spans, offsets) && SlotOk(files, spans, slot)
    }

    constructor (files: seq<ChainFile>, spans: Spans, offsets: seq<nat>)
      requires Indexed(files, spans) && IsOffsets(spans, offsets)
      ensures Valid() && slot == None && this.files == files && this.spans == spans
    {
      this.files, this.spans, this.offsets, slot := files, spans, offsets, None;
    }

    /** Other threads run. */
    method Interfere(left: Option<Slot>)
      requires Valid() && SlotOk(files, spans, left)
      modifies this`slot
      ensures Valid()
    {
      slot := left;
    }

    /** `event`: whatever the other threads leave in the slot, the answer is the same. */
    method Event(i: nat, others: Option<Slot>) returns (r: Option<EventValue>)
      requires Valid() && SlotOk(files, spans, others)
      modifies this`slot
      ensures Valid() && Answers(files, spans, i, r)
    {
      hide Indexed, Answers, Start, Base, Content.Valid, EventAt;
      IndexedMeans(files, spans);
      PlaceDecides(files, spans, i);
      var place := LocateInChain(spans, offsets, i);
      if place.None? {
        return None;
      }
      var (t, e) := place.value;
      var hot := slot;
      Interfere(others);
      var content: Content;
      if hot.Some? && hot.value.task == t {
        content := hot.value.content;
      } else {
        if !StoredAt(files, t).Decoded? {
          return None;
        }
        content := StoredAt(files, t).content;
        slot := Some(Slot(t, content));
      }
      IndexedRecord(files, spans, t);
      if e >= content.Count() {
        return None;
      }
      r := Some(EventAt(content, e));
    }
  }
}
