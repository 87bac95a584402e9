/** The sequential reader: one file's event iterator with its recycled buffers, and the chain
    iterator over files (src/read/iter.rs, src/read/chain.rs). */
module EventIters {
  import opened Bytes
  import opened Records
  import opened Schemas
  import opened Reassembly
  import opened Filters

  // ---- What a file holds --------------------------------------------------

  /** A decoded record. A blob's events lie in its payload between consecutive offsets. */
  datatype Content =
    | Blob(payload: seq<byte>, offsets: seq<nat>, dataStart: nat)
    | OfSplit(split: Split)
  {
    /** What a successful decode guarantees (src/wire/record.rs). */
    ghost predicate Valid()
    {
      match this
      case Blob(payload, offsets, dataStart) =>
        && |offsets| >= 1
        && (forall i, j :: 0 <= i <= j < |offsets| ==> offsets[i] <= offsets[j])
        && dataStart + offsets[|offsets| - 1] <= |payload|
      case OfSplit(split) => split.Valid() && split.Dir().Valid()
    }

    function Count(): nat
    {
      match this
      case Blob(_, offsets, _) => Max(|offsets| - 1, 0)
      case OfSplit(split) => split.Dir().Events()
    }
  }

  /** What reading a record gives. A blob that fails to decode has scribbled on its buffer. */
  datatype Stored =
    | Unreadable
    | BadSplit
    | BadBlob(scribble: seq<byte>)
    | Decoded(content: Content)

  /** A record as the reader meets it: its user word when the header parses, and its body. */
  datatype StoredRecord = StoredRecord(userWord: Option<nat>, stored: Stored)

  /** An event by value: its bytes, or its place in a split record. */
  datatype EventValue = BlobEvent(bytes: seq<byte>) | SplitEvent(split: Split, e: nat)

  datatype Item = Event(value: EventValue) | Failure

  function EventAt(c: Content, i: nat): (ev: EventValue)
    requires c.Valid() && i < c.Count()
    ensures ev.SplitEvent? ==> ev.split.Dir().Valid() && ev.e < ev.split.Dir().Events()
  {
    match c
    case Blob(payload, offsets, dataStart) => BlobEvent(payload[dataStart + offsets[i]..dataStart + offsets[i + 1]])
    case OfSplit(split) => SplitEvent(split, i)
  }

  predicate Passes(f: Option<Bound>, ev: EventValue)
    requires ev.SplitEvent? ==> ev.split.Dir().Valid() && ev.e < ev.split.Dir().Events()
  {
    match f
    case None => true
    case Some(b) =>
      match ev
      case BlobEvent(bytes) => Check(b, bytes)
      case SplitEvent(split, e) => CheckDirectory(b, split.Dir(), e)
  }

  // ---- What a run should yield --------------------------------------------

  /** The surviving events of a record from event `i` on. */
  function Survivors(c: Content, f: Option<Bound>, i: nat): (items: seq<Item>)
    requires c.Valid()
    decreases c.Count() - i
  {
    if i >= c.Count() then []
    else (if Passes(f, EventAt(c, i)) then [Event(EventAt(c, i))] else []) + Survivors(c, f, i + 1)
  }

  ghost predicate RecordsOk(records: seq<StoredRecord>)
  {
    forall k :: 0 <= k < |records| && records[k].stored.Decoded? ==> records[k].stored.content.Valid()
  }

  /** The file from record `k` on: records whose user word is not asked for are skipped unread,
      the first one that cannot be read ends the run. */
  function FileRun(records: seq<StoredRecord>, f: Option<Bound>, tags: Option<seq<nat>>, k: nat): (items: seq<Item>)
    requires RecordsOk(records)
    decreases |records| - k
  {
    if k >= |records| then []
    else
      var r := records[k];
      if tags.Some? && r.userWord.None? then [Failure]
      else if tags.Some? && r.userWord.value !in tags.value then FileRun(records, f, tags, k + 1)
      else if !r.stored.Decoded? then [Failure]
      else Survivors(r.stored.content, f, 0) + FileRun(records, f, tags, k + 1)
  }

  /** What is left of a run inside record `c`, before event `i`, with record `k` to follow. */
  function Rest(c: Content, f: Option<Bound>, i: nat, after: seq<Item>): (items: seq<Item>)
    requires c.Valid()
  {
    Survivors(c, f, i) + after
  }

  lemma RestStep(c: Content, f: Option<Bound>, i: nat, after: seq<Item>)
    requires c.Valid() && i < c.Count()
    ensures !Passes(f, EventAt(c, i)) ==> Rest(c, f, i, after) == Rest(c, f, i + 1, after)
    ensures Passes(f, EventAt(c, i)) ==>
      && Rest(c, f, i, after) != [] && Rest(c, f, i, after)[0] == Event(EventAt(c, i))
      && Rest(c, f, i, after)[1..] == Rest(c, f, i + 1, after)
  {
    hide Passes, EventAt;
    var here, later := Event(EventAt(c, i)), Survivors(c, f, i + 1);
    if Passes(f, EventAt(c, i)) {
      assert [here] + later + after == [here] + (later + after);
    }
  }

  predicate AllEvents(items: seq<Item>)
  {
    forall k :: 0 <= k < |items| ==> items[k].Event?
  }

  lemma {:induction false} SurvivorsAreEvents(c: Content, f: Option<Bound>, i: nat)
    requires c.Valid()
    ensures AllEvents(Survivors(c, f, i))
    decreases c.Count() - i
  {
    if i < c.Count() {
      SurvivorsAreEvents(c, f, i + 1);
    }
  }

  /** Unfiltered, a record yields every event from `i` on. */
  lemma {:induction false} SurvivorsAll(c: Content, i: nat)
    requires c.Valid() && i <= c.Count()
    ensures |Survivors(c, None, i)| == c.Count() - i
    ensures forall k :: 0 <= k < c.Count() - i ==> Survivors(c, None, i)[k] == Event(EventAt(c, i + k))
    decreases c.Count() - i
  {
    hide EventAt, Content.Valid;
    if i < c.Count() {
      SurvivorsAll(c, i + 1);
      assert Survivors(c, None, i) == [Event(EventAt(c, i))] + Survivors(c, None, i + 1);
    }
  }

  lemma EventsThen(own: seq<Item>, rest: seq<Item>)
    requires AllEvents(own)
    requires rest != [] ==> AllEvents(rest[..|rest| - 1])
    ensures own + rest != [] ==> AllEvents((own + rest)[..|own + rest| - 1])
  {
    if rest != [] {
      assert (own + rest)[..|own + rest| - 1] == own + rest[..|rest| - 1];
    }
  }

  /** A run fails at most once, and nothing follows the failure. */
  lemma {:induction false} FailureIsLast(records: seq<StoredRecord>, f: Option<Bound>, tags: Option<seq<nat>>, k: nat)
    requires RecordsOk(records)
    ensures
      var run := FileRun(records, f, tags, k);
      run != [] ==> AllEvents(run[..|run| - 1])
    decreases |records| - k
  {
    hide Survivors, Content.Valid;
    if k < |records| {
      FailureIsLast(records, f, tags, k + 1);
      if records[k].stored.Decoded? {
        SurvivorsAreEvents(records[k].stored.content, f, 0);
        EventsThen(Survivors(records[k].stored.content, f, 0), FileRun(records, f, tags, k + 1));
      }
    }
  }

  // ---- Buffers ------------------------------------------------------------

  /** The allocation behind a `Vec<u8>`. */
  class Vec {
    var data: seq<byte>

    constructor (data: seq<byte>)
      ensures this.data == data
    {
      this.data := data;
    }
  }

  /** A shared payload: the allocation and its strong count. */
  class Arc {
    const vec: Vec
    var strong: nat

    constructor (vec: Vec)
      ensures this.vec == vec && strong == 1
    {
      this.vec := vec;
      strong := 1;
    }
  }

  /** An event handed to the caller. A slice keeps its payload alive. */
  datatype OwnedEvent = Slice(arc: Arc, start: nat, end: nat) | FromSplit(split: Split, e: nat)

  datatype Current =
    | NoRecord
    | BytesRecord(arc: Arc, offsets: seq<nat>, dataStart: nat)
    | SplitRecord(split: Split)

  datatype Advanced = Loaded | AtEnd | Corrupt

  datatype Step = Yielded(event: OwnedEvent) | Failed | Done

  /** What the caller reads through an event right now. */
  ghost predicate Shows(ev: OwnedEvent, value: EventValue)
    reads if ev.Slice? then {ev.arc.vec} else {}
  {
    match ev
    case Slice(arc, start, end) => start <= end <= |arc.vec.data| && value == BlobEvent(arc.vec.data[start..end])
    case FromSplit(split, e) => value == SplitEvent(split, e)
  }

  ghost predicate IsHead(ev: OwnedEvent, items: seq<Item>)
    reads if ev.Slice? then {ev.arc.vec} else {}
  {
    items != [] && items[0].Event? && Shows(ev, items[0].value)
  }

  /** The handles a list of events keeps on payloads. */
  ghost function Handles(events: seq<OwnedEvent>): (r: multiset<Arc>)
  {
    if events == [] then multiset{}
    else Handles(events[..|events| - 1]) + HandleOf(events[|events| - 1])
  }

  ghost function HandleOf(ev: OwnedEvent): multiset<Arc>
  {
    if ev.Slice? then multiset{ev.arc} else multiset{}
  }

  lemma {:induction false} HandlesCover(events: seq<OwnedEvent>, k: nat)
    requires k < |events| && events[k].Slice?
    ensures events[k].arc in Handles(events)
  {
    if k < |events| - 1 {
      HandlesCover(events[..|events| - 1], k);
    }
  }

  ghost predicate AllIn(arcs: set<Arc>, repr: set<object>)
  {
    forall a :: a in arcs ==> a in repr && a.vec in repr
  }

  /** A payload's strong count is the handles on it: the callers' and the iterator's own. */
  ghost predicate SharesCounted(arcs: set<Arc>, held: multiset<Arc>, own: set<Arc>)
    reads arcs
  {
    && (forall a :: a in held ==> a in arcs)
    && (forall a :: a in arcs ==> a.strong == held[a] + if a in own then 1 else 0)
  }

  ghost predicate AllApart(arcs: set<Arc>, spare: Vec)
  {
    && (forall a :: a in arcs ==> a.vec != spare)
    && (forall a, b :: a in arcs && b in arcs && a != b ==> a.vec != b.vec)
  }

  /** Taking one payload away leaves its allocation to nobody. */
  lemma OneLess(arcs: set<Arc>, spare: Vec, arc: Arc)
    requires AllApart(arcs, spare) && arc in arcs
    ensures AllApart(arcs - {arc}, spare)
    ensures arc.vec != spare && forall a :: a in arcs - {arc} ==> a.vec != arc.vec
  {
  }

  lemma OneMore(arcs: set<Arc>, spare: Vec, arc: Arc)
    requires AllApart(arcs, spare) && arc.vec != spare && forall a :: a in arcs ==> a.vec != arc.vec
    ensures AllApart(arcs + {arc}, spare)
  {
  }

  class EventIter {
    const records: seq<StoredRecord>
    const filter: Option<Bound>
    const tags: Option<seq<nat>>
    var cur: Current
    var offsetsScratch: seq<nat>
    var nextRecord: nat
    var nextEvent: nat
    var scratch: Vec
    var finished: bool

    /** The payload handles callers hold, and every payload alive. */
    ghost var held: multiset<Arc>
    ghost var arcs: set<Arc>
    ghost var repr: set<object>

    ghost function Own(): set<Arc>
      reads this`cur
    {
      if cur.BytesRecord? then {cur.arc} else {}
    }

    /** Strong counts are exact. */
    ghost predicate CountsOk()
      reads this`held, this`arcs, this`cur, this`repr, repr
    {
      AllIn(arcs, repr) && SharesCounted(arcs, held, Own())
    }

    /** No two live payloads share an allocation with each other or with the spare one. */
    ghost predicate Apart()
      reads this`arcs, this`scratch
    {
      AllApart(arcs, scratch)
    }

    /** The current record's content, read out of the live buffer. */
    ghost function CurrentContent(): Content
      reads this, repr
      requires cur.BytesRecord? ==> cur.arc.vec in repr
      requires !cur.NoRecord?
    {
      match cur
      case BytesRecord(arc, offsets, dataStart) => Blob(arc.vec.data, offsets, dataStart)
      case SplitRecord(split) => OfSplit(split)
    }

    ghost predicate Valid()
      reads this, repr
    {
      && RecordsOk(records)
      && this !in repr && scratch in repr
      && (cur.BytesRecord? ==> cur.arc in arcs && cur.arc.vec in repr)
      && CountsOk() && Apart()
      && nextRecord <= |records|
      && (!cur.NoRecord? ==> CurrentContent().Valid())
    }

    /** What the iterator will still yield. */
    ghost function Pending(): (items: seq<Item>)
      reads this, repr
      requires Valid()
    {
      var later := FileRun(records, filter, tags, nextRecord);
      if finished then []
      else if cur.NoRecord? then later
      else Rest(CurrentContent(), filter, nextEvent, later)
    }

    constructor (records: seq<StoredRecord>, clauses: Option<Clauses>, schemas: seq<Schema>, tags: Option<seq<nat>>)
      requires RecordsOk(records)
      ensures Valid() && fresh(repr) && held == multiset{}
      ensures this.records == records && this.tags == tags
      ensures filter == if clauses.Some? then Some(BoundTo(clauses.value, schemas)) else None
      ensures Pending() == FileRun(records, filter, tags, 0)
    {
      this.records := records;
      this.tags := tags;
      filter := if clauses.Some? then Some(BoundTo(clauses.value, schemas)) else None;
      cur, offsetsScratch := NoRecord, [];
      nextRecord, nextEvent, finished := 0, 0, false;
      scratch := new Vec([]);
      held, arcs := multiset{}, {};
      repr := {scratch};
    }

    /** `Arc::try_unwrap` of the handle just given up: the allocation, when it was the last one. */
    method Unwrap(arc: Arc) returns (v: Option<Vec>)
      requires arc in arcs && SharesCounted(arcs, held, {arc}) && AllApart(arcs, scratch)
      modifies this`arcs, arc
      ensures arcs <= old(arcs) && SharesCounted(arcs, held, {}) && AllApart(arcs, scratch)
      ensures v == if old(arc.strong) == 1 then Some(arc.vec) else None
      ensures v.Some? ==> v.value != scratch && forall a :: a in arcs ==> a.vec != v.value
    {
      hide AllApart;
      if arc.strong == 1 {
        OneLess(arcs, scratch, arc);
        arcs := arcs - {arc};
        v := Some(arc.vec);
      } else {
        arc.strong := arc.strong - 1;
        v := None;
      }
    }

    /** Gives the current record up. Its payload comes back only when no event shares it. */
    method ReleaseCurrent() returns (v: Option<Vec>)
      requires Valid()
      modifies this, arcs
      ensures Valid() && cur.NoRecord? && arcs <= old(arcs) && held == old(held) && scratch == old(scratch)
      ensures nextRecord == old(nextRecord) && finished == old(finished)
      ensures v.Some? ==> v.value != scratch && forall a :: a in arcs ==> a.vec != v.value
      ensures repr == old(repr) && (v.Some? ==> v.value in repr)
    {
      hide Content.Valid, RecordsOk, AllApart, SharesCounted;
      v := None;
      match cur {
        case BytesRecord(arc, offsets, _) =>
          offsetsScratch := [];
          v := Unwrap(arc);
        case SplitRecord(_) =>
        case NoRecord =>
      }
      cur := NoRecord;
    }

    /** A buffer for the next blob: the last payload when it is unshared, else the spare one. */
    method TakeBytesBuffers() returns (v: Vec)
      requires Valid()
      modifies this, arcs
      ensures Valid() && cur.NoRecord? && arcs <= old(arcs) && held == old(held)
      ensures nextRecord == old(nextRecord) && finished == old(finished)
      ensures v != scratch && forall a :: a in arcs ==> a.vec != v
      ensures fresh(repr - old(repr)) && v in repr && v in old(repr)
    {
      var last := ReleaseCurrent();
      match last {
        case Some(own) => v := own;
        case None =>
          v := scratch;
          scratch := new Vec([]);
          repr := repr + {scratch};
      }
    }

    /** Leaves the current record, keeping its payload as the spare buffer when it is unshared. */
    method Park()
      requires Valid()
      modifies this, repr
      ensures Valid() && cur.NoRecord? && arcs <= old(arcs) && held == old(held)
      ensures nextRecord == old(nextRecord) && finished == old(finished)
      ensures repr == old(repr) && forall v: Vec :: v in repr ==> v.data == old(v.data)
    {
      var own := ReleaseCurrent();
      if own.Some? {
        scratch := own.value;
      }
    }

    /** Wraps a private buffer as the current record's shared payload. */
    method Share(buf: Vec, offsets: seq<nat>, dataStart: nat)
      requires Valid() && cur.NoRecord? && Blob(buf.data, offsets, dataStart).Valid()
      requires buf in repr && buf != scratch && forall a :: a in arcs ==> a.vec != buf
      modifies this
      ensures Valid() && fresh(repr - old(repr))
      ensures nextRecord == old(nextRecord) && finished == old(finished) && held == old(held)
      ensures !cur.NoRecord? && CurrentContent() == Blob(buf.data, offsets, dataStart)
    {
      hide Content.Valid, RecordsOk, AllApart;
      var arc := new Arc(buf);
      OneMore(arcs, scratch, arc);
      assert arc !in arcs && arc !in held;
      arcs := arcs + {arc};
      repr := repr + {arc};
      cur := BytesRecord(arc, offsets, dataStart);
      assert CurrentContent() == Blob(buf.data, offsets, dataStart);
    }

    /** Decodes a blob into a reclaimed buffer. */
    method LoadBlob(payload: seq<byte>, offsets: seq<nat>, dataStart: nat)
      requires Valid() && Blob(payload, offsets, dataStart).Valid()
      modifies this, repr
      ensures Valid() && fresh(repr - old(repr))
      ensures nextRecord == old(nextRecord) && finished == old(finished)
      ensures held == old(held) && forall a :: a in held ==> a.vec.data == old(a.vec.data)
      ensures !cur.NoRecord? && CurrentContent() == Blob(payload, offsets, dataStart)
    {
      hide Content.Valid, RecordsOk;
      var buf := TakeBytesBuffers();
      buf.data := payload;
      Share(buf, offsets, dataStart);
    }

    /** Leaves the current record for a split one. */
    method LoadSplit(split: Split)
      requires Valid() && OfSplit(split).Valid()
      modifies this, repr
      ensures Valid() && fresh(repr - old(repr))
      ensures nextRecord == old(nextRecord) && finished == old(finished)
      ensures held == old(held) && forall a :: a in held ==> a.vec.data == old(a.vec.data)
      ensures !cur.NoRecord? && CurrentContent() == OfSplit(split)
    {
      hide Content.Valid, RecordsOk;
      Park();
      cur := SplitRecord(split);
      assert CurrentContent() == OfSplit(split);
    }

    /** A decode that fails half-way has written into the buffer it was lent. */
    method SpoilBlob(scribble: seq<byte>)
      requires Valid()
      modifies this, repr
      ensures Valid() && fresh(repr - old(repr))
      ensures nextRecord == old(nextRecord) && finished == old(finished)
      ensures held == old(held) && forall a :: a in held ==> a.vec.data == old(a.vec.data)
    {
      hide Content.Valid, RecordsOk;
      var buf := TakeBytesBuffers();
      buf.data := scribble;
    }

    /** Reads one record's body into place. */
    method Install(stored: Stored) returns (loaded: bool)
      requires Valid()
      requires stored.Decoded? ==> stored.content.Valid()
      modifies this, repr
      ensures Valid() && fresh(repr - old(repr))
      ensures nextRecord == old(nextRecord) && finished == old(finished)
      ensures held == old(held) && forall a :: a in held ==> a.vec.data == old(a.vec.data)
      ensures loaded == stored.Decoded?
      ensures loaded ==> nextEvent == 0 && !cur.NoRecord? && CurrentContent() == stored.content
    {
      hide Content.Valid, RecordsOk, CountsOk, Apart;
      loaded := stored.Decoded?;
      match stored {
        case Unreadable =>
        case BadSplit =>
          Park();
        case BadBlob(scribble) =>
          SpoilBlob(scribble);
        case Decoded(content) =>
          match content {
            case OfSplit(split) =>
              LoadSplit(split);
            case Blob(payload, offsets, dataStart) =>
              LoadBlob(payload, offsets, dataStart);
          }
          nextEvent := 0;
      }
    }

    /** Moves to the next record asked for; skips the others unread. */
    method AdvanceRecord() returns (r: Advanced)
      requires Valid()
      modifies this, repr
      ensures Valid() && finished == old(finished) && fresh(repr - old(repr))
      ensures held == old(held) && forall a :: a in held ==> a.vec.data == old(a.vec.data)
      ensures r.Loaded? ==>
        && nextEvent == 0 && nextRecord > old(nextRecord) && !cur.NoRecord?
        && FileRun(records, filter, tags, old(nextRecord))
           == Survivors(CurrentContent(), filter, 0) + FileRun(records, filter, tags, nextRecord)
      ensures r.AtEnd? ==> FileRun(records, filter, tags, old(nextRecord)) == []
      ensures r.Corrupt? ==> FileRun(records, filter, tags, old(nextRecord)) == [Failure]
    {
      hide Content.Valid, Survivors, CountsOk, Apart;
      while nextRecord < |records|
        invariant Valid() && unchanged(old(repr)) && repr == old(repr) && held == old(held) && finished == old(finished)
        invariant old(nextRecord) <= nextRecord
        invariant FileRun(records, filter, tags, old(nextRecord)) == FileRun(records, filter, tags, nextRecord)
        decreases |records| - nextRecord
      {
        var rec := records[nextRecord];
        nextRecord := nextRecord + 1;
        if tags.Some? {
          if rec.userWord.None? {
            return Corrupt;
          }
          if rec.userWord.value !in tags.value {
            continue;
          }
        }
        var loaded := Install(rec.stored);
        return if loaded then Loaded else Corrupt;
      }
      r := AtEnd;
    }

    /** Hands an event of the current record out; a slice takes one more share of the payload. */
    method HandOut(i: nat) returns (ev: OwnedEvent)
      requires Valid() && !cur.NoRecord? && i < CurrentContent().Count()
      modifies this`held, repr
      ensures Valid() && repr == old(repr) && unchanged(this`cur)
      ensures held == old(held) + HandleOf(ev)
      ensures forall a :: a in old(held) ==> a.vec.data == old(a.vec.data)
      ensures Pending() == old(Pending())
      ensures Shows(ev, old(EventAt(CurrentContent(), i)))
    {
      hide AllApart, RecordsOk, Rest, FileRun;
      match cur {
        case BytesRecord(arc, offsets, dataStart) =>
          ev := Slice(arc, dataStart + offsets[i], dataStart + offsets[i + 1]);
          arc.strong := arc.strong + 1;
          held := held + multiset{arc};
        case SplitRecord(split) =>
          ev := FromSplit(split, i);
      }
    }

    /** Advances while the current record is exhausted, however many empty records follow. */
    method Refill() returns (r: Advanced)
      requires Valid() && !finished
      modifies this, repr
      ensures Valid() && !finished && fresh(repr - old(repr))
      ensures held == old(held) && forall a :: a in held ==> a.vec.data == old(a.vec.data)
      ensures r.Loaded? ==> !cur.NoRecord? && nextEvent < CurrentContent().Count() && Pending() == old(Pending())
      ensures r.Loaded? ==> unchanged(this) || nextRecord > old(nextRecord)
      ensures r.AtEnd? ==> old(Pending()) == []
      ensures r.Corrupt? ==> old(Pending()) == [Failure]
    {
      hide CountsOk, Apart, Content.Valid, RecordsOk;
      while cur.NoRecord? || nextEvent >= CurrentCount()
        invariant Valid() && !finished && fresh(repr - old(repr))
        invariant held == old(held) && forall a :: a in held ==> a.vec.data == old(a.vec.data)
        invariant Pending() == old(Pending())
        invariant unchanged(this) || nextRecord > old(nextRecord)
        decreases |records| - nextRecord
      {
        var advanced := AdvanceRecord();
        if !advanced.Loaded? {
          return advanced;
        }
      }
      r := Loaded;
    }

    /** Steps over one event and says whether it passes the filter. */
    method StepOver() returns (pass: bool)
      requires Valid() && !finished && !cur.NoRecord? && nextEvent < CurrentContent().Count()
      modifies this`nextEvent
      ensures Valid() && nextEvent == old(nextEvent) + 1
      ensures !pass ==> Pending() == old(Pending())
      ensures pass ==>
        && old(Pending()) != [] && old(Pending())[0] == Event(EventAt(CurrentContent(), old(nextEvent)))
        && Pending() == old(Pending())[1..]
    {
      hide CountsOk, Apart, RecordsOk, FileRun, Passes, EventAt, Rest, Split.Valid, Directory.Valid;
      RestStep(CurrentContent(), filter, nextEvent, FileRun(records, filter, tags, nextRecord));
      pass := CheckCurrent(nextEvent);
      nextEvent := nextEvent + 1;
    }

    /** Runs on to the next event that passes the filter. */
    method FindPassing() returns (r: Advanced)
      requires Valid() && !finished
      modifies this, repr
      ensures Valid() && !finished && fresh(repr - old(repr))
      ensures held == old(held) && forall a :: a in held ==> a.vec.data == old(a.vec.data)
      ensures r.AtEnd? ==> old(Pending()) == []
      ensures r.Corrupt? ==> old(Pending()) == [Failure]
      ensures r.Loaded? ==>
        && !cur.NoRecord? && 0 < nextEvent <= CurrentContent().Count()
        && old(Pending()) != [] && old(Pending())[0] == Event(EventAt(CurrentContent(), nextEvent - 1))
        && Pending() == old(Pending())[1..]
    {
      hide CountsOk, Apart, RecordsOk, FileRun, Content.Valid, Rest, EventAt, Passes, Split.Valid, Directory.Valid;
      while true
        invariant Valid() && !finished && fresh(repr - old(repr))
        invariant held == old(held) && forall a :: a in held ==> a.vec.data == old(a.vec.data)
        invariant Pending() == old(Pending())
        decreases |records| - nextRecord, if cur.NoRecord? then 0 else CurrentCount() - nextEvent
      {
        r := Refill();
        if !r.Loaded? {
          return r;
        }
        var pass := StepOver();
        if pass {
          return Loaded;
        }
      }
    }

    /** `next_result`. Whatever the callers still hold, they read the same bytes afterwards. */
    method Next() returns (step: Step)
      requires Valid()
      modifies this, repr
      ensures Valid() && fresh(repr - old(repr))
      ensures forall a :: a in old(held) ==> a.vec.data == old(a.vec.data)
      ensures step.Done? <==> old(Pending()) == []
      ensures step.Done? ==> Pending() == [] && held == old(held)
      ensures step.Failed? ==> old(Pending()) == [Failure] && Pending() == [] && held == old(held)
      ensures step.Yielded? ==>
        && IsHead(step.event, old(Pending())) && Pending() == old(Pending())[1..]
        && held == old(held) + HandleOf(step.event)
    {
      hide CountsOk, Apart, RecordsOk, FileRun, Content.Valid, HandleOf, Shows, Rest, EventAt, Passes, Split.Valid,
           Directory.Valid;
      if finished {
        return Done;
      }
      var found := FindPassing();
      match found {
        case Loaded =>
          var ev := HandOut(nextEvent - 1);
          step := Yielded(ev);
        case AtEnd =>
          finished := true;
          step := Done;
        case Corrupt =>
          finished := true;
          step := Failed;
      }
    }

    function CurrentCount(): (n: nat)
      reads this, repr
      requires Valid() && !cur.NoRecord?
      ensures n == CurrentContent().Count()
    {
      match cur
      case BytesRecord(_, offsets, _) => Max(|offsets| - 1, 0)
      case SplitRecord(split) => split.Dir().Events()
    }

    method CheckCurrent(i: nat) returns (pass: bool)
      requires Valid() && !cur.NoRecord? && i < CurrentContent().Count()
      ensures pass == Passes(filter, EventAt(CurrentContent(), i))
    {
      hide CountsOk, Apart, RecordsOk, Directory.Valid, Split.Valid, Check, CheckDirectory;
      if filter.None? {
        return true;
      }
      match cur {
        case BytesRecord(arc, offsets, dataStart) =>
          var slice := arc.vec.data[dataStart + offsets[i]..dataStart + offsets[i + 1]];
          pass := Check(filter.value, slice);
        case SplitRecord(split) =>
          pass := CheckLoop(filter.value, split.Dir(), i);
      }
    }

    lemma HeldInRepr()
      requires Valid()
      ensures forall a :: a in held ==> a.vec in repr
    {
    }

    /** A caller lets an event go. */
    method Release(ev: OwnedEvent)
      requires Valid() && HandleOf(ev) <= held
      modifies this`held, repr
      ensures Valid() && repr == old(repr) && Pending() == old(Pending())
      ensures held == old(held) - HandleOf(ev)
      ensures forall a :: a in old(held) ==> a.vec.data == old(a.vec.data)
    {
      hide AllApart, Content.Valid, RecordsOk, Rest, FileRun;
      if ev.Slice? {
        ev.arc.strong := ev.arc.strong - 1;
        held := held - multiset{ev.arc};
      }
    }

    /** A caller clones an event: one more share of its payload. */
    method Clone(ev: OwnedEvent) returns (copy: OwnedEvent)
      requires Valid() && HandleOf(ev) <= held
      modifies this`held, repr
      ensures Valid() && repr == old(repr) && Pending() == old(Pending())
      ensures copy == ev && held == old(held) + HandleOf(ev)
      ensures forall a :: a in old(held) ==> a.vec.data == old(a.vec.data)
    {
      hide AllApart, Content.Valid, RecordsOk, Rest, FileRun;
      if ev.Slice? {
        assert ev.arc in held;
        ev.arc.strong := ev.arc.strong + 1;
        held := held + multiset{ev.arc};
      }
      copy := ev;
    }
  }

  // ---- Whole runs ---------------------------------------------------------

  /** The events read as `values`, their bytes all in `buffers`. */
  ghost predicate AllShow(events: seq<OwnedEvent>, values: seq<EventValue>, buffers: set<object>)
    reads buffers
  {
    && |events| == |values|
    && forall k :: 0 <= k < |events| ==>
      (events[k].Slice? ==> events[k].arc.vec in buffers) && Shows(events[k], values[k])
  }

  /** The values of the events a caller keeps. */
  function KeptOf(items: seq<Item>, keep: set<nat>): (r: seq<EventValue>)
  {
    if items == [] then []
    else
      var n := |items| - 1;
      KeptOf(items[..n], keep) + if items[n].Event? && n in keep then [items[n].value] else []
  }

  lemma KeepNothing(it: EventIter, keep: set<nat>)
    ensures Handles([]) == multiset{} && AllShow([], KeptOf([], keep), it.repr)
  {
  }

  lemma KeptStep(run: seq<Item>, n: nat, keep: set<nat>)
    requires n < |run|
    ensures KeptOf(run[..n + 1], keep)
      == if run[n].Event? && n in keep then KeptOf(run[..n], keep) + [run[n].value] else KeptOf(run[..n], keep)
  {
    assert run[..n + 1][..n] == run[..n];
  }

  lemma AllHeld(events: seq<OwnedEvent>)
    ensures forall k :: 0 <= k < |events| && events[k].Slice? ==> events[k].arc in Handles(events)
  {
    forall k | 0 <= k < |events| && events[k].Slice?
      ensures events[k].arc in Handles(events)
    {
      HandlesCover(events, k);
    }
  }

  /** One call of `next` leaves what the caller holds as it was. */
  method NextHolding(it: EventIter, kept: seq<OwnedEvent>, ghost values: seq<EventValue>) returns (step: Step)
    requires it.Valid() && it.held == Handles(kept) && AllShow(kept, values, it.repr)
    modifies it, it.repr
    ensures it.Valid() && fresh(it.repr - old(it.repr)) && AllShow(kept, values, it.repr)
    ensures it.held == Handles(kept) + if step.Yielded? then HandleOf(step.event) else multiset{}
    ensures step.Done? ==> old(it.Pending()) == [] && it.Pending() == []
    ensures step.Failed? ==> old(it.Pending()) == [Failure] && it.Pending() == []
    ensures step.Yielded? ==> IsHead(step.event, old(it.Pending())) && it.Pending() == old(it.Pending())[1..]
  {
    hide EventIter.Valid, EventIter.Pending, HandleOf, Handles;
    AllHeld(kept);
    step := it.Next();
    it.HeldInRepr();
  }

  /** The caller lets the event just handed out go; the others are as they were. */
  method Drop(it: EventIter, ev: OwnedEvent, kept: seq<OwnedEvent>, ghost values: seq<EventValue>)
    requires it.Valid() && it.held == Handles(kept) + HandleOf(ev) && AllShow(kept, values, it.repr)
    modifies it, it.repr
    ensures it.Valid() && it.repr == old(it.repr) && it.Pending() == old(it.Pending())
    ensures it.held == Handles(kept) && AllShow(kept, values, it.repr)
  {
    hide EventIter.Valid, EventIter.Pending, HandleOf, Handles;
    AllHeld(kept);
    it.Release(ev);
  }

  /** The caller puts the event just handed out with those it keeps. */
  lemma Keep(it: EventIter, ev: OwnedEvent, value: EventValue, kept: seq<OwnedEvent>, values: seq<EventValue>)
    requires it.Valid() && it.held == Handles(kept) + HandleOf(ev) && AllShow(kept, values, it.repr) && Shows(ev, value)
    ensures it.held == Handles(kept + [ev]) && AllShow(kept + [ev], values + [value], it.repr)
  {
    hide EventIter.Valid, Shows;
    it.HeldInRepr();
    assert (kept + [ev])[..|kept|] == kept;
  }

  /** A whole run of `next`, the caller keeping the events it likes and dropping the others at
      once: every event of the run comes in order, and the kept ones still read as they did when
      the run is over. */
  method Consume(it: EventIter, keep: set<nat>) returns (kept: seq<OwnedEvent>, count: nat, failed: bool)
    requires it.Valid() && it.held == multiset{}
    modifies it, it.repr
    ensures it.Valid() && it.Pending() == []
    ensures |old(it.Pending())| == count + if failed then 1 else 0
    ensures failed <==> Failure in old(it.Pending())
    ensures AllShow(kept, KeptOf(old(it.Pending()), keep), it.repr)
  {
    hide EventIter.Valid, EventIter.Pending, KeptOf, AllShow, Handles, HandleOf, Shows;
    kept, count, failed := [], 0, false;
    ghost var run := it.Pending();
    var done := false;
    assert run[..0] == [];
    KeepNothing(it, keep);
    while !done
      invariant it.Valid() && fresh(it.repr - old(it.repr)) && it.held == Handles(kept)
      invariant count <= |run| && it.Pending() == if failed then [] else run[count..]
      invariant forall k :: 0 <= k < count ==> run[k].Event?
      invariant AllShow(kept, KeptOf(run[..count], keep), it.repr)
      invariant failed ==> count + 1 == |run| && run[count] == Failure && done
      invariant done && !failed ==> count == |run|
      decreases if done then 0 else |run| - count + 1
    {
      ghost var values := KeptOf(run[..count], keep);
      var step := NextHolding(it, kept, values);
      if step.Yielded? {
        assert run[count] == run[count..][0] && run[count..][1..] == run[count + 1..];
        KeptStep(run, count, keep);
        if count in keep {
          Keep(it, step.event, run[count].value, kept, values);
          kept := kept + [step.event];
        } else {
          Drop(it, step.event, kept, values);
        }
        count := count + 1;
      } else {
        done, failed := true, step.Failed?;
        assert failed ==> run[count] == run[count..][0];
      }
    }
    if failed {
      KeptStep(run, count, keep);
      assert run[..count + 1] == run;
    } else {
      assert run[..count] == run;
    }
  }

  // ---- Any caller ---------------------------------------------------------

  /** What a caller may do: ask for the next event, let one of those it holds go, clone one. */
  datatype Act = Ask | LetGo(k: nat) | Copy(k: nat)

  /** The events a caller holds, by value, and what the iterator has left. */
  datatype Hand = Hand(values: seq<EventValue>, left: seq<Item>)

  function After(h: Hand, act: Act): Hand
  {
    match act
    case Ask =>
      if h.left == [] then h
      else if h.left[0].Failure? then Hand(h.values, [])
      else Hand(h.values + [h.left[0].value], h.left[1..])
    case LetGo(k) => if k < |h.values| then Hand(h.values[..k] + h.values[k + 1..], h.left) else h
    case Copy(k) => if k < |h.values| then Hand(h.values + [h.values[k]], h.left) else h
  }

  function AfterAll(h: Hand, acts: seq<Act>): Hand
  {
    if acts == [] then h else After(AfterAll(h, acts[..|acts| - 1]), acts[|acts| - 1])
  }

  lemma HandlesSnoc(events: seq<OwnedEvent>, ev: OwnedEvent)
    ensures Handles(events + [ev]) == Handles(events) + HandleOf(ev)
  {
    assert (events + [ev])[..|events|] == events;
  }

  lemma {:induction false} HandlesWithout(events: seq<OwnedEvent>, k: nat)
    requires k < |events|
    ensures Handles(events) == Handles(events[..k] + events[k + 1..]) + HandleOf(events[k])
  {
    hide Handles, HandleOf;
    var n := |events| - 1;
    HandlesSnoc(events[..n], events[n]);
    assert events == events[..n] + [events[n]];
    if k < n {
      HandlesWithout(events[..n], k);
      HandlesSnoc(events[..n][..k] + events[..n][k + 1..], events[n]);
      assert events[..k] + events[k + 1..] == events[..n][..k] + events[..n][k + 1..] + [events[n]];
    } else {
      assert events[..k] + events[k + 1..] == events[..n];
    }
  }

  /** The caller and the iterator in step with the plain account of them. */
  ghost predicate InStep(it: EventIter, kept: seq<OwnedEvent>, h: Hand)
    reads it, it.repr
  {
    it.Valid() && it.held == Handles(kept) && AllShow(kept, h.values, it.repr) && it.Pending() == h.left
  }

  method AskNext(it: EventIter, kept: seq<OwnedEvent>, ghost h: Hand) returns (now: seq<OwnedEvent>)
    requires InStep(it, kept, h)
    modifies it, it.repr
    ensures InStep(it, now, After(h, Ask)) && fresh(it.repr - old(it.repr))
  {
    hide EventIter.Valid, EventIter.Pending, AllShow, Handles, HandleOf, Shows;
    var step := NextHolding(it, kept, h.values);
    if step.Yielded? {
      Keep(it, step.event, h.left[0].value, kept, h.values);
      now := kept + [step.event];
    } else {
      now := kept;
    }
  }

  method LetOneGo(it: EventIter, kept: seq<OwnedEvent>, ghost h: Hand, k: nat) returns (now: seq<OwnedEvent>)
    requires InStep(it, kept, h)
    modifies it, it.repr
    ensures InStep(it, now, After(h, LetGo(k))) && it.repr == old(it.repr)
  {
    hide EventIter.Valid, EventIter.Pending, Handles, HandleOf, Shows;
    if k < |kept| {
      HandlesWithout(kept, k);
      now := kept[..k] + kept[k + 1..];
      Drop(it, kept[k], now, h.values[..k] + h.values[k + 1..]);
    } else {
      now := kept;
    }
  }

  method CloneHolding(it: EventIter, kept: seq<OwnedEvent>, ghost values: seq<EventValue>, k: nat)
    returns (copy: OwnedEvent)
    requires it.Valid() && it.held == Handles(kept) && AllShow(kept, values, it.repr) && k < |kept|
    requires HandleOf(kept[k]) <= it.held
    modifies it, it.repr
    ensures it.Valid() && it.repr == old(it.repr) && it.Pending() == old(it.Pending())
    ensures copy == kept[k] && it.held == Handles(kept) + HandleOf(copy)
    ensures AllShow(kept, values, it.repr) && Shows(copy, values[k])
  {
    hide EventIter.Valid, EventIter.Pending, HandleOf, Handles;
    AllHeld(kept);
    copy := it.Clone(kept[k]);
  }

  method CopyOne(it: EventIter, kept: seq<OwnedEvent>, ghost h: Hand, k: nat) returns (now: seq<OwnedEvent>)
    requires InStep(it, kept, h)
    modifies it, it.repr
    ensures InStep(it, now, After(h, Copy(k))) && it.repr == old(it.repr)
  {
    hide EventIter.Valid, EventIter.Pending, Handles, HandleOf, Shows;
    if k < |kept| {
      HandlesWithout(kept, k);
      var copy := CloneHolding(it, kept, h.values, k);
      Keep(it, copy, h.values[k], kept, h.values);
      now := kept + [copy];
    } else {
      now := kept;
    }
  }

  /** Any caller at all, asking, letting go and cloning in any order: it holds what the plain account
      says, and every event it holds reads as it did when it was handed out. */
  method Serve(it: EventIter, acts: seq<Act>) returns (kept: seq<OwnedEvent>)
    requires it.Valid() && it.held == multiset{}
    modifies it, it.repr
    ensures InStep(it, kept, AfterAll(Hand([], old(it.Pending())), acts))
  {
    hide InStep, After;
    kept := [];
    ghost var start := Hand([], it.Pending());
    NothingHeld(it, start);
    assert acts[..0] == [];
    for i := 0 to |acts|
      invariant InStep(it, kept, AfterAll(start, acts[..i])) && fresh(it.repr - old(it.repr))
    {
      ghost var h := AfterAll(start, acts[..i]);
      assert acts[..i + 1][..i] == acts[..i];
      match acts[i] {
        case Ask => kept := AskNext(it, kept, h);
        case LetGo(k) => kept := LetOneGo(it, kept, h, k);
        case Copy(k) => kept := CopyOne(it, kept, h, k);
      }
    }
    assert acts[..|acts|] == acts;
  }

  lemma NothingHeld(it: EventIter, h: Hand)
    requires it.Valid() && it.held == multiset{} && h.values == [] && it.Pending() == h.left
    ensures InStep(it, [], h)
  {
  }
}
