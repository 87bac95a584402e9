/** One record's share of an optional range of the stream, as the columnar and the occupancy reads
    take it (src/read/columns.rs, src/read/occupancy.rs). */
module RangeTasks {
  import opened Bytes
  import opened Filters
  import opened EventIters
  import opened ChainIndexes
  import opened RecordScans
  import opened ChainScans
  import opened RangeScans

  type Range = Option<(nat, nat)>

  predicate InRange(range: Range, g: nat)
  {
    range.None? || range.value.0 <= g < range.value.1
  }

  /** The range, as seen from a record's first event. */
  function RangeWindow(range: Range, start: nat): Option<Window>
  {
    match range
    case None => None
    case Some(r) => Some(Window(start, [r]))
  }

  lemma RangeWindowHolds(range: Range, start: nat, e: nat)
    ensures Inside(RangeWindow(range, start), e) <==> InRange(range, start + e)
  {
    if range.Some? && InRange(range, start + e) {
      assert [range.value][0] == range.value;
    }
  }

  /** The record neither ends before the range nor begins after it; one that does is passed over,
      unread. */
  predicate Meets(range: Range, start: nat, end: nat)
  {
    range.Some? ==> end > range.value.0 && start < range.value.1
  }

  /** A record with events and a range with numbers meet exactly when they share a number. */
  lemma MeetIsShare(lo: nat, hi: nat, start: nat, end: nat)
    requires lo < hi && start < end
    ensures Meets(Some((lo, hi)), start, end) <==>
      exists g: nat :: InRange(Some((start, end)), g) && InRange(Some((lo, hi)), g)
  {
    var g := Max(start, lo);
    assert Meets(Some((lo, hi)), start, end) ==> InRange(Some((start, end)), g) && InRange(Some((lo, hi)), g);
  }

  /** The events of a record that are taken; none of one that does not decode. */
  function Taken(stored: Stored, start: nat, range: Range, f: Option<Bound>): (r: seq<nat>)
    requires stored.Decoded? ==> stored.content.Valid()
    ensures r != [] ==> stored.Decoded?
    ensures forall k :: 0 <= k < |r| ==> r[k] < stored.content.Count()
  {
    if stored.Decoded? then Visited(stored.content, f, RangeWindow(range, start)) else []
  }

  lemma TakenAre(stored: Stored, start: nat, range: Range, f: Option<Bound>)
    requires stored.Decoded? && stored.content.Valid()
    ensures Increasing(Taken(stored, start, range, f))
    ensures forall e: nat :: e in Taken(stored, start, range, f) <==>
      e < stored.content.Count() && InRange(range, start + e) && Passes(f, EventAt(stored.content, e))
  {
    hide Content.Valid, Passes, EventAt, Inside, InRange, Visited;
    VisitedAre(stored.content, f, RangeWindow(range, start));
    forall e: nat
      ensures Inside(RangeWindow(range, start), e) <==> InRange(range, start + e)
    {
      RangeWindowHolds(range, start, e);
    }
  }

  /** Event `e` of a record of `count` events is there to be taken, in the range and passing the filter. */
  ghost predicate Takes(stored: Stored, start: nat, count: nat, range: Range, f: Option<Bound>, e: nat)
    requires stored.Decoded? ==> stored.content.Valid() && stored.content.Count() == count
  {
    stored.Decoded? && e < count && InRange(range, start + e) && Passes(f, EventAt(stored.content, e))
  }

  lemma WhatIsTaken(stored: Stored, start: nat, count: nat, range: Range, f: Option<Bound>)
    requires stored.Decoded? ==> stored.content.Valid() && stored.content.Count() == count
    ensures Increasing(Taken(stored, start, range, f))
    ensures forall e: nat :: e in Taken(stored, start, range, f) <==> Takes(stored, start, count, range, f, e)
  {
    hide Content.Valid, Passes, EventAt, InRange, Visited;
    if stored.Decoded? {
      TakenAre(stored, start, range, f);
    }
  }

  lemma NoMembersEmpty(es: seq<nat>)
    ensures es == [] <==> forall e :: e !in es
  {
    assert es != [] ==> es[0] in es;
  }

  /** A record passed over holds nothing to take, so passing it over unread is no change. */
  lemma SkippedTakesNothing(stored: Stored, start: nat, count: nat, range: Range, f: Option<Bound>)
    requires stored.Decoded? ==> stored.content.Valid() && stored.content.Count() == count
    requires !Meets(range, start, start + count)
    ensures Taken(stored, start, range, f) == []
  {
    if stored.Decoded? {
      hide Content.Valid, Passes, EventAt, Visited;
      TakenAre(stored, start, range, f);
      NoMembersEmpty(Taken(stored, start, range, f));
    }
  }

  predicate Decodes(files: seq<ChainFile>, t: (nat, nat))
  {
    t.0 < |files| && t.1 < |files[t.0].records| && StoredAt(files, t).Decoded?
  }

  /** The events of record `t` that are taken. */
  function TaskVisits(files: seq<ChainFile>, spans: Spans, f: Option<Bound>, range: Range,
      t: (nat, nat)): (es: seq<nat>)
    requires Indexed(files, spans) && IsRecord(spans, t)
  {
    IndexedRecord(files, spans, t);
    Taken(StoredAt(files, t), Start(spans, t), range, f)
  }

  predicate AllRecords(spans: Spans, tasks: seq<(nat, nat)>)
  {
    forall i :: 0 <= i < |tasks| ==> IsRecord(spans, tasks[i])
  }

  /** The tasks are exactly the records the tags pick, in order. */
  lemma TasksAreRecords(files: seq<ChainFile>, spans: Spans, tags: Option<seq<nat>>)
    requires Indexed(files, spans)
    ensures forall t :: t in Tasks(files, tags, 0) ==> IsRecord(spans, t)
    ensures forall t :: t in Tasks(files, tags, 0) <==> Picks(files, spans, tags, t)
    ensures Ordered(Tasks(files, tags, 0)) && AllRecords(spans, Tasks(files, tags, 0))
  {
    hide Selected, Tasks, RecordsOk;
    TasksAre(files, tags, 0);
    forall t | t in Tasks(files, tags, 0)
      ensures IsRecord(spans, t)
    {
      assert Describes(spans[t.0], files[t.0].records);
    }
    forall i | 0 <= i < |Tasks(files, tags, 0)|
      ensures IsRecord(spans, Tasks(files, tags, 0)[i])
    {
      assert Tasks(files, tags, 0)[i] in Tasks(files, tags, 0);
    }
  }
}
