/** A file's event index: where each record lies and which events it holds
    (src/wire/event_index.rs). */
module EventIndexes {
  import opened Bytes

  datatype RecordSpan = RecordSpan(fileOffset: nat, recordLength: nat, eventCount: nat, firstEvent: nat)

  /** `slice::partition_point`: binary search for the end of the prefix where `p` holds. */
  method PartitionPoint<T>(s: seq<T>, p: T -> bool) returns (k: nat)
    requires forall i, j :: 0 <= i < j < |s| && p(s[j]) ==> p(s[i])
    ensures IsPartition(s, p, k)
  {
    var lo, hi := 0, |s|;
    while lo < hi
      invariant 0 <= lo <= hi <= |s|
      invariant forall i :: 0 <= i < lo ==> p(s[i])
      invariant forall i :: hi <= i < |s| ==> !p(s[i])
    {
      var mid := (lo + hi) / 2;
      if p(s[mid]) {
        lo := mid + 1;
      } else {
        hi := mid;
      }
    }
    k := lo;
  }

  ghost predicate IsPartition<T>(s: seq<T>, p: T -> bool, k: nat)
  {
    k <= |s| && (forall i :: 0 <= i < k ==> p(s[i])) && forall i :: k <= i < |s| ==> !p(s[i])
  }

  function Counts(spans: seq<RecordSpan>): (r: seq<nat>)
    ensures |r| == |spans|
  {
    seq(|spans|, i requires 0 <= i < |spans| => spans[i].eventCount)
  }

  /** Each span starts where the ones before it end. */
  predicate Chained(spans: seq<RecordSpan>)
  {
    forall i :: 0 <= i < |spans| ==> spans[i].firstEvent == Sum(Counts(spans)[..i])
  }

  function Total(spans: seq<RecordSpan>): nat
  {
    Sum(Counts(spans))
  }

  lemma TotalSnoc(spans: seq<RecordSpan>, s: RecordSpan)
    ensures Total(spans + [s]) == Total(spans) + s.eventCount
    ensures Chained(spans + [s]) <==> Chained(spans) && s.firstEvent == Total(spans)
  {
    var all := spans + [s];
    assert Counts(all) == Counts(spans) + [s.eventCount];
    SumSnoc(Counts(spans), s.eventCount);
    assert forall i :: 0 <= i <= |spans| ==> Counts(all)[..i] == Counts(spans)[..i];
    assert Counts(spans)[..|spans|] == Counts(spans);
    assert all[|spans|] == s;
    assert forall i :: 0 <= i < |spans| ==> all[i] == spans[i];
  }

  /** Spans meet end to end, and so never overlap. */
  lemma SpansMeet(spans: seq<RecordSpan>, i: nat, j: nat)
    requires Chained(spans) && i < |spans| && j < |spans|
    ensures spans[i].firstEvent + spans[i].eventCount <= Total(spans)
    ensures i < j ==> spans[i].firstEvent + spans[i].eventCount <= spans[j].firstEvent
    ensures i + 1 == |spans| ==> spans[i].firstEvent + spans[i].eventCount == Total(spans)
    ensures i + 1 < |spans| ==> spans[i].firstEvent + spans[i].eventCount == spans[i + 1].firstEvent
  {
    var cs := Counts(spans);
    SumTake(cs, i);
    SumMonotone(cs, i + 1, |cs|);
    assert cs[..|cs|] == cs;
    if i < j {
      SumMonotone(cs, i + 1, j);
    }
  }

  class FileEventIndex {
    var records: seq<RecordSpan>
    var totalEvents: nat

    ghost predicate Valid()
      reads this
    {
      Chained(records) && totalEvents == Total(records)
    }

    constructor ()
      ensures Valid() && records == []
    {
      records, totalEvents := [], 0;
    }

    method Push(fileOffset: nat, recordLength: nat, eventCount: nat)
      requires Valid()
      modifies this
      ensures Valid()
      ensures records == old(records) + [RecordSpan(fileOffset, recordLength, eventCount, old(totalEvents))]
    {
      var span := RecordSpan(fileOffset, recordLength, eventCount, totalEvents);
      TotalSnoc(records, span);
      records := records + [span];
      totalEvents := totalEvents + eventCount;
    }

    /** Takes the last record back, whatever was pushed: `Push` then `PopLast` is no change. */
    method PopLast()
      requires Valid()
      modifies this
      ensures Valid()
      ensures records == if old(records) == [] then [] else old(records)[..|old(records)| - 1]
    {
      if records != [] {
        var n := |records| - 1;
        var last := records[n];
        assert records == records[..n] + [last];
        TotalSnoc(records[..n], last);
        records := records[..n];
        totalEvents := totalEvents - last.eventCount;
      }
    }

    method Locate(global: nat) returns (r: Option<(nat, nat)>)
      requires Valid()
      ensures r.None? <==> global >= totalEvents
      ensures r.Some? ==> IsPlace(records, r.value, global)
    {
      r := LocateIn(records, totalEvents, global);
    }
  }

  /** Record `place.0` holds event `global` as its `place.1`-th. */
  predicate IsPlace(records: seq<RecordSpan>, place: (nat, nat), global: nat)
  {
    && place.0 < |records| && place.1 < records[place.0].eventCount
    && global == records[place.0].firstEvent + place.1
  }

  /** `locate`: the one record holding the event, empty records notwithstanding; none past the
      end. */
  method LocateIn(records: seq<RecordSpan>, totalEvents: nat, global: nat) returns (r: Option<(nat, nat)>)
    requires Chained(records) && totalEvents == Total(records)
    ensures r.None? <==> global >= totalEvents
    ensures r.Some? ==> IsPlace(records, r.value, global)
  {
    if global >= totalEvents {
      return None;
    }
    forall i, j | 0 <= i < j < |records|
      ensures records[i].firstEvent <= records[j].firstEvent
    {
      SpansMeet(records, i, j);
    }
    assert records != [] ==> records[0].firstEvent == Sum(Counts(records)[..0]);
    var p := PartitionPoint(records, (s: RecordSpan) => s.firstEvent <= global);
    var at := if p == 0 then 0 else p - 1;
    SpansMeet(records, at, at);
    r := Some((at, global - records[at].firstEvent));
  }

  /** At most one place answers to an event number. */
  lemma OnePlace(spans: seq<RecordSpan>, a: (nat, nat), b: (nat, nat), global: nat)
    requires Chained(spans) && IsPlace(spans, a, global) && IsPlace(spans, b, global)
    ensures a == b
  {
    SpansMeet(spans, a.0, b.0);
    SpansMeet(spans, b.0, a.0);
  }

  /** `from_columns`: three columns of equal length, or nothing. */
  method FromColumns(positions: seq<nat>, lengths: seq<nat>, entries: seq<nat>) returns (r: Option<FileEventIndex>)
    ensures r.None? <==> !(|positions| == |lengths| == |entries|)
    ensures r.Some? ==>
      && fresh(r.value) && r.value.Valid() && |r.value.records| == |positions|
      && forall k :: 0 <= k < |positions| ==>
           && r.value.records[k].fileOffset == positions[k]
           && r.value.records[k].recordLength == lengths[k]
           && r.value.records[k].eventCount == entries[k]
  {
    if |positions| != |lengths| || |positions| != |entries| {
      return None;
    }
    var index := new FileEventIndex();
    for k := 0 to |positions|
      invariant fresh(index) && index.Valid() && |index.records| == k
      invariant forall i :: 0 <= i < k ==>
        && index.records[i].fileOffset == positions[i]
        && index.records[i].recordLength == lengths[i]
        && index.records[i].eventCount == entries[i]
    {
      index.Push(positions[k], lengths[k], entries[k]);
    }
    r := Some(index);
  }
}
