/** One record of a scan: which of its events are counted and which are handed to the caller
    (`process_record`, src/read/chain.rs). */
module RecordScans {
  import opened Bytes
  import opened Filters
  import opened EventIters

  predicate InRanges(ranges: seq<(nat, nat)>, g: nat)
  {
    exists k :: 0 <= k < |ranges| && ranges[k].0 <= g < ranges[k].1
  }

  /** The requested global ranges that touch a record starting at `recordStart`. */
  datatype Window = Window(recordStart: nat, ranges: seq<(nat, nat)>) {
    predicate Holds(e: nat)
    {
      InRanges(ranges, recordStart + e)
    }
  }

  predicate Inside(w: Option<Window>, e: nat)
  {
    w.None? || w.value.Holds(e)
  }

  predicate Active(f: Bound)
  {
    f.clauses.names != [] || f.clauses.recordTags != [] || f.ids != [] || f.clauses.TagActive()
  }

  /** A filter with nothing to ask passes everything, so skipping it is no change. */
  lemma InactivePasses(c: Clauses, schemas: seq<Schemas.Schema>, ev: EventValue)
    requires ev.SplitEvent? ==> ev.split.Dir().Valid() && ev.e < ev.split.Dir().Events()
    requires !Active(BoundTo(c, schemas))
    ensures Passes(Some(BoundTo(c, schemas)), ev)
  {
    assert AllDeclared(c.names, schemas);
  }

  predicate Increasing(s: seq<nat>)
  {
    forall i, j :: 0 <= i < j < |s| ==> s[i] < s[j]
  }

  /** The positions from `i` on that are marked. */
  function Picked(flags: seq<bool>, i: nat): (r: seq<nat>)
    requires i <= |flags|
    ensures forall k :: 0 <= k < |r| ==> i <= r[k] < |flags|
    decreases |flags| - i
  {
    if i == |flags| then [] else (if flags[i] then [i] else []) + Picked(flags, i + 1)
  }

  /** Moving one position from what is left to what is done. */
  lemma PickedStep(done: seq<nat>, flags: seq<bool>, i: nat)
    requires i < |flags|
    ensures done + Picked(flags, i) == (if flags[i] then done + [i] else done) + Picked(flags, i + 1)
    ensures |Picked(flags, i)| == (if flags[i] then 1 else 0) + |Picked(flags, i + 1)|
  {
    if flags[i] {
      assert done + ([i] + Picked(flags, i + 1)) == done + [i] + Picked(flags, i + 1);
    }
  }

  lemma {:induction false} PickedAre(flags: seq<bool>, i: nat)
    requires i <= |flags|
    ensures Increasing(Picked(flags, i))
    ensures forall e :: e in Picked(flags, i) <==> i <= e < |flags| && flags[e]
    decreases |flags| - i
  {
    if i < |flags| {
      PickedAre(flags, i + 1);
    }
  }

  /** The events the window holds. */
  function CountFlags(c: Content, w: Option<Window>): (r: seq<bool>)
    ensures |r| == c.Count()
  {
    seq(c.Count(), e requires 0 <= e => Inside(w, e))
  }

  /** Those that pass the filter too. */
  function VisitFlags(c: Content, f: Option<Bound>, w: Option<Window>): (r: seq<bool>)
    requires c.Valid()
    ensures |r| == c.Count()
  {
    seq(c.Count(), e requires 0 <= e < c.Count() => Inside(w, e) && Passes(f, EventAt(c, e)))
  }

  function Counted(c: Content, w: Option<Window>): (r: seq<nat>)
    ensures forall k :: 0 <= k < |r| ==> r[k] < c.Count()
  {
    Picked(CountFlags(c, w), 0)
  }

  function Visited(c: Content, f: Option<Bound>, w: Option<Window>): (r: seq<nat>)
    requires c.Valid()
    ensures forall k :: 0 <= k < |r| ==> r[k] < c.Count()
  {
    Picked(VisitFlags(c, f, w), 0)
  }

  /** The visits of a record: in order, once each, and no other event. */
  lemma VisitedAre(c: Content, f: Option<Bound>, w: Option<Window>)
    requires c.Valid()
    ensures Increasing(Visited(c, f, w))
    ensures forall e: nat :: e in Visited(c, f, w) <==> e < c.Count() && Inside(w, e) && Passes(f, EventAt(c, e))
  {
    hide Picked, Inside, Passes, EventAt, Content.Valid;
    PickedAre(VisitFlags(c, f, w), 0);
  }

  lemma {:induction false} AllPicked(flags: seq<bool>, i: nat)
    requires i <= |flags| && forall k :: i <= k < |flags| ==> flags[k]
    ensures |Picked(flags, i)| == |flags| - i
    decreases |flags| - i
  {
    if i < |flags| {
      AllPicked(flags, i + 1);
    }
  }

  /** Without a window every event of the record counts. */
  lemma AllCounted(c: Content)
    ensures |Counted(c, None)| == c.Count()
  {
    hide Picked;
    AllPicked(CountFlags(c, None), 0);
  }

  function Values(c: Content, es: seq<nat>): (r: seq<Item>)
    requires c.Valid() && forall k :: 0 <= k < |es| ==> es[k] < c.Count()
  {
    seq(|es|, k requires 0 <= k < |es| => Event(EventAt(c, es[k])))
  }

  lemma ValuesJoin(c: Content, a: seq<nat>, b: seq<nat>)
    requires c.Valid() && (forall k :: 0 <= k < |a| ==> a[k] < c.Count()) && forall k :: 0 <= k < |b| ==>
      b[k] < c.Count()
    ensures Values(c, a + b) == Values(c, a) + Values(c, b)
  {
    hide Content.Valid, EventAt;
  }

  /** What the two functions do at one position. */
  lemma FlagsAt(c: Content, f: Option<Bound>, w: Option<Window>, i: nat)
    requires c.Valid() && i < c.Count()
    ensures VisitFlags(c, f, w)[i] <==> Inside(w, i) && Passes(f, EventAt(c, i))
    ensures CountFlags(c, w)[i] <==> Inside(w, i)
  {
  }

  lemma SurvivorsHead(c: Content, f: Option<Bound>, i: nat)
    requires c.Valid() && i < c.Count()
    ensures Survivors(c, f, i)
      == (if Passes(f, EventAt(c, i)) then [Event(EventAt(c, i))] else []) + Survivors(c, f, i + 1)
  {
    hide Content.Valid, Passes, EventAt;
  }

  lemma PickedHead(flags: seq<bool>, i: nat)
    requires i < |flags|
    ensures Picked(flags, i) == if flags[i] then [i] + Picked(flags, i + 1) else Picked(flags, i + 1)
  {
  }

  lemma ValuesOne(c: Content, i: nat)
    requires c.Valid() && i < c.Count()
    ensures Values(c, [i]) == [Event(EventAt(c, i))]
  {
  }

  lemma {:induction false} PickedAreSurvivors(c: Content, f: Option<Bound>, i: nat)
    requires c.Valid() && i <= c.Count()
    ensures Values(c, Picked(VisitFlags(c, f, None), i)) == Survivors(c, f, i)
    decreases c.Count() - i
  {
    var flags := VisitFlags(c, f, None);
    hide Content.Valid, Passes, EventAt, VisitFlags, Values;
    if i < c.Count() {
      PickedAreSurvivors(c, f, i + 1);
      FlagsAt(c, f, None, i);
      SurvivorsHead(c, f, i);
      PickedHead(flags, i);
      hide Survivors, Picked;
      if flags[i] {
        ValuesJoin(c, [i], Picked(flags, i + 1));
        ValuesOne(c, i);
      }
    }
  }

  /** Without a window a record visits exactly what the sequential reader yields. */
  lemma VisitedAreSurvivors(c: Content, f: Option<Bound>)
    requires c.Valid()
    ensures Values(c, Visited(c, f, None)) == Survivors(c, f, 0)
  {
    PickedAreSurvivors(c, f, 0);
  }

  function Wanted(c: Clauses, schemas: seq<Schemas.Schema>, filtered: bool): Option<Bound>
  {
    if filtered then Some(BoundTo(c, schemas)) else None
  }

  /** The check is made only for an active filter. */
  method Admits(content: Content, c: Clauses, schemas: seq<Schemas.Schema>, filtered: bool, i: nat) returns (pass: bool)
    requires content.Valid() && i < content.Count()
    ensures pass == Passes(Wanted(c, schemas, filtered), EventAt(content, i))
  {
    hide Content.Valid, Check, CheckDirectory, EventAt, BoundTo, Active;
    var bound := BoundTo(c, schemas);
    if filtered && Active(bound) {
      pass := Passes(Some(bound), EventAt(content, i));
    } else {
      if filtered {
        InactivePasses(c, schemas, EventAt(content, i));
      }
      pass := true;
    }
  }

  /** `process_record`: reads one record and hands its events to the caller in order. */
  method ProcessRecord(stored: Stored, c: Clauses, schemas: seq<Schemas.Schema>, filtered: bool, w: Option<Window>)
    returns (visits: seq<nat>, localIn: nat, ok: bool)
    requires stored.Decoded? ==> stored.content.Valid()
    ensures ok == stored.Decoded?
    ensures ok ==>
      && visits == Visited(stored.content, Wanted(c, schemas, filtered), w)
      && |visits| <= localIn == |Counted(stored.content, w)|
  {
    visits, localIn, ok := [], 0, stored.Decoded?;
    if !ok {
      return;
    }
    var content := stored.content;
    ghost var f := Wanted(c, schemas, filtered);
    ghost var counted, visited := CountFlags(content, w), VisitFlags(content, f, w);
    hide Content.Valid, Inside, Passes, EventAt, Picked, VisitFlags, CountFlags, Wanted;
    for i := 0 to content.Count()
      invariant Picked(visited, 0) == visits + Picked(visited, i)
      invariant |Picked(counted, 0)| == localIn + |Picked(counted, i)| && |visits| <= localIn
    {
      FlagsAt(content, f, w, i);
      PickedStep(visits, visited, i);
      PickedStep([], counted, i);
      if Inside(w, i) {
        localIn := localIn + 1;
        var pass := Admits(content, c, schemas, filtered, i);
        if pass {
          visits := visits + [i];
        }
      }
    }
  }
}
