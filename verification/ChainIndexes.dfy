/** One event numbering over several files (src/read/chain.rs). */
module ChainIndexes {
  import opened Bytes
  import opened EventIndexes

  type Spans = seq<seq<RecordSpan>>

  predicate IndexesOk(spans: Spans)
  {
    forall fi :: 0 <= fi < |spans| ==> Chained(spans[fi])
  }

  function Totals(spans: Spans): (r: seq<nat>)
    ensures |r| == |spans|
  {
    seq(|spans|, fi requires 0 <= fi < |spans| => Total(spans[fi]))
  }

  function Base(spans: Spans, fi: nat): nat
    requires fi <= |spans|
  {
    Sum(Totals(spans)[..fi])
  }

  function ChainTotal(spans: Spans): nat
  {
    Base(spans, |spans|)
  }

  /** A record's place in the chain. */
  predicate IsRecord(spans: Spans, t: (nat, nat))
  {
    t.0 < |spans| && t.1 < |spans[t.0]|
  }

  function Start(spans: Spans, t: (nat, nat)): nat
    requires IsRecord(spans, t)
  {
    Base(spans, t.0) + spans[t.0][t.1].firstEvent
  }

  function End(spans: Spans, t: (nat, nat)): nat
    requires IsRecord(spans, t)
  {
    Start(spans, t) + spans[t.0][t.1].eventCount
  }

  predicate Earlier(a: (nat, nat), b: (nat, nat))
  {
    a.0 < b.0 || (a.0 == b.0 && a.1 < b.1)
  }

  /** `from_inners`: the running total of events before each file. */
  method FileOffsets(spans: Spans) returns (offsets: seq<nat>)
    ensures IsOffsets(spans, offsets)
  {
    offsets := [0];
    var acc := 0;
    assert Totals(spans)[..0] == [];
    for fi := 0 to |spans|
      invariant |offsets| == fi + 1 && acc == Base(spans, fi)
      invariant forall k :: 0 <= k <= fi ==> offsets[k] == Base(spans, k)
    {
      SumTake(Totals(spans), fi);
      acc := acc + Total(spans[fi]);
      offsets := offsets + [acc];
    }
  }

  predicate IsOffsets(spans: Spans, offsets: seq<nat>)
  {
    |offsets| == |spans| + 1 && forall k :: 0 <= k <= |spans| ==> offsets[k] == Base(spans, k)
  }

  lemma BaseStep(spans: Spans, fi: nat)
    requires fi < |spans|
    ensures Base(spans, fi + 1) == Base(spans, fi) + Total(spans[fi])
  {
    SumTake(Totals(spans), fi);
  }

  lemma BaseMonotone(spans: Spans, i: nat, j: nat)
    requires i <= j <= |spans|
    ensures Base(spans, i) <= Base(spans, j)
  {
    SumMonotone(Totals(spans), i, j);
  }

  /** Records follow one another in the numbering, across files too. */
  lemma RecordsInOrder(spans: Spans, a: (nat, nat), b: (nat, nat))
    requires IndexesOk(spans) && IsRecord(spans, a) && IsRecord(spans, b)
    ensures End(spans, a) <= ChainTotal(spans)
    ensures Earlier(a, b) ==> End(spans, a) <= Start(spans, b)
  {
    hide Base, Total, Chained;
    SpansMeet(spans[a.0], a.1, a.1);
    BaseStep(spans, a.0);
    BaseMonotone(spans, a.0 + 1, |spans|);
    if a.0 < b.0 {
      BaseMonotone(spans, a.0 + 1, b.0);
    } else if a.0 == b.0 {
      SpansMeet(spans[a.0], a.1, b.1);
    }
  }

  /** Event `g` of the chain is event `e` of record `t`. */
  predicate IsAt(spans: Spans, g: nat, t: (nat, nat), e: nat)
  {
    IsRecord(spans, t) && e < spans[t.0][t.1].eventCount && g == Start(spans, t) + e
  }

  lemma OneRecord(spans: Spans, g: nat, a: (nat, nat), i: nat, b: (nat, nat), j: nat)
    requires IndexesOk(spans) && IsAt(spans, g, a, i) && IsAt(spans, g, b, j)
    ensures a == b && i == j
  {
    hide Base, Chained;
    RecordsInOrder(spans, a, b);
    RecordsInOrder(spans, b, a);
  }

  /** File, then record: every number below the total has its place, and no other has. */
  method LocateInChain(spans: Spans, offsets: seq<nat>, g: nat) returns (r: Option<((nat, nat), nat)>)
    requires IndexesOk(spans) && (IsOffsets(spans, offsets) || (spans == [] && offsets == []))
    ensures r.None? <==> g >= ChainTotal(spans)
    ensures r.Some? ==> IsAt(spans, g, r.value.0, r.value.1)
  {
    hide Base, Chained;
    forall i, j | 0 <= i < j < |offsets|
      ensures offsets[i] <= offsets[j]
    {
      BaseMonotone(spans, i, j);
    }
    BaseNothing(spans);
    var p := PartitionPoint(offsets, (o: nat) => o <= g);
    if p == 0 {
      return None;
    }
    var fi := p - 1;
    if fi >= |spans| {
      return None;
    }
    BaseStep(spans, fi);
    BaseMonotone(spans, fi + 1, |spans|);
    var local := LocateIn(spans[fi], Total(spans[fi]), g - offsets[fi]);
    if local.None? {
      return None;
    }
    r := Some(((fi, local.value.0), local.value.1));
  }

  lemma BaseNothing(spans: Spans)
    ensures Base(spans, 0) == 0
  {
    assert Totals(spans)[..0] == [];
  }
}
