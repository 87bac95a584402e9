/** Which banks carry data, in how many events and how many rows, without inflating a bank
    (src/read/occupancy.rs). */
module Occupancies {
  import opened Bytes
  import opened Events
  import opened Schemas
  import opened Records
  import opened Filters
  import opened EventIters
  import opened RecordScans

  // ---- Tallies ----------------------------------------------------------------

  datatype Tally = Tally(events: nat, rows: nat, max: nat)

  const NOTHING := Tally(0, 0, 0)

  /** `note`: a bank with no rows is not carrying data. */
  function Noted(t: Tally, rows: nat): Tally
  {
    if rows == 0 then t else Tally(t.events + 1, t.rows + rows, Max(t.max, rows))
  }

  function Merged(a: Tally, b: Tally): Tally
  {
    Tally(a.events + b.events, a.rows + b.rows, Max(a.max, b.max))
  }

  /** The tally of a list of row counts. */
  function TallyOf(rows: seq<nat>): (t: Tally)
  {
    if rows == [] then NOTHING else Noted(TallyOf(rows[..|rows| - 1]), rows[|rows| - 1])
  }

  lemma {:induction false} TallySnoc(rows: seq<nat>, r: nat)
    ensures TallyOf(rows + [r]) == Noted(TallyOf(rows), r)
  {
    assert (rows + [r])[..|rows|] == rows;
  }

  /** Counting two lists apart and merging is counting them together. */
  lemma {:induction false} MergedIsTogether(a: seq<nat>, b: seq<nat>)
    ensures Merged(TallyOf(a), TallyOf(b)) == TallyOf(a + b)
  {
    MergeNothing(a);
    hide TallyOf, Merged, Noted;
    if b == [] {
      assert a + b == a;
    } else {
      var init, r := b[..|b| - 1], b[|b| - 1];
      MergedIsTogether(a, init);
      TallySnoc(init, r);
      TallySnoc(a + init, r);
      MergeNoted(TallyOf(a), TallyOf(init), r);
      assert init + [r] == b;
      assert a + init + [r] == a + (init + [r]);
    }
  }

  lemma {:induction false} MergeNothing(a: seq<nat>)
    ensures Merged(TallyOf(a), TallyOf([])) == TallyOf(a)
  {
    hide TallyOf, Merged;
    TallyEmpty();
    MergeZero(TallyOf(a));
  }

  lemma TallyEmpty()
    ensures TallyOf([]) == NOTHING
  {
  }

  lemma MergeZero(t: Tally)
    ensures Merged(t, NOTHING) == t
  {
  }

  lemma MergeNoted(t: Tally, u: Tally, r: nat)
    ensures Merged(t, Noted(u, r)) == Noted(Merged(t, u), r)
  {
  }

  /** A tally says what it should of its list: events with rows, all rows, the largest count. */
  lemma {:induction false} TallyMeans(rows: seq<nat>)
    ensures TallyOf(rows).rows == Sum(rows)
    ensures forall r :: r in rows ==> r <= TallyOf(rows).max
    ensures TallyOf(rows).max in rows || TallyOf(rows).max == 0
    ensures TallyOf(rows).events == |rows| - multiset(rows)[0]
  {
    if rows != [] {
      var n := |rows| - 1;
      TallyMeans(rows[..n]);
      SumSnoc(rows[..n], rows[n]);
      assert rows == rows[..n] + [rows[n]];
    }
  }

  /** The order in which records reach the tally does not matter, nor does who counted them. */
  lemma {:induction false} SameBagSameTally(a: seq<nat>, b: seq<nat>)
    requires multiset(a) == multiset(b)
    ensures TallyOf(a) == TallyOf(b)
  {
    TallyMeans(a);
    TallyMeans(b);
    SameBagSameSum(a, b);
    assert |a| == |multiset(a)| == |multiset(b)| == |b|;
    assert forall r :: r in a <==> r in multiset(a);
    assert forall r :: r in b <==> r in multiset(b);
  }

  lemma {:induction false} SumWithout(b: seq<nat>, k: nat)
    requires k < |b|
    ensures Sum(b) == Sum(b[..k] + b[k + 1..]) + b[k]
  {
    assert b == b[..k] + ([b[k]] + b[k + 1..]);
    SumAppend(b[..k], [b[k]] + b[k + 1..]);
    SumAppend(b[..k], b[k + 1..]);
    assert ([b[k]] + b[k + 1..])[1..] == b[k + 1..];
  }

  lemma {:induction false} SameBagSameSum(a: seq<nat>, b: seq<nat>)
    requires multiset(a) == multiset(b)
    ensures Sum(a) == Sum(b)
  {
    if a == [] {
      EmptyBag(b);
    } else {
      var k := PlaceInOther(a, b);
      SumWithout(b, k);
      SameBagSameSum(a[1..], b[..k] + b[k + 1..]);
    }
  }

  // ---- One event ------------------------------------------------------------------

  /** A dictionary entry as the counter uses it. */
  datatype BankKey = BankKey(id: Id, rowSize: nat)

  /** `position`: the first entry with the identifier. */
  function Position(schemas: seq<BankKey>, id: Id): (r: Option<nat>)
    ensures r.Some? ==> r.value < |schemas| && schemas[r.value].id == id
    ensures r.Some? ==> forall k :: 0 <= k < r.value ==> schemas[k].id != id
    ensures r.None? ==> forall k :: 0 <= k < |schemas| ==> schemas[k].id != id
  {
    if schemas == [] then None
    else if schemas[0].id == id then Some(0)
    else
      match Position(schemas[1..], id)
      case None => None
      case Some(k) => Some(k + 1)
  }

  /** The row counts a walk over the structures notes for slot `k`. */
  function WalkRows(schemas: seq<BankKey>, ss: seq<Structure>, k: nat): (r: seq<nat>)
    requires k < |schemas|
  {
    if ss == [] then []
    else
      var s := ss[|ss| - 1];
      WalkRows(schemas, ss[..|ss| - 1], k)
      + if Position(schemas, IdOf(s)) == Some(k) && schemas[k].rowSize != 0 then [|s.data| / schemas[k].rowSize] else []
  }

  /** The row count the directory gives for slot `k`. */
  function DirectoryRows(schemas: seq<BankKey>, d: Directory, e: nat, k: nat): (r: seq<nat>)
    requires k < |schemas| && d.Valid() && e < d.Events()
  {
    var b := IndexOf(d.descriptors, schemas[k].id);
    if b.Some? && d.Has(e, b.value) && schemas[k].rowSize != 0 then [d.Size(e, b.value) / schemas[k].rowSize] else []
  }

  function EventRows(schemas: seq<BankKey>, c: Content, e: nat, k: nat): (r: seq<nat>)
    requires k < |schemas| && c.Valid() && e < c.Count()
  {
    match c
    case Blob(_, _, _) => WalkRows(schemas, Structures(EventAt(c, e).bytes), k)
    case OfSplit(split) => DirectoryRows(schemas, split.Dir(), e, k)
  }

  /** The row counts of the events `es`, for slot `k`. */
  function RecordRows(schemas: seq<BankKey>, c: Content, es: seq<nat>, k: nat): (r: seq<nat>)
    requires k < |schemas| && c.Valid() && forall i :: 0 <= i < |es| ==> es[i] < c.Count()
  {
    if es == [] then []
    else RecordRows(schemas, c, es[..|es| - 1], k) + EventRows(schemas, c, es[|es| - 1], k)
  }

  /** Every slot's tally is that of these row counts. */
  function NoTallies(n: nat): (r: seq<Tally>)
    ensures |r| == n
  {
    seq(n, _ => NOTHING)
  }

  ghost predicate Tallied(tallies: seq<Tally>, rows: seq<seq<nat>>)
  {
    |tallies| == |rows| && forall k :: 0 <= k < |rows| ==> tallies[k] == TallyOf(rows[k])
  }

  method NoteWalk(schemas: seq<BankKey>, ss: seq<Structure>, tallies: seq<Tally>, ghost rows: seq<seq<nat>>)
    returns (r: seq<Tally>)
    requires |rows| == |schemas| && Tallied(tallies, rows)
    ensures Tallied(r, seq(|schemas|, k requires 0 <= k < |schemas| => rows[k] + WalkRows(schemas, ss, k)))
  {
    WalkNone(schemas, rows);
    hide TallyOf, Position, WalkRows;
    r := tallies;
    assert ss[..0] == [];
    for i := 0 to |ss|
      invariant |r| == |schemas|
      invariant forall k :: 0 <= k < |schemas| ==> r[k] == TallyOf(rows[k] + WalkRows(schemas, ss[..i], k))
    {
      var s := ss[i];
      WalkSnoc(schemas, ss, i, rows);
      var slot := Position(schemas, IdOf(s));
      if slot.Some? && schemas[slot.value].rowSize != 0 {
        r := r[slot.value := Noted(r[slot.value], |s.data| / schemas[slot.value].rowSize)];
      }
    }
    assert ss[..|ss|] == ss;
  }

  lemma WalkNone(schemas: seq<BankKey>, rows: seq<seq<nat>>)
    requires |rows| == |schemas|
    ensures forall k :: 0 <= k < |schemas| ==> rows[k] + WalkRows(schemas, [], k) == rows[k]
  {
  }

  lemma {:induction false} WalkSnoc(schemas: seq<BankKey>, ss: seq<Structure>, i: nat, rows: seq<seq<nat>>)
    requires |rows| == |schemas| && i < |ss|
    ensures forall k :: 0 <= k < |schemas| ==>
      TallyOf(rows[k] + WalkRows(schemas, ss[..i + 1], k))
      == if Position(schemas, IdOf(ss[i])) == Some(k) && schemas[k].rowSize != 0
         then Noted(TallyOf(rows[k] + WalkRows(schemas, ss[..i], k)), |ss[i].data| / schemas[k].rowSize)
         else TallyOf(rows[k] + WalkRows(schemas, ss[..i], k))
  {
    assert ss[..i + 1][..i] == ss[..i];
    hide TallyOf, Position, WalkRows;
    forall k | 0 <= k < |schemas| && Position(schemas, IdOf(ss[i])) == Some(k) && schemas[k].rowSize != 0
      ensures TallyOf(rows[k] + WalkRows(schemas, ss[..i + 1], k))
        == Noted(TallyOf(rows[k] + WalkRows(schemas, ss[..i], k)), |ss[i].data| / schemas[k].rowSize)
    {
      var before, n := WalkRows(schemas, ss[..i], k), |ss[i].data| / schemas[k].rowSize;
      assert rows[k] + (before + [n]) == rows[k] + before + [n];
      TallySnoc(rows[k] + before, n);
    }
    forall k | 0 <= k < |schemas| && !(Position(schemas, IdOf(ss[i])) == Some(k) && schemas[k].rowSize != 0)
      ensures WalkRows(schemas, ss[..i + 1], k) == WalkRows(schemas, ss[..i], k)
    {
      assert WalkRows(schemas, ss[..i], k) + [] == WalkRows(schemas, ss[..i], k);
    }
  }

  method NoteDirectory(schemas: seq<BankKey>, d: Directory, e: nat, tallies: seq<Tally>, ghost rows: seq<seq<nat>>)
    returns (r: seq<Tally>)
    requires |rows| == |schemas| && Tallied(tallies, rows) && d.Valid() && e < d.Events()
    ensures Tallied(r, seq(|schemas|, k requires 0 <= k < |schemas| => rows[k] + DirectoryRows(schemas, d, e, k)))
  {
    hide TallyOf, Directory.Valid;
    r := tallies;
    for k := 0 to |schemas|
      invariant |r| == |schemas|
      invariant forall j :: 0 <= j < k ==> r[j] == TallyOf(rows[j] + DirectoryRows(schemas, d, e, j))
      invariant forall j :: k <= j < |schemas| ==> r[j] == TallyOf(rows[j])
    {
      assert rows[k] + [] == rows[k];
      var b := BankOf(d, schemas[k].id);
      if b.Some? && d.Has(e, b.value) && schemas[k].rowSize != 0 {
        var n := d.Size(e, b.value) / schemas[k].rowSize;
        TallySnoc(rows[k], n);
        r := r[k := Noted(r[k], n)];
      }
    }
  }

  method BankOf(d: Directory, id: Id) returns (b: Option<nat>)
    requires d.Valid()
    ensures b == IndexOf(d.descriptors, id)
  {
    b := BankIndex(d.descriptors, id);
  }

  /** Every slot's rows of the events `es`. */
  function SlotRows(schemas: seq<BankKey>, c: Content, es: seq<nat>): (r: seq<seq<nat>>)
    requires c.Valid() && forall i :: 0 <= i < |es| ==> es[i] < c.Count()
    ensures |r| == |schemas|
  {
    seq(|schemas|, k requires 0 <= k < |schemas| => RecordRows(schemas, c, es, k))
  }

  method NoteEvent(schemas: seq<BankKey>, c: Content, ghost es: seq<nat>, e: nat, tallies: seq<Tally>)
    returns (r: seq<Tally>)
    requires c.Valid() && e < c.Count() && (forall i :: 0 <= i < |es| ==> es[i] < c.Count())
    requires Tallied(tallies, SlotRows(schemas, c, es))
    ensures Tallied(r, SlotRows(schemas, c, es + [e]))
  {
    RowsSnoc(schemas, c, es, e);
    hide RecordRows, TallyOf, Content.Valid, WalkRows, DirectoryRows, EventAt;
    match c {
      case Blob(_, _, _) =>
        r := NoteWalk(schemas, Structures(EventAt(c, e).bytes), tallies, SlotRows(schemas, c, es));
      case OfSplit(split) =>
        r := NoteDirectory(schemas, split.Dir(), e, tallies, SlotRows(schemas, c, es));
    }
  }

  lemma RowsSnoc(schemas: seq<BankKey>, c: Content, es: seq<nat>, e: nat)
    requires c.Valid() && e < c.Count() && (forall i :: 0 <= i < |es| ==> es[i] < c.Count())
    ensures forall k :: 0 <= k < |schemas| ==>
      SlotRows(schemas, c, es + [e])[k] == SlotRows(schemas, c, es)[k] + EventRows(schemas, c, e, k)
  {
    hide Content.Valid, EventRows;
    assert (es + [e])[..|es|] == es;
  }

  // ---- One record -----------------------------------------------------------------

  /** `process_record`: the events inside the window that pass the filter, counted by extent. */
  method CountRecord(stored: Stored, schemas: seq<BankKey>, clauses: Clauses, union: seq<Schema>, filtered: bool,
      w: Option<Window>)
    returns (scanned: nat, tallies: seq<Tally>, ok: bool)
    requires stored.Decoded? ==> stored.content.Valid()
    ensures ok == stored.Decoded?
    ensures ok ==>
      var es := Visited(stored.content, Wanted(clauses, union, filtered), w);
      scanned == |es| && Tallied(tallies, SlotRows(schemas, stored.content, es))
  {
    scanned, tallies, ok := 0, NoTallies(|schemas|), stored.Decoded?;
    if !ok {
      return;
    }
    var c := stored.content;
    ghost var f := Wanted(clauses, union, filtered);
    ghost var visited := VisitFlags(c, f, w);
    ghost var es: seq<nat> := [];
    NoRows(schemas, c);
    hide EventRows, BoundTo, Active, Content.Valid, Inside, Passes, EventAt, Picked, VisitFlags, SlotRows, TallyOf,
         Tallied, Wanted, NoTallies;
    for e := 0 to c.Count()
      invariant forall i :: 0 <= i < |es| ==> es[i] < c.Count()
      invariant Picked(visited, 0) == es + Picked(visited, e)
      invariant scanned == |es| && Tallied(tallies, SlotRows(schemas, c, es))
    {
      FlagsAt(c, f, w, e);
      PickedStep(es, visited, e);
      if Inside(w, e) {
        var pass := Admits(c, clauses, union, filtered, e);
        if pass {
          scanned := scanned + 1;
          tallies := NoteEvent(schemas, c, es, e, tallies);
          es := es + [e];
        }
      }
    }
    PickedEnd(visited);
    assert es + [] == es;
  }

  lemma PickedEnd(flags: seq<bool>)
    ensures Picked(flags, |flags|) == []
  {
  }

  lemma NoRows(schemas: seq<BankKey>, c: Content)
    requires c.Valid()
    ensures Tallied(NoTallies(|schemas|), SlotRows(schemas, c, []))
  {
  }
}
