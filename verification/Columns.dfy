/** Column buffers: what each event contributes, how record chunks are merged, and why checking
    totals is enough to slice them (src/read/columns.rs). Values are kept as their little-endian
    bytes. */
module Columns {
  import opened Arith
  import opened Bytes
  import opened Schemas
  import opened Banks

  /** A bank and the columns asked of it. */
  datatype BankPlan = BankPlan(schema: Schema, cols: seq<nat>) {
    ghost predicate Valid()
    {
      LaidOut(schema) && forall ci :: 0 <= ci < |cols| ==> cols[ci] < |schema.entries|
    }
  }

  /** Rows and values one record contributes to one bank. */
  datatype Chunk = Chunk(rowCounts: seq<nat>, columns: seq<seq<byte>>)

  /** The assembled columns of one bank. */
  datatype Buffers = Buffers(offsets: seq<nat>, columns: seq<seq<byte>>)

  ghost predicate Fits(bp: BankPlan, bank: Option<Bank>)
  {
    bank.Some? ==> bank.value.Valid() && bank.value.schema == bp.schema
  }

  ghost predicate AllFit(bp: BankPlan, banks: seq<Option<Bank>>)
  {
    bp.Valid() && forall k :: 0 <= k < |banks| ==> Fits(bp, banks[k])
  }

  function RowsFor(bank: Option<Bank>): nat
  {
    if bank.Some? then bank.value.rows else 0
  }

  /** An event's bytes of one column; an absent bank has none. */
  function CellsFor(bp: BankPlan, bank: Option<Bank>, c: nat): (r: seq<byte>)
    requires bp.Valid() && Fits(bp, bank) && c < |bp.schema.entries|
  {
    if bank.Some? then bank.value.ColBytes(c) else []
  }

  function RowsOf(banks: seq<Option<Bank>>): (r: seq<nat>)
    ensures |r| == |banks|
  {
    seq(|banks|, k requires 0 <= k < |banks| => RowsFor(banks[k]))
  }

  function CellsOf(bp: BankPlan, banks: seq<Option<Bank>>, c: nat): (r: seq<seq<byte>>)
    requires AllFit(bp, banks) && c < |bp.schema.entries|
    ensures |r| == |banks|
  {
    seq(|banks|, k requires 0 <= k < |banks| => CellsFor(bp, banks[k], c))
  }

  /** The chunk of a list of events. */
  function FilledChunk(bp: BankPlan, banks: seq<Option<Bank>>): (r: Chunk)
    requires AllFit(bp, banks)
    ensures |r.columns| == |bp.cols|
  {
    Chunk(RowsOf(banks), seq(|bp.cols|, ci requires 0 <= ci < |bp.cols| => Flatten(CellsOf(bp, banks, bp.cols[ci]))))
  }

  lemma CellsSnoc(bp: BankPlan, banks: seq<Option<Bank>>, bank: Option<Bank>, c: nat)
    requires AllFit(bp, banks) && Fits(bp, bank) && c < |bp.schema.entries|
    ensures AllFit(bp, banks + [bank])
    ensures Flatten(CellsOf(bp, banks + [bank], c)) == Flatten(CellsOf(bp, banks, c)) + CellsFor(bp, bank, c)
  {
    hide Flatten, Fits, CellsFor;
    assert CellsOf(bp, banks + [bank], c) == CellsOf(bp, banks, c) + [CellsFor(bp, bank, c)];
    FlattenSnoc(CellsOf(bp, banks, c), CellsFor(bp, bank, c));
  }

  lemma FilledSnoc(bp: BankPlan, banks: seq<Option<Bank>>, bank: Option<Bank>)
    requires AllFit(bp, banks) && Fits(bp, bank)
    ensures AllFit(bp, banks + [bank])
    ensures
      var before, after := FilledChunk(bp, banks), FilledChunk(bp, banks + [bank]);
      && after.rowCounts == before.rowCounts + [RowsFor(bank)]
      && forall ci :: 0 <= ci < |bp.cols| ==> after.columns[ci] == before.columns[ci] + CellsFor(bp, bank, bp.cols[ci])
  {
    hide Flatten, Fits, CellsOf, CellsFor;
    forall ci | 0 <= ci < |bp.cols|
      ensures Flatten(CellsOf(bp, banks + [bank], bp.cols[ci]))
        == Flatten(CellsOf(bp, banks, bp.cols[ci])) + CellsFor(bp, bank, bp.cols[ci])
    {
      CellsSnoc(bp, banks, bank, bp.cols[ci]);
    }
  }

  lemma FilledAbsent(bp: BankPlan, banks: seq<Option<Bank>>)
    requires AllFit(bp, banks)
    ensures AllFit(bp, banks + [None])
    ensures FilledChunk(bp, banks + [None])
      == Chunk(FilledChunk(bp, banks).rowCounts + [0], FilledChunk(bp, banks).columns)
  {
    FilledSnoc(bp, banks, None);
    hide FilledChunk, AllFit;
    var before, after := FilledChunk(bp, banks), FilledChunk(bp, banks + [None]);
    assert forall ci :: 0 <= ci < |bp.cols| ==> after.columns[ci] == before.columns[ci];
  }

  /** `push_event`: one more event at the end of the chunk, whatever came before. */
  method PushEvent(chunk: Chunk, bp: BankPlan, bank: Option<Bank>, ghost banks: seq<Option<Bank>>) returns (r: Chunk)
    requires AllFit(bp, banks) && Fits(bp, bank) && chunk == FilledChunk(bp, banks)
    ensures AllFit(bp, banks + [bank]) && r == FilledChunk(bp, banks + [bank])
  {
    FilledSnoc(bp, banks, bank);
    hide FilledChunk, LaidOut, Bank.ColBytes, Bank.Valid;
    if bank.None? {
      FilledAbsent(bp, banks);
      return Chunk(chunk.rowCounts + [0], chunk.columns);
    }
    ghost var after := FilledChunk(bp, banks + [bank]);
    var columns := chunk.columns;
    for ci := 0 to |bp.cols|
      invariant |columns| == |bp.cols|
      invariant forall i :: 0 <= i < ci ==> columns[i] == after.columns[i]
      invariant forall i :: ci <= i < |columns| ==> columns[i] == chunk.columns[i]
    {
      columns := columns[ci := columns[ci] + bank.value.ColBytes(bp.cols[ci])];
    }
    assert columns == after.columns;
    r := Chunk(chunk.rowCounts + [bank.value.rows], columns);
  }

  // ---- Merging ------------------------------------------------------------

  function Offsets(rows: seq<nat>): (r: seq<nat>)
    ensures |r| == |rows| + 1
  {
    seq(|rows| + 1, k requires 0 <= k <= |rows| => Sum(rows[..k]))
  }

  /** The buffers a list of events should give. */
  function BuffersOf(bp: BankPlan, banks: seq<Option<Bank>>): (r: Buffers)
    requires AllFit(bp, banks)
    ensures |r.columns| == |bp.cols| && |r.offsets| == |banks| + 1
  {
    var chunk := FilledChunk(bp, banks);
    Buffers(Offsets(chunk.rowCounts), chunk.columns)
  }

  /** The final check of `merge_chunks`. */
  predicate Sound(bp: BankPlan, b: Buffers)
    requires |b.columns| == |bp.cols| && forall ci :: 0 <= ci < |bp.cols| ==> bp.cols[ci] < |bp.schema.entries|
    requires b.offsets != []
  {
    && b.offsets[0] == 0
    && (forall k :: 0 <= k < |b.offsets| - 1 ==> b.offsets[k] <= b.offsets[k + 1])
    && forall ci :: 0 <= ci < |bp.cols| ==>
         |b.columns[ci]| == bp.schema.entries[bp.cols[ci]].Span(b.offsets[|b.offsets| - 1])
  }

  lemma OffsetsSound(rows: seq<nat>)
    ensures Offsets(rows)[0] == 0 && Offsets(rows)[|rows|] == Sum(rows)
    ensures forall k :: 0 <= k < |rows| ==> Offsets(rows)[k + 1] == Offsets(rows)[k] + rows[k]
  {
    assert rows[..0] == [] && rows[..|rows|] == rows;
    forall k | 0 <= k < |rows|
      ensures Offsets(rows)[k + 1] == Offsets(rows)[k] + rows[k]
    {
      SumTake(rows, k);
    }
  }

  // ---- Why totals suffice ---------------------------------------------------

  /** Every event contributes its whole column. */
  ghost predicate AllFull(bp: BankPlan, banks: seq<Option<Bank>>, c: nat)
    requires AllFit(bp, banks) && c < |bp.schema.entries|
  {
    forall k :: 0 <= k < |banks| ==> |CellsFor(bp, banks[k], c)| == bp.schema.entries[c].Span(RowsFor(banks[k]))
  }

  function Spans(column: Entry, rows: seq<nat>): (r: seq<nat>)
    ensures |r| == |rows|
  {
    seq(|rows|, k requires 0 <= k < |rows| => column.Span(rows[k]))
  }

  lemma {:induction false} SpanOfSum(column: Entry, rows: seq<nat>)
    ensures column.Span(Sum(rows)) == Sum(Spans(column, rows))
  {
    hide Entry.Width;
    if rows == [] {
      assert Spans(column, rows) == [];
      MulPositive(0, column.Width());
    } else {
      SpanOfSum(column, rows[1..]);
      assert Spans(column, rows)[1..] == Spans(column, rows[1..]);
      Distribute(column.Width(), rows[0], Sum(rows[1..]));
    }
  }

  lemma CellsAtMost(bp: BankPlan, bank: Option<Bank>, c: nat)
    requires bp.Valid() && Fits(bp, bank) && c < |bp.schema.entries|
    ensures |CellsFor(bp, bank, c)| <= bp.schema.entries[c].Span(RowsFor(bank))
  {
    hide Entry.Width;
    if bank.Some? {
      FullOrEmpty(bank.value, c);
    } else {
      MulPositive(0, bp.schema.entries[c].Width());
    }
  }

  /** One column passes the totals check exactly when no event came up short. */
  lemma TotalsDecide(bp: BankPlan, banks: seq<Option<Bank>>, c: nat)
    requires AllFit(bp, banks) && c < |bp.schema.entries|
    ensures |Flatten(CellsOf(bp, banks, c))| == bp.schema.entries[c].Span(Sum(RowsOf(banks))) <==> AllFull(bp, banks, c)
  {
    hide Flatten, Sum, Fits, CellsFor, Entry.Span;
    var column := bp.schema.entries[c];
    var a, b := Lengths(CellsOf(bp, banks, c)), Spans(column, RowsOf(banks));
    forall k | 0 <= k < |banks|
      ensures a[k] <= b[k]
    {
      CellsAtMost(bp, banks[k], c);
    }
    FlattenLength(CellsOf(bp, banks, c));
    SpanOfSum(column, RowsOf(banks));
    EqualSumsEqualTerms(a, b);
    assert forall k :: 0 <= k < |banks| ==>
      a[k] == |CellsFor(bp, banks[k], c)| && b[k] == column.Span(RowsFor(banks[k]));
  }

  /** When every event contributes in full, its slice of the column, cut at the shared offsets, is
      exactly its own bytes. */
  lemma SliceIsOwn(bp: BankPlan, banks: seq<Option<Bank>>, c: nat, k: nat)
    requires AllFit(bp, banks) && c < |bp.schema.entries| && AllFull(bp, banks, c) && k < |banks|
    ensures
      var column, offsets, data := bp.schema.entries[c], Offsets(RowsOf(banks)), Flatten(CellsOf(bp, banks, c));
      && column.Span(offsets[k]) <= column.Span(offsets[k + 1]) <= |data|
      && data[column.Span(offsets[k])..column.Span(offsets[k + 1])] == CellsFor(bp, banks[k], c)
  {
    hide Flatten, Sum, Fits, CellsFor, Entry.Width;
    var column, cells, rows := bp.schema.entries[c], CellsOf(bp, banks, c), RowsOf(banks);
    assert Lengths(cells) == Spans(column, rows);
    FlattenSlice(cells, k);
    assert Spans(column, rows)[..k] == Spans(column, rows[..k]);
    SpanOfSum(column, rows[..k]);
    OffsetsSound(rows);
    Distribute(column.Width(), Offsets(rows)[k], rows[k]);
  }

  /** `merge_chunks` succeeds exactly when no event of no column came up short, and then every
      slice a caller takes is the event's own. */
  lemma SoundIffFull(bp: BankPlan, banks: seq<Option<Bank>>)
    requires AllFit(bp, banks)
    ensures Sound(bp, BuffersOf(bp, banks)) <==> forall ci :: 0 <= ci < |bp.cols| ==> AllFull(bp, banks, bp.cols[ci])
    ensures Sound(bp, BuffersOf(bp, banks)) ==> forall ci, k :: 0 <= ci < |bp.cols| && 0 <= k < |banks| ==>
      OwnSlice(bp, banks, ci, k)
  {
    hide Flatten, Sum, Fits, CellsFor, Entry.Span, AllFull, CellsOf, OwnSlice, LaidOut;
    OffsetsSound(RowsOf(banks));
    forall ci | 0 <= ci < |bp.cols|
      ensures |BuffersOf(bp, banks).columns[ci]| == bp.schema.entries[bp.cols[ci]].Span(Sum(RowsOf(banks))) <==>
        AllFull(bp, banks, bp.cols[ci])
    {
      TotalsDecide(bp, banks, bp.cols[ci]);
    }
    if Sound(bp, BuffersOf(bp, banks)) {
      forall ci, k | 0 <= ci < |bp.cols| && 0 <= k < |banks|
        ensures OwnSlice(bp, banks, ci, k)
      {
        SliceIsOwn(bp, banks, bp.cols[ci], k);
        SliceNamed(bp, banks, ci, k);
      }
    }
  }

  lemma SliceNamed(bp: BankPlan, banks: seq<Option<Bank>>, ci: nat, k: nat)
    requires AllFit(bp, banks) && ci < |bp.cols| && k < |banks|
    requires
      var column, offsets, data := bp.schema.entries[bp.cols[ci]], Offsets(RowsOf(banks)), Flatten(CellsOf(bp, banks, bp.cols[ci]));
      && column.Span(offsets[k]) <= column.Span(offsets[k + 1]) <= |data|
      && data[column.Span(offsets[k])..column.Span(offsets[k + 1])] == CellsFor(bp, banks[k], bp.cols[ci])
    ensures OwnSlice(bp, banks, ci, k)
  {
    hide Flatten, Sum, Fits, CellsFor, Entry.Span, CellsOf, LaidOut;
  }

  /** Event `k`'s slice of requested column `ci` is that event's own column. */
  ghost predicate OwnSlice(bp: BankPlan, banks: seq<Option<Bank>>, ci: nat, k: nat)
    requires AllFit(bp, banks) && ci < |bp.cols| && k < |banks|
  {
    var b, column := BuffersOf(bp, banks), bp.schema.entries[bp.cols[ci]];
    && column.Span(b.offsets[k]) <= column.Span(b.offsets[k + 1]) <= |b.columns[ci]|
    && b.columns[ci][column.Span(b.offsets[k])..column.Span(b.offsets[k + 1])] == CellsFor(bp, banks[k], bp.cols[ci])
  }

  // ---- Several banks at once ------------------------------------------------

  /** One event's banks, one entry a planned bank. */
  type Row = seq<Option<Bank>>

  ghost predicate RowFits(plan: seq<BankPlan>, row: Row)
  {
    |row| == |plan| && forall bi :: 0 <= bi < |plan| ==> plan[bi].Valid() && Fits(plan[bi], row[bi])
  }

  ghost predicate AllRowsFit(plan: seq<BankPlan>, rows: seq<Row>)
  {
    && (forall bi :: 0 <= bi < |plan| ==> plan[bi].Valid())
    && forall k :: 0 <= k < |rows| ==> RowFits(plan, rows[k])
  }

  function Pick(plan: seq<BankPlan>, rows: seq<Row>, bi: nat): (r: seq<Option<Bank>>)
    requires AllRowsFit(plan, rows) && bi < |plan|
    ensures |r| == |rows| && AllFit(plan[bi], r)
  {
    var r := seq(|rows|, k requires 0 <= k < |rows| => assert RowFits(plan, rows[k]); rows[k][bi]);
    assert forall k :: 0 <= k < |rows| ==> RowFits(plan, rows[k]);
    r
  }

  /** The chunk of a record that contributes these events. */
  function ChunkOf(plan: seq<BankPlan>, rows: seq<Row>): (r: seq<Chunk>)
    requires AllRowsFit(plan, rows)
    ensures |r| == |plan|
  {
    seq(|plan|, bi requires 0 <= bi < |plan| => FilledChunk(plan[bi], Pick(plan, rows, bi)))
  }

  ghost predicate Acceptable(plan: seq<BankPlan>, rows: seq<Row>)
    requires AllRowsFit(plan, rows)
  {
    forall bi :: 0 <= bi < |plan| ==> Sound(plan[bi], BuffersOf(plan[bi], Pick(plan, rows, bi)))
  }

  /** What a columnar read of these events must return: their columns, or the error. */
  ghost function Assembled(plan: seq<BankPlan>, rows: seq<Row>): (r: Option<seq<Buffers>>)
    requires AllRowsFit(plan, rows)
  {
    if Acceptable(plan, rows) then
      Some(seq(|plan|, bi requires 0 <= bi < |plan| => BuffersOf(plan[bi], Pick(plan, rows, bi))))
    else None
  }

  /** With no bank planned there is nothing to assemble, and no way to fail. */
  lemma NothingPlanned(plan: seq<BankPlan>, rows: seq<Row>)
    requires plan == [] && AllRowsFit(plan, rows)
    ensures Assembled(plan, rows) == Some([])
  {
    assert Acceptable(plan, rows);
    assert Assembled(plan, rows).value == [];
  }

  lemma OffsetsSnoc(rows: seq<nat>, x: nat)
    ensures Offsets(rows + [x]) == Offsets(rows) + [Sum(rows) + x]
  {
    hide Sum;
    SumSnoc(rows, x);
    assert forall k :: 0 <= k <= |rows| ==> (rows + [x])[..k] == rows[..k];
    assert (rows + [x])[..|rows| + 1] == rows + [x];
  }

  lemma FilledAppend(bp: BankPlan, a: seq<Option<Bank>>, b: seq<Option<Bank>>)
    requires AllFit(bp, a) && AllFit(bp, b)
    ensures AllFit(bp, a + b)
    ensures FilledChunk(bp, a + b).rowCounts == FilledChunk(bp, a).rowCounts + FilledChunk(bp, b).rowCounts
    ensures forall ci :: 0 <= ci < |bp.cols| ==>
      FilledChunk(bp, a + b).columns[ci] == FilledChunk(bp, a).columns[ci] + FilledChunk(bp, b).columns[ci]
  {
    hide Flatten, CellsFor, Fits, CellsOf, LaidOut;
    assert RowsOf(a + b) == RowsOf(a) + RowsOf(b);
    forall ci | 0 <= ci < |bp.cols|
      ensures Flatten(CellsOf(bp, a + b, bp.cols[ci]))
        == Flatten(CellsOf(bp, a, bp.cols[ci])) + Flatten(CellsOf(bp, b, bp.cols[ci]))
    {
      CellsAppend(bp, a, b, bp.cols[ci]);
    }
  }

  lemma CellsAppend(bp: BankPlan, a: seq<Option<Bank>>, b: seq<Option<Bank>>, c: nat)
    requires AllFit(bp, a) && AllFit(bp, b) && AllFit(bp, a + b) && c < |bp.schema.entries|
    ensures Flatten(CellsOf(bp, a + b, c)) == Flatten(CellsOf(bp, a, c)) + Flatten(CellsOf(bp, b, c))
  {
    hide Flatten, CellsFor, Fits, LaidOut;
    assert CellsOf(bp, a + b, c) == CellsOf(bp, a, c) + CellsOf(bp, b, c);
    FlattenAppend(CellsOf(bp, a, c), CellsOf(bp, b, c));
  }

  /** The running total, one event at a time. */
  method AppendOffsets(offsets: seq<nat>, running: nat, counts: seq<nat>, ghost rows: seq<nat>)
    returns (grown: seq<nat>, total: nat)
    requires offsets == Offsets(rows) && running == Sum(rows)
    ensures grown == Offsets(rows + counts) && total == Sum(rows + counts)
  {
    hide Sum, Offsets;
    grown, total := offsets, running;
    assert rows + counts[..0] == rows;
    for k := 0 to |counts|
      invariant total == Sum(rows + counts[..k]) && grown == Offsets(rows + counts[..k])
    {
      OffsetsSnoc(rows + counts[..k], counts[k]);
      SumSnoc(rows + counts[..k], counts[k]);
      assert rows + counts[..k + 1] == rows + counts[..k] + [counts[k]];
      total := total + counts[k];
      grown := grown + [total];
    }
    assert counts[..|counts|] == counts;
  }

  /** One record's chunk onto one bank's buffers: the counts one by one, the columns whole. */
  method AppendChunk(bp: BankPlan, ob: Buffers, running: nat, bc: Chunk, ghost a: seq<Option<Bank>>,
      ghost b: seq<Option<Bank>>)
    returns (grown: Buffers, total: nat)
    requires AllFit(bp, a) && AllFit(bp, b)
    requires ob == BuffersOf(bp, a) && running == Sum(FilledChunk(bp, a).rowCounts) && bc == FilledChunk(bp, b)
    ensures AllFit(bp, a + b)
    ensures grown == BuffersOf(bp, a + b) && total == Sum(FilledChunk(bp, a + b).rowCounts)
  {
    FilledAppend(bp, a, b);
    hide FilledChunk, AllFit, Sum, Offsets;
    var offsets, sum := AppendOffsets(ob.offsets, running, bc.rowCounts, FilledChunk(bp, a).rowCounts);
    var columns := seq(|bp.cols|, ci requires 0 <= ci < |bp.cols| => ob.columns[ci] + bc.columns[ci]);
    assert columns == FilledChunk(bp, a + b).columns;
    grown, total := Buffers(offsets, columns), sum;
  }

  lemma PickAppend(plan: seq<BankPlan>, a: seq<Row>, b: seq<Row>, bi: nat)
    requires AllRowsFit(plan, a) && AllRowsFit(plan, b) && bi < |plan|
    ensures AllRowsFit(plan, a + b) && Pick(plan, a + b, bi) == Pick(plan, a, bi) + Pick(plan, b, bi)
  {
    hide RowFits;
    assert forall k :: 0 <= k < |a + b| ==> (a + b)[k] == if k < |a| then a[k] else b[k - |a|];
  }

  ghost predicate Pieces(plan: seq<BankPlan>, chunks: seq<seq<Chunk>>, groups: seq<seq<Row>>)
  {
    && |chunks| == |groups|
    && forall j :: 0 <= j < |groups| ==> AllRowsFit(plan, groups[j]) && chunks[j] == ChunkOf(plan, groups[j])
  }

  /** The buffers and running totals hold what `rows` contributed. */
  ghost predicate Holding(plan: seq<BankPlan>, rows: seq<Row>, out: seq<Buffers>, running: seq<nat>)
    requires AllRowsFit(plan, rows)
  {
    && |out| == |running| == |plan|
    && forall bi :: 0 <= bi < |plan| ==> HoldingBank(plan[bi], Pick(plan, rows, bi), out[bi], running[bi])
  }

  ghost predicate HoldingBank(bp: BankPlan, banks: seq<Option<Bank>>, ob: Buffers, total: nat)
    requires AllFit(bp, banks)
  {
    ob == BuffersOf(bp, banks) && total == Sum(FilledChunk(bp, banks).rowCounts)
  }

  /** One record's chunk onto the buffers of every bank. */
  method AppendRecord(plan: seq<BankPlan>, out: seq<Buffers>, running: seq<nat>, chunk: seq<Chunk>, ghost a: seq<Row>,
      ghost b: seq<Row>)
    returns (grown: seq<Buffers>, totals: seq<nat>)
    requires AllRowsFit(plan, a) && AllRowsFit(plan, b) && Holding(plan, a, out, running) && chunk == ChunkOf(plan, b)
    ensures AllRowsFit(plan, a + b) && Holding(plan, a + b, grown, totals)
  {
    hide AllRowsFit, BuffersOf, FilledChunk, Sum, Pick, BankPlan.Valid;
    grown, totals := out, running;
    assert AllRowsFit(plan, a + b) by { AllRowsFitAppend(plan, a, b); }
    for bi := 0 to |plan|
      invariant |grown| == |totals| == |plan|
      invariant forall i :: 0 <= i < bi ==> HoldingBank(plan[i], Pick(plan, a + b, i), grown[i], totals[i])
      invariant forall i :: bi <= i < |plan| ==> HoldingBank(plan[i], Pick(plan, a, i), grown[i], totals[i])
    {
      var ob, total := AppendChunk(plan[bi], grown[bi], totals[bi], chunk[bi], Pick(plan, a, bi), Pick(plan, b, bi));
      PickAppend(plan, a, b, bi);
      grown, totals := grown[bi := ob], totals[bi := total];
    }
  }

  lemma AllRowsFitAppend(plan: seq<BankPlan>, a: seq<Row>, b: seq<Row>)
    requires AllRowsFit(plan, a) && AllRowsFit(plan, b)
    ensures AllRowsFit(plan, a + b)
  {
    hide RowFits;
  }

  /** `merge_chunks`: however the events are spread over chunks, the result is theirs in order;
      and it fails exactly when the totals of some column do not match. */
  method MergeChunks(plan: seq<BankPlan>, chunks: seq<seq<Chunk>>, ghost groups: seq<seq<Row>>)
    returns (r: Option<seq<Buffers>>)
    requires AllRowsFit(plan, []) && Pieces(plan, chunks, groups)
    ensures AllRowsFit(plan, Flatten(groups)) && r == Assembled(plan, Flatten(groups))
  {
    hide Flatten, AllRowsFit, BuffersOf, Sum, Pick, ChunkOf;
    var out := seq(|plan|, bi requires 0 <= bi < |plan| => Buffers([0], seq(|plan[bi].cols|, ci => [])));
    var running := seq(|plan|, bi => 0);
    StartEmpty(plan, out, running);
    for j := 0 to |chunks|
      invariant AllRowsFit(plan, Flatten(groups[..j])) && Holding(plan, Flatten(groups[..j]), out, running)
    {
      assert groups[..j + 1] == groups[..j] + [groups[j]];
      FlattenSnoc(groups[..j], groups[j]);
      out, running := AppendRecord(plan, out, running, chunks[j], Flatten(groups[..j]), groups[j]);
    }
    assert groups[..|chunks|] == groups;
    ghost var rows := Flatten(groups);
    var sound := CheckAll(plan, out, rows, running);
    if !sound {
      return None;
    }
    HoldingAll(plan, rows, out, running);
    return Some(out);
  }

  lemma StartEmpty(plan: seq<BankPlan>, out: seq<Buffers>, running: seq<nat>)
    requires AllRowsFit(plan, [])
    requires out == seq(|plan|, bi requires 0 <= bi < |plan| => Buffers([0], seq(|plan[bi].cols|, ci => [])))
    requires running == seq(|plan|, bi => 0)
    ensures Flatten<Row>([]) == [] && Holding(plan, [], out, running)
  {
    forall bi | 0 <= bi < |plan|
      ensures HoldingBank(plan[bi], Pick(plan, [], bi), out[bi], running[bi])
    {
      var bp := plan[bi];
      assert Pick(plan, [], bi) == [] && RowsOf([]) == [] && Offsets([]) == [0];
      assert forall ci :: 0 <= ci < |bp.cols| ==> CellsOf(bp, [], bp.cols[ci]) == [];
      assert out[bi].columns == FilledChunk(bp, []).columns;
    }
  }

  lemma HoldingAll(plan: seq<BankPlan>, rows: seq<Row>, out: seq<Buffers>, running: seq<nat>)
    requires AllRowsFit(plan, rows) && Holding(plan, rows, out, running)
    ensures out == seq(|plan|, bi requires 0 <= bi < |plan| => BuffersOf(plan[bi], Pick(plan, rows, bi)))
  {
    hide AllRowsFit, BuffersOf, Sum, Pick;
  }

  method CheckAll(plan: seq<BankPlan>, out: seq<Buffers>, ghost rows: seq<Row>, ghost running: seq<nat>)
    returns (sound: bool)
    requires AllRowsFit(plan, rows) && Holding(plan, rows, out, running)
    ensures sound == Acceptable(plan, rows)
  {
    hide BuffersOf, Sum, Pick, LaidOut;
    for bi := 0 to |plan|
      invariant forall i :: 0 <= i < bi ==> Sound(plan[i], BuffersOf(plan[i], Pick(plan, rows, i)))
    {
      assert HoldingBank(plan[bi], Pick(plan, rows, bi), out[bi], running[bi]);
      if !Sound(plan[bi], out[bi]) {
        return false;
      }
    }
    return true;
  }
}
