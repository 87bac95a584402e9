/** Reading columns at a list of event numbers: the replay through `event`, the ordered groups and
    the scattered slots all give the same answer (src/read/columns.rs). */
module ColumnReads {
  import opened Bytes
  import opened Events
  import opened Schemas
  import opened Dictionaries
  import opened Records
  import opened Banks
  import opened EventIters
  import opened Columns

  datatype ReadError = CorruptBank

  // ---- One event's bank -----------------------------------------------------

  /** `OwnedEvent::bank`: a bank that cannot be read is reported as absent. */
  function EventBank(s: Schema, ev: EventValue): (r: Option<Bank>)
    requires ev.SplitEvent? ==> ev.split.Valid() && ev.split.Dir().Valid() && ev.e < ev.split.Dir().Events()
  {
    match ev
    case BlobEvent(bytes) =>
      (match FirstWith(Structures(bytes), SchemaId(s))
       case None => None
       case Some(st) => NewBank(s, st.data))
    case SplitEvent(split, e) =>
      var at := IndexOf(split.Dir().descriptors, SchemaId(s));
      if at.None? || !split.Dir().Has(e, at.value) then None
      else
        match split
        case OfBanks(rec) => (match rec.Extent(e, at.value) case None => None case Some(raw) => NewBank(s, raw))
        case OfColumns(rec) =>
          if rec.Opaque(at.value) then (match rec.Extent(e, at.value) case None => None case Some(raw) => NewBank(s, raw))
          else Some(NewPerColumn(s, rec, at.value, e))
  }

  /** What the grouped readers make of the same bank: a stream that does not inflate or a bank of
      broken rows is an error, and a per-column bank is never checked for being opaque or absent. */
  function GroupedBank(s: Schema, c: Content, e: nat): (r: Result<Option<Bank>, ReadError>)
    requires c.Valid()
  {
    match c
    case Blob(_, _, _) =>
      if e >= c.Count() then Ok(None)
      else
        (match FirstWith(Structures(EventAt(c, e).bytes), SchemaId(s))
         case None => Ok(None)
         case Some(st) => OrCorrupt(NewBank(s, st.data)))
    case OfSplit(split) =>
      var at := IndexOf(split.Dir().descriptors, SchemaId(s));
      if at.None? || e >= c.Count() then Ok(None)
      else
        match split
        case OfBanks(rec) =>
          if !rec.dir.Has(e, at.value) then Ok(None)
          else if rec.streams[at.value].None? then Err(CorruptBank)
          else (match rec.Extent(e, at.value) case None => Ok(None) case Some(raw) => OrCorrupt(NewBank(s, raw)))
        case OfColumns(rec) => Ok(Some(NewPerColumn(s, rec, at.value, e)))
  }

  function OrCorrupt(bank: Option<Bank>): Result<Option<Bank>, ReadError>
  {
    if bank.Some? then Ok(bank) else Err(CorruptBank)
  }

  /** Two banks that contribute the same rows and the same bytes of the columns asked for. */
  ghost predicate Alike(bp: BankPlan, a: Option<Bank>, b: Option<Bank>)
    requires bp.Valid() && Fits(bp, a) && Fits(bp, b)
  {
    RowsFor(a) == RowsFor(b) && forall ci :: 0 <= ci < |bp.cols| ==>
      CellsFor(bp, a, bp.cols[ci]) == CellsFor(bp, b, bp.cols[ci])
  }

  /** The one stream of an opaque bank, read as if it were column 0. */
  function AsColumn(s: Schema, rec: PerColumnRecord, b: nat, e: nat): seq<byte>
    requires rec.Valid() && rec.dir.Holds(e, b) && |s.entries| > 0
  {
    var column := s.entries[0];
    match rec.streams[b][0]
    case None => []
    case Some(stream) => Window(stream, column.Span(RowsIn(rec.dir.Offset(e, b), s.rowSize)), column.Span(RowsIn(rec.dir.Size(e, b), s.rowSize)))
  }

  /** The rows of an opaque bank read right: the bank is whole rows, no column but the first is asked
      for, and that one happens to lie where the bank's own first column does. */
  predicate ReadsRight(bp: BankPlan, rec: PerColumnRecord, b: nat, e: nat)
    requires rec.Valid() && rec.dir.Holds(e, b)
  {
    && rec.Extent(e, b).Some? && bp.schema.rowSize > 0 && rec.dir.Size(e, b) % bp.schema.rowSize as int == 0
    && forall ci :: 0 <= ci < |bp.cols| ==> bp.cols[ci] == 0 && FirstInPlace(bp.schema, rec, b, e)
  }

  predicate FirstInPlace(s: Schema, rec: PerColumnRecord, b: nat, e: nat)
    requires rec.Valid() && rec.dir.Holds(e, b) && rec.Extent(e, b).Some?
  {
    |s.entries| > 0 && AsColumn(s, rec, b, e) == Window(rec.Extent(e, b).value, 0, s.entries[0].Span(RowsIn(rec.dir.Size(e, b), s.rowSize)))
  }

  /** What the grouped reader makes of a bank of a per-column record is what the event holds: the
      bank has no row; or the event carries it, and its columns are stored or happen to read right. */
  predicate Regular(bp: BankPlan, c: Content, e: nat)
    requires c.Valid()
  {
    c.OfSplit? && c.split.OfColumns? && e < c.Count() ==>
      var rec, at := c.split.columns, IndexOf(c.split.Dir().descriptors, SchemaId(bp.schema));
      at.Some? && RowsIn(rec.dir.Size(e, at.value), bp.schema.rowSize) > 0 ==>
        rec.dir.Has(e, at.value) && (rec.Opaque(at.value) ==> ReadsRight(bp, rec, at.value, e))
  }

  ghost predicate Planned(bp: BankPlan)
  {
    bp.Valid() && Exact(bp.schema)
  }

  lemma ExactBankValid(s: Schema, data: seq<byte>)
    requires Exact(s)
    ensures NewBank(s, data).Some? ==> NewBank(s, data).value.Valid() && NewBank(s, data).value.schema == s
  {
    if s.rowSize > 0 && |data| % s.rowSize == 0 {
      hide Exact, LaidOut;
      Arith.DivExact(|data|, s.rowSize);
    }
  }

  lemma EventBankFits(bp: BankPlan, ev: EventValue)
    requires ev.SplitEvent? ==> ev.split.Valid() && ev.split.Dir().Valid() && ev.e < ev.split.Dir().Events()
    requires Planned(bp)
    ensures Fits(bp, EventBank(bp.schema, ev))
  {
    hide NewBank, Exact, LaidOut, Directory.Valid, Structures;
    forall data: seq<byte>
      ensures NewBank(bp.schema, data).Some? ==>
        NewBank(bp.schema, data).value.Valid() && NewBank(bp.schema, data).value.schema == bp.schema
    {
      ExactBankValid(bp.schema, data);
    }
  }

  lemma GroupedBankFits(bp: BankPlan, c: Content, e: nat)
    requires c.Valid() && Planned(bp)
    ensures GroupedBank(bp.schema, c, e).Ok? ==> Fits(bp, GroupedBank(bp.schema, c, e).value)
  {
    hide NewBank, Exact, LaidOut, Directory.Valid, Structures, EventAt;
    forall data: seq<byte>
      ensures NewBank(bp.schema, data).Some? ==>
        NewBank(bp.schema, data).value.Valid() && NewBank(bp.schema, data).value.schema == bp.schema
    {
      ExactBankValid(bp.schema, data);
    }
  }

  /** Where the grouped reader does not fail, it contributes what the event itself holds exactly on
      regular banks. */
  lemma ReadersAgree(bp: BankPlan, c: Content, e: nat)
    requires c.Valid() && Planned(bp) && e < c.Count() && GroupedBank(bp.schema, c, e).Ok?
    ensures Fits(bp, GroupedBank(bp.schema, c, e).value) && Fits(bp, EventBank(bp.schema, EventAt(c, e)))
    ensures Alike(bp, GroupedBank(bp.schema, c, e).value, EventBank(bp.schema, EventAt(c, e))) <==> Regular(bp, c, e)
  {
    GroupedBankFits(bp, c, e);
    EventBankFits(bp, EventAt(c, e));
    hide NewBank, Exact, LaidOut, Directory.Valid, Structures, Entry.Span, Alike;
    var ours, theirs := GroupedBank(bp.schema, c, e).value, EventBank(bp.schema, EventAt(c, e));
    if c.OfSplit? && c.split.OfColumns? {
      var at := IndexOf(c.split.Dir().descriptors, SchemaId(bp.schema));
      if at.Some? {
        PerColumnAlike(bp, c.split.columns, at.value, e);
      } else {
        SameBankAlike(bp, ours);
      }
    } else {
      SameBankAlike(bp, ours);
    }
  }

  lemma SameBankAlike(bp: BankPlan, bank: Option<Bank>)
    requires bp.Valid() && Fits(bp, bank)
    ensures Alike(bp, bank, bank)
  {
  }

  /** The event's own reading of a bank of a per-column record. */
  function OwnBank(s: Schema, rec: PerColumnRecord, b: nat, e: nat): Option<Bank>
    requires rec.Valid() && rec.dir.Valid() && rec.dir.Holds(e, b)
  {
    if !rec.dir.Has(e, b) then None
    else if rec.Opaque(b) then (match rec.Extent(e, b) case None => None case Some(raw) => NewBank(s, raw))
    else Some(NewPerColumn(s, rec, b, e))
  }

  lemma PerColumnAlike(bp: BankPlan, rec: PerColumnRecord, b: nat, e: nat)
    requires rec.Valid() && rec.dir.Valid() && rec.dir.Holds(e, b) && Planned(bp)
    requires Fits(bp, Some(NewPerColumn(bp.schema, rec, b, e))) && Fits(bp, OwnBank(bp.schema, rec, b, e))
    ensures
      Alike(bp, Some(NewPerColumn(bp.schema, rec, b, e)), OwnBank(bp.schema, rec, b, e)) <==>
        (RowsIn(rec.dir.Size(e, b), bp.schema.rowSize) > 0 ==>
           rec.dir.Has(e, b) && (rec.Opaque(b) ==> ReadsRight(bp, rec, b, e)))
  {
    hide ReadsRight, NewBank, Exact, LaidOut, Directory.Valid, Entry.Span, Alike, Bank.Valid, PerColumnRecord.Valid,
         PerColumnRecord.Extent;
    var view, own := NewPerColumn(bp.schema, rec, b, e), OwnBank(bp.schema, rec, b, e);
    if view.rows == 0 {
      NoRowsAlike(bp, rec, b, e);
    } else if !rec.dir.Has(e, b) {
      UnequalRows(bp, Some(view), own);
    } else if rec.Opaque(b) {
      OpaqueAlike(bp, rec, b, e);
    } else {
      SameBankAlike(bp, Some(view));
    }
  }

  lemma UnequalRows(bp: BankPlan, a: Option<Bank>, b: Option<Bank>)
    requires bp.Valid() && Fits(bp, a) && Fits(bp, b) && RowsFor(a) != RowsFor(b)
    ensures !Alike(bp, a, b)
  {
  }

  /** Without a row there is nothing to read either way. */
  lemma NoRowsAlike(bp: BankPlan, rec: PerColumnRecord, b: nat, e: nat)
    requires rec.Valid() && rec.dir.Valid() && rec.dir.Holds(e, b) && Planned(bp)
    requires RowsIn(rec.dir.Size(e, b), bp.schema.rowSize) == 0
    requires Fits(bp, Some(NewPerColumn(bp.schema, rec, b, e))) && Fits(bp, OwnBank(bp.schema, rec, b, e))
    ensures Alike(bp, Some(NewPerColumn(bp.schema, rec, b, e)), OwnBank(bp.schema, rec, b, e))
  {
    var own := OwnBank(bp.schema, rec, b, e);
    if own.Some? {
      assert own.value.rows == 0 by {
        if rec.Opaque(b) {
          ExtentSize(rec, b, e);
        }
      }
    }
    hide Exact, LaidOut, Entry.Width, OwnBank;
    forall ci | 0 <= ci < |bp.cols|
      ensures CellsFor(bp, Some(NewPerColumn(bp.schema, rec, b, e)), bp.cols[ci]) == []
        == CellsFor(bp, own, bp.cols[ci])
    {
      var c := bp.cols[ci];
      Arith.MulPositive(0, bp.schema.entries[c].Width());
      Arith.MulPositive(0, bp.schema.entries[c].rowOffset);
    }
  }

  lemma ExtentSize(rec: PerColumnRecord, b: nat, e: nat)
    requires rec.Valid() && rec.dir.Valid() && rec.dir.Holds(e, b)
    ensures rec.Extent(e, b).Some? ==> |rec.Extent(e, b).value| == rec.dir.Size(e, b)
  {
  }

  /** An opaque bank with rows is what the event holds exactly when it happens to read right. */
  lemma OpaqueAlike(bp: BankPlan, rec: PerColumnRecord, b: nat, e: nat)
    requires rec.Valid() && rec.dir.Valid() && rec.dir.Holds(e, b) && Planned(bp) && rec.Opaque(b) && rec.dir.Has(e, b)
    requires RowsIn(rec.dir.Size(e, b), bp.schema.rowSize) > 0
    requires Fits(bp, Some(NewPerColumn(bp.schema, rec, b, e))) && Fits(bp, OwnBank(bp.schema, rec, b, e))
    ensures Alike(bp, Some(NewPerColumn(bp.schema, rec, b, e)), OwnBank(bp.schema, rec, b, e)) <==>
      ReadsRight(bp, rec, b, e)
  {
    ExtentSize(rec, b, e);
    var view, own := NewPerColumn(bp.schema, rec, b, e), OwnBank(bp.schema, rec, b, e);
    hide Exact, LaidOut, Directory.Valid, Entry.Span, Alike, Bank.Valid, AsColumn;
    if own.None? {
      UnequalRows(bp, Some(view), own);
    } else {
      ColumnsDecide(bp, rec, b, e, own.value);
    }
  }

  lemma ColumnsDecide(bp: BankPlan, rec: PerColumnRecord, b: nat, e: nat, own: Bank)
    requires rec.Valid() && rec.dir.Valid() && rec.dir.Holds(e, b) && Planned(bp) && rec.Opaque(b)
    requires rec.Extent(e, b).Some? && own == Contiguous(bp.schema, rec.Extent(e, b).value, own.rows) && own.rows > 0
    requires own.rows == RowsIn(rec.dir.Size(e, b), bp.schema.rowSize)
    requires bp.schema.rowSize > 0 && rec.dir.Size(e, b) % bp.schema.rowSize as int == 0
    requires Fits(bp, Some(NewPerColumn(bp.schema, rec, b, e))) && Fits(bp, Some(own))
    ensures Alike(bp, Some(NewPerColumn(bp.schema, rec, b, e)), Some(own)) <==> ReadsRight(bp, rec, b, e)
  {
    hide CellsFor, FirstInPlace, Exact, LaidOut, Entry.Span, Directory.Valid, RowsIn, Bank.Valid, NewPerColumn,
         AsColumn;
    forall ci | 0 <= ci < |bp.cols|
      ensures CellsFor(bp, Some(NewPerColumn(bp.schema, rec, b, e)), bp.cols[ci]) == CellsFor(bp, Some(own), bp.cols[ci])
              <==> bp.cols[ci] == 0 && FirstInPlace(bp.schema, rec, b, e)
    {
      ColumnDecides(bp, rec, b, e, own, bp.cols[ci]);
    }
    assert RowsFor(Some(NewPerColumn(bp.schema, rec, b, e))) == RowsFor(Some(own)) by {
      ViewRows(bp.schema, rec, b, e);
    }
  }

  lemma ViewRows(s: Schema, rec: PerColumnRecord, b: nat, e: nat)
    requires rec.Valid() && rec.dir.Holds(e, b)
    ensures NewPerColumn(s, rec, b, e).rows == RowsIn(rec.dir.Size(e, b), s.rowSize)
  {
  }

  lemma ColumnDecides(bp: BankPlan, rec: PerColumnRecord, b: nat, e: nat, own: Bank, c: nat)
    requires rec.Valid() && rec.dir.Valid() && rec.dir.Holds(e, b) && Planned(bp) && rec.Opaque(b) && c < |bp.schema.entries|
    requires rec.Extent(e, b).Some? && own == Contiguous(bp.schema, rec.Extent(e, b).value, own.rows) && own.rows > 0
    requires own.rows == RowsIn(rec.dir.Size(e, b), bp.schema.rowSize)
    requires Fits(bp, Some(NewPerColumn(bp.schema, rec, b, e))) && Fits(bp, Some(own))
    ensures CellsFor(bp, Some(NewPerColumn(bp.schema, rec, b, e)), c) == CellsFor(bp, Some(own), c)
            <==> c == 0 && FirstInPlace(bp.schema, rec, b, e)
  {
    hide CellsFor, Exact, LaidOut, Entry.Span, Directory.Valid, Bank.Valid, NewPerColumn, AsColumn;
    if c == 0 {
      FirstColumn(bp, rec, b, e, own);
    } else {
      LaterColumnLost(bp, rec, b, e, own, c);
    }
  }

  /** The one stream of an opaque bank is column 0 to the grouped reader: any other comes out empty. */
  lemma LaterColumnLost(bp: BankPlan, rec: PerColumnRecord, b: nat, e: nat, own: Bank, c: nat)
    requires rec.Valid() && rec.dir.Valid() && rec.dir.Holds(e, b) && Planned(bp) && rec.Opaque(b) && 0 < c < |bp.schema.entries|
    requires own.Contiguous? && own.rows > 0 && own.rows == RowsIn(rec.dir.Size(e, b), bp.schema.rowSize)
    requires Fits(bp, Some(NewPerColumn(bp.schema, rec, b, e))) && Fits(bp, Some(own))
    ensures CellsFor(bp, Some(NewPerColumn(bp.schema, rec, b, e)), c) == [] != CellsFor(bp, Some(own), c)
  {
    assert Max(1, rec.numCols[b]) == 1 && rec.Stream(b, c) == None;
    ContiguousInside(own, c);
    WidthPositive(bp.schema.entries[c]);
    hide LaidOut, Exact, Entry.Width;
    Arith.MulPositive(own.rows, bp.schema.entries[c].Width());
    var view := NewPerColumn(bp.schema, rec, b, e);
    assert CellsFor(bp, Some(view), c) == view.ColBytes(c) && CellsFor(bp, Some(own), c) == own.ColBytes(c);
  }

  lemma FirstColumn(bp: BankPlan, rec: PerColumnRecord, b: nat, e: nat, own: Bank)
    requires rec.Valid() && rec.dir.Valid() && rec.dir.Holds(e, b) && Planned(bp) && rec.Opaque(b)
    requires |bp.schema.entries| > 0
    requires own.Contiguous? && own.rows > 0 && own.rows == RowsIn(rec.dir.Size(e, b), bp.schema.rowSize)
    requires Fits(bp, Some(NewPerColumn(bp.schema, rec, b, e))) && Fits(bp, Some(own))
    ensures CellsFor(bp, Some(NewPerColumn(bp.schema, rec, b, e)), 0) == AsColumn(bp.schema, rec, b, e)
    ensures CellsFor(bp, Some(own), 0) == Window(own.data, 0, bp.schema.entries[0].Span(own.rows))
  {
    OwnColumn(bp.schema, own);
    ViewColumn(bp.schema, rec, b, e);
    hide LaidOut, Exact, Entry.Span, AsColumn, PerColumnRecord.Valid, Directory.Valid, Bank.Valid,
         PerColumnRecord.Extent, Bank.ColBytes;
    var view := NewPerColumn(bp.schema, rec, b, e);
    assert CellsFor(bp, Some(view), 0) == view.ColBytes(0) && CellsFor(bp, Some(own), 0) == own.ColBytes(0);
  }

  lemma OwnColumn(s: Schema, own: Bank)
    requires own.Valid() && own.Contiguous? && own.schema == s && |s.entries| > 0 && own.rows > 0 && Exact(s)
    ensures own.ColBytes(0) == Window(own.data, 0, s.entries[0].Span(own.rows))
  {
    OffsetIsPrefix(s, 0);
    ContiguousInside(own, 0);
    hide LaidOut, Exact, Entry.Width;
    Arith.MulPositive(own.rows, 0);
  }

  lemma ViewColumn(s: Schema, rec: PerColumnRecord, b: nat, e: nat)
    requires rec.Valid() && rec.dir.Holds(e, b) && rec.Opaque(b) && RowsIn(rec.dir.Size(e, b), s.rowSize) > 0
    requires |s.entries| > 0 && LaidOut(s)
    ensures NewPerColumn(s, rec, b, e).ColBytes(0) == AsColumn(s, rec, b, e)
  {
    WidthPositive(s.entries[0]);
    hide Entry.Width, Directory.Valid;
    var rows := RowsIn(rec.dir.Size(e, b), s.rowSize);
    assert Max(1, rec.numCols[b]) == 1;
    assert rec.Stream(b, 0) == rec.streams[b][0];
    Arith.MulPositive(rows, s.entries[0].Width());
    hide RowsIn;
  }

  /** The two readers differ on damage, always: where the grouped reader reports an error, the
      replay reports a bank that is not there. */
  lemma ErrorsReadAsAbsent(s: Schema, c: Content, e: nat)
    requires c.Valid() && e < c.Count() && GroupedBank(s, c, e).Err?
    ensures EventBank(s, EventAt(c, e)) == None
  {
    hide NewBank, Directory.Valid, Structures;
  }

  /** An opaque bank, wherever it has a row, when a column other than the first is asked for: what is
      grouped is never what the event holds, and that column comes out empty. */
  lemma OpaqueMisread(bp: BankPlan, c: Content, e: nat, ci: nat)
    requires c.Valid() && Planned(bp) && e < c.Count() && c.OfSplit? && c.split.OfColumns?
    requires ci < |bp.cols| && bp.cols[ci] > 0
    requires IndexOf(c.split.Dir().descriptors, SchemaId(bp.schema)).Some?
    requires
      var at := IndexOf(c.split.Dir().descriptors, SchemaId(bp.schema)).value;
      c.split.columns.Opaque(at) && RowsIn(c.split.Dir().Size(e, at), bp.schema.rowSize) > 0
    ensures GroupedBank(bp.schema, c, e).Ok? && GroupedBank(bp.schema, c, e).value.Some?
    ensures Fits(bp, GroupedBank(bp.schema, c, e).value) && Fits(bp, EventBank(bp.schema, EventAt(c, e)))
    ensures !Alike(bp, GroupedBank(bp.schema, c, e).value, EventBank(bp.schema, EventAt(c, e)))
    ensures CellsFor(bp, GroupedBank(bp.schema, c, e).value, bp.cols[ci]) == []
  {
    ReadersAgree(bp, c, e);
    var rec, at := c.split.columns, IndexOf(c.split.Dir().descriptors, SchemaId(bp.schema)).value;
    hide Exact, LaidOut, Directory.Valid, Entry.Span, Alike;
    assert Max(1, rec.numCols[at]) == 1 && rec.Stream(at, bp.cols[ci]) == None;
  }

  // ---- Rows -----------------------------------------------------------------

  ghost predicate PlanOk(plan: seq<BankPlan>)
  {
    forall bi :: 0 <= bi < |plan| ==> Planned(plan[bi])
  }

  ghost predicate Proper(ev: EventValue)
  {
    ev.SplitEvent? ==> ev.split.Valid() && ev.split.Dir().Valid() && ev.e < ev.split.Dir().Events()
  }

  /** Every planned bank of an event; nothing for an index that resolves to no event. */
  function EventRow(plan: seq<BankPlan>, ev: Option<EventValue>): (r: Row)
    requires ev.Some? ==> Proper(ev.value)
    ensures |r| == |plan|
  {
    seq(|plan|, bi requires 0 <= bi < |plan| => if ev.Some? then EventBank(plan[bi].schema, ev.value) else None)
  }

  lemma EventRowFits(plan: seq<BankPlan>, ev: Option<EventValue>)
    requires PlanOk(plan) && (ev.Some? ==> Proper(ev.value))
    ensures RowFits(plan, EventRow(plan, ev))
  {
    hide EventBank, BankPlan.Valid, Exact, Bank.Valid, Proper;
    forall bi | 0 <= bi < |plan|
      ensures plan[bi].Valid() && Fits(plan[bi], EventRow(plan, ev)[bi])
    {
      assert Planned(plan[bi]);
      if ev.Some? {
        ProperMeans(ev.value);
        EventBankFits(plan[bi], ev.value);
      }
    }
  }

  lemma ProperMeans(ev: EventValue)
    requires Proper(ev)
    ensures ev.SplitEvent? ==> ev.split.Valid() && ev.split.Dir().Valid() && ev.e < ev.split.Dir().Events()
  {
  }

  ghost predicate GroupedOk(plan: seq<BankPlan>, c: Content, e: nat)
    requires c.Valid()
  {
    forall bi :: 0 <= bi < |plan| ==> GroupedBank(plan[bi].schema, c, e).Ok?
  }

  function GroupedRow(plan: seq<BankPlan>, c: Content, e: nat): (r: Row)
    requires c.Valid() && GroupedOk(plan, c, e)
    ensures |r| == |plan|
  {
    seq(|plan|, bi requires 0 <= bi < |plan| => GroupedBank(plan[bi].schema, c, e).value)
  }

  lemma GroupedRowFits(plan: seq<BankPlan>, c: Content, e: nat)
    requires PlanOk(plan) && c.Valid() && GroupedOk(plan, c, e)
    ensures RowFits(plan, GroupedRow(plan, c, e))
  {
    hide GroupedBank, BankPlan.Valid, Exact, Bank.Valid, Content.Valid;
    forall bi | 0 <= bi < |plan|
      ensures plan[bi].Valid() && Fits(plan[bi], GroupedRow(plan, c, e)[bi])
    {
      assert Planned(plan[bi]);
      GroupedBankFits(plan[bi], c, e);
    }
  }

  ghost predicate RowsAlike(plan: seq<BankPlan>, a: Row, b: Row)
  {
    && RowFits(plan, a) && RowFits(plan, b)
    && forall bi :: 0 <= bi < |plan| ==> AlikeAt(plan, a, b, bi)
  }

  ghost predicate AlikeAt(plan: seq<BankPlan>, a: Row, b: Row, bi: nat)
    requires RowFits(plan, a) && RowFits(plan, b) && bi < |plan|
  {
    Alike(plan[bi], a[bi], b[bi])
  }

  lemma AlikeFilled(bp: BankPlan, a: seq<Option<Bank>>, b: seq<Option<Bank>>)
    requires AllFit(bp, a) && AllFit(bp, b) && |a| == |b|
    requires forall k :: 0 <= k < |a| ==> Fits(bp, a[k]) && Fits(bp, b[k]) && Alike(bp, a[k], b[k])
    ensures FilledChunk(bp, a) == FilledChunk(bp, b)
  {
    hide Fits, RowsFor, CellsFor, LaidOut, Flatten;
    assert RowsOf(a) == RowsOf(b);
    forall ci | 0 <= ci < |bp.cols|
      ensures CellsOf(bp, a, bp.cols[ci]) == CellsOf(bp, b, bp.cols[ci])
    {
    }
  }

  /** Events that look alike assemble alike. */
  lemma AlikeAssembled(plan: seq<BankPlan>, a: seq<Row>, b: seq<Row>)
    requires AllRowsFit(plan, a) && AllRowsFit(plan, b) && |a| == |b|
    requires forall k :: 0 <= k < |a| ==> RowsAlike(plan, a[k], b[k])
    ensures Assembled(plan, a) == Assembled(plan, b)
  {
    hide FilledChunk, Alike, RowFits, Sound, LaidOut;
    forall bi | 0 <= bi < |plan|
      ensures BuffersOf(plan[bi], Pick(plan, a, bi)) == BuffersOf(plan[bi], Pick(plan, b, bi))
    {
      forall k | 0 <= k < |a|
        ensures Fits(plan[bi], Pick(plan, a, bi)[k]) && Fits(plan[bi], Pick(plan, b, bi)[k])
        ensures Alike(plan[bi], Pick(plan, a, bi)[k], Pick(plan, b, bi)[k])
      {
        assert RowsAlike(plan, a[k], b[k]) && AlikeAt(plan, a[k], b[k], bi);
      }
      AlikeFilled(plan[bi], Pick(plan, a, bi), Pick(plan, b, bi));
    }
    hide BuffersOf, Pick, AllRowsFit;
    if Acceptable(plan, a) {
      assert Assembled(plan, a).value == Assembled(plan, b).value;
    }
  }

  /** The grouped reader's row of an event against the event's own. */
  lemma GroupedRowAlike(plan: seq<BankPlan>, c: Content, e: nat)
    requires PlanOk(plan) && c.Valid() && e < c.Count() && GroupedOk(plan, c, e)
    requires forall bi :: 0 <= bi < |plan| ==> Regular(plan[bi], c, e)
    ensures Proper(EventAt(c, e)) && RowsAlike(plan, GroupedRow(plan, c, e), EventRow(plan, Some(EventAt(c, e))))
  {
    GroupedRowFits(plan, c, e);
    assert Proper(EventAt(c, e));
    EventRowFits(plan, Some(EventAt(c, e)));
    hide GroupedBank, EventBank, Regular, Planned, Alike, EventAt, Content.Valid, RowFits;
    var a, b := GroupedRow(plan, c, e), EventRow(plan, Some(EventAt(c, e)));
    forall bi | 0 <= bi < |plan|
      ensures AlikeAt(plan, a, b, bi)
    {
      assert Planned(plan[bi]);
      ReadersAgree(plan[bi], c, e);
      assert Regular(plan[bi], c, e);
    }
  }

  // ---- One record -----------------------------------------------------------

  lemma NoRowsFit(plan: seq<BankPlan>)
    requires PlanOk(plan)
    ensures AllRowsFit(plan, [])
  {
    hide BankPlan.Valid, Exact;
    forall bi | 0 <= bi < |plan|
      ensures plan[bi].Valid()
    {
      assert Planned(plan[bi]);
    }
  }

  lemma RowJoins(plan: seq<BankPlan>, rows: seq<Row>, row: Row)
    requires AllRowsFit(plan, rows) && RowFits(plan, row)
    ensures AllRowsFit(plan, rows + [row])
    ensures forall bi :: 0 <= bi < |plan| ==> Pick(plan, rows + [row], bi) == Pick(plan, rows, bi) + [row[bi]]
  {
    hide BankPlan.Valid, Fits;
    assert AllRowsFit(plan, [row]);
    AllRowsFitAppend(plan, rows, [row]);
    forall bi | 0 <= bi < |plan|
      ensures Pick(plan, rows + [row], bi) == Pick(plan, rows, bi) + [row[bi]]
    {
      PickAppend(plan, rows, [row], bi);
    }
  }

  /** One event onto every bank's chunk. */
  method PushRow(plan: seq<BankPlan>, chunk: seq<Chunk>, row: Row, ghost rows: seq<Row>) returns (r: seq<Chunk>)
    requires AllRowsFit(plan, rows) && RowFits(plan, row) && chunk == ChunkOf(plan, rows)
    ensures AllRowsFit(plan, rows + [row]) && r == ChunkOf(plan, rows + [row])
  {
    RowJoins(plan, rows, row);
    hide FilledChunk, Pick, BankPlan.Valid, Bank.Valid, AllRowsFit;
    r := chunk;
    for bi := 0 to |plan|
      invariant |r| == |plan|
      invariant forall i :: 0 <= i < bi ==> r[i] == FilledChunk(plan[i], Pick(plan, rows + [row], i))
      invariant forall i :: bi <= i < |plan| ==> r[i] == FilledChunk(plan[i], Pick(plan, rows, i))
    {
      var grown := PushEvent(r[bi], plan[bi], row[bi], Pick(plan, rows, bi));
      r := r[bi := grown];
    }
  }

  function EmptyChunk(bp: BankPlan): Chunk
  {
    Chunk([], seq(|bp.cols|, ci => []))
  }

  function EmptyRecord(plan: seq<BankPlan>): seq<Chunk>
  {
    seq(|plan|, bi requires 0 <= bi < |plan| => EmptyChunk(plan[bi]))
  }

  lemma EmptyIsNoRows(plan: seq<BankPlan>)
    requires AllRowsFit(plan, [])
    ensures EmptyRecord(plan) == ChunkOf(plan, [])
  {
    forall bi | 0 <= bi < |plan|
      ensures EmptyChunk(plan[bi]) == FilledChunk(plan[bi], Pick(plan, [], bi))
    {
      assert Pick(plan, [], bi) == [] && RowsOf([]) == [];
      assert forall ci :: 0 <= ci < |plan[bi].cols| ==> CellsOf(plan[bi], [], plan[bi].cols[ci]) == [];
    }
  }

  method ReadRow(plan: seq<BankPlan>, c: Content, e: nat) returns (r: Option<Row>)
    requires c.Valid()
    ensures r.Some? <==> GroupedOk(plan, c, e)
    ensures r.Some? ==> r.value == GroupedRow(plan, c, e)
  {
    hide GroupedBank, Content.Valid;
    var row: Row := [];
    for bi := 0 to |plan|
      invariant |row| == bi
      invariant forall i :: 0 <= i < bi ==> GroupedBank(plan[i].schema, c, e) == Ok(row[i])
    {
      match GroupedBank(plan[bi].schema, c, e) {
        case Ok(bank) => row := row + [bank];
        case Err(_) => return None;
      }
    }
    r := Some(row);
  }

  ghost predicate WantedOk(plan: seq<BankPlan>, c: Content, wanted: seq<(nat, nat)>)
    requires c.Valid()
  {
    forall i :: 0 <= i < |wanted| ==> GroupedOk(plan, c, wanted[i].1)
  }

  /** The rows of the wanted events, in the order wanted. */
  function WantedRows(plan: seq<BankPlan>, c: Content, wanted: seq<(nat, nat)>): (r: seq<Row>)
    requires c.Valid() && WantedOk(plan, c, wanted)
    ensures |r| == |wanted|
  {
    seq(|wanted|, i requires 0 <= i < |wanted| => GroupedRow(plan, c, wanted[i].1))
  }

  lemma WantedFit(plan: seq<BankPlan>, c: Content, wanted: seq<(nat, nat)>)
    requires PlanOk(plan) && c.Valid() && WantedOk(plan, c, wanted)
    ensures AllRowsFit(plan, WantedRows(plan, c, wanted))
    ensures forall i :: 0 <= i < |wanted| ==> AllRowsFit(plan, [WantedRows(plan, c, wanted)[i]])
  {
    hide GroupedOk, GroupedRow, RowFits, Content.Valid, PlanOk, BankPlan.Valid;
    NoRowsFit(plan);
    forall i | 0 <= i < |wanted|
      ensures RowFits(plan, WantedRows(plan, c, wanted)[i])
    {
      GroupedRowFits(plan, c, wanted[i].1);
    }
  }

  /** `made` is the entry's slot with a chunk of its one event. */
  ghost predicate EntryIs(plan: seq<BankPlan>, c: Content, entry: (nat, nat), made: (nat, seq<Chunk>))
    requires c.Valid()
  {
    && GroupedOk(plan, c, entry.1) && AllRowsFit(plan, [GroupedRow(plan, c, entry.1)])
    && made == (entry.0, ChunkOf(plan, [GroupedRow(plan, c, entry.1)]))
  }

  /** One accumulator emitted after every entry. */
  method CollectEntries(plan: seq<BankPlan>, c: Content, wanted: seq<(nat, nat)>)
    returns (r: Option<seq<(nat, seq<Chunk>)>>)
    requires PlanOk(plan) && c.Valid()
    ensures r.Some? <==> WantedOk(plan, c, wanted)
    ensures r.Some? ==> |r.value| == |wanted| && forall i :: 0 <= i < |wanted| ==>
      EntryIs(plan, c, wanted[i], r.value[i])
  {
    hide Content.Valid, GroupedOk, GroupedRow, RowFits, ChunkOf, EmptyRecord, AllRowsFit, PlanOk;
    NoRowsFit(plan);
    EmptyIsNoRows(plan);
    var out: seq<(nat, seq<Chunk>)> := [];
    for i := 0 to |wanted|
      invariant |out| == i
      invariant forall j :: 0 <= j < i ==> EntryIs(plan, c, wanted[j], out[j])
    {
      var row := ReadRow(plan, c, wanted[i].1);
      if row.None? {
        return None;
      }
      GroupedRowFits(plan, c, wanted[i].1);
      var banks := PushRow(plan, EmptyRecord(plan), row.value, []);
      assert [] + [row.value] == [row.value];
      out := out + [(wanted[i].0, banks)];
    }
    r := Some(out);
  }

  /** One accumulator emitted at the end. */
  method CollectWhole(plan: seq<BankPlan>, c: Content, wanted: seq<(nat, nat)>) returns (r: Option<seq<Chunk>>)
    requires PlanOk(plan) && c.Valid()
    ensures r.Some? <==> WantedOk(plan, c, wanted)
    ensures r.Some? ==>
      AllRowsFit(plan, WantedRows(plan, c, wanted)) && r.value == ChunkOf(plan, WantedRows(plan, c, wanted))
  {
    hide Content.Valid, GroupedOk, GroupedRow, RowFits, ChunkOf, EmptyRecord, AllRowsFit, PlanOk;
    NoRowsFit(plan);
    EmptyIsNoRows(plan);
    var banks := EmptyRecord(plan);
    for i := 0 to |wanted|
      invariant WantedOk(plan, c, wanted[..i]) && AllRowsFit(plan, WantedRows(plan, c, wanted[..i]))
      invariant banks == ChunkOf(plan, WantedRows(plan, c, wanted[..i]))
    {
      var row := ReadRow(plan, c, wanted[i].1);
      if row.None? {
        return None;
      }
      GroupedRowFits(plan, c, wanted[i].1);
      assert WantedRows(plan, c, wanted[..i + 1]) == WantedRows(plan, c, wanted[..i]) + [row.value];
      banks := PushRow(plan, banks, row.value, WantedRows(plan, c, wanted[..i]));
    }
    assert wanted[..|wanted|] == wanted;
    r := Some(banks);
  }

  /** What `process_record_entries` hands back: one chunk an entry, or one for the whole group. */
  ghost predicate RecordEntries(plan: seq<BankPlan>, c: Content, wanted: seq<(nat, nat)>, perEntry: bool,
      out: seq<(nat, seq<Chunk>)>)
    requires c.Valid()
  {
    && WantedOk(plan, c, wanted) && AllRowsFit(plan, WantedRows(plan, c, wanted))
    && (perEntry ==> |out| == |wanted| && forall i :: 0 <= i < |wanted| ==> EntryIs(plan, c, wanted[i], out[i]))
    && (!perEntry ==> out == if wanted == [] then [] else [(wanted[0].0, ChunkOf(plan, WantedRows(plan, c, wanted)))])
  }

  /** `process_record_entries`: the record is read once; the events come in the order wanted. */
  method ProcessRecordEntries(plan: seq<BankPlan>, stored: Stored, wanted: seq<(nat, nat)>, perEntry: bool)
    returns (r: Option<seq<(nat, seq<Chunk>)>>)
    requires PlanOk(plan) && (stored.Decoded? ==> stored.content.Valid())
    ensures r.Some? <==> stored.Decoded? && WantedOk(plan, stored.content, wanted)
    ensures r.Some? ==> RecordEntries(plan, stored.content, wanted, perEntry, r.value)
  {
    if !stored.Decoded? {
      return None;
    }
    hide WantedOk, WantedRows, Content.Valid, EntryIs, ChunkOf, AllRowsFit, PlanOk;
    if perEntry {
      r := CollectEntries(plan, stored.content, wanted);
      if r.Some? {
        WantedFit(plan, stored.content, wanted);
      }
    } else {
      var chunk := CollectWhole(plan, stored.content, wanted);
      if chunk.None? {
        return None;
      }
      r := Some(if wanted == [] then [] else [(wanted[0].0, chunk.value)]);
    }
  }
}
