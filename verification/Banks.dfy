/** Read-only banks over contiguous bytes or per-column streams (src/event/bank.rs). */
module Banks {
  import opened Arith
  import opened Bytes
  import opened Schemas
  import opened Records

  /** `s.get(at..at + len)`, empty when that runs past the end. */
  function Window(s: seq<byte>, at: nat, len: nat): (r: seq<byte>)
    ensures at + len <= |s| ==> |r| == len && r == s[at..at + len]
    ensures at + len > |s| ==> r == []
  {
    if at + len <= |s| then s[at..at + len] else []
  }

  /** Cell `row` of a column's bytes; empty where they do not reach. */
  function CellOf(column: seq<byte>, row: nat, width: nat): (r: seq<byte>)
  {
    Window(column, row * width, width)
  }

  /** Rows `cumRows..cumRows + rows` of a cross-event column stream. */
  function StreamBytes(stream: Option<seq<byte>>, column: Entry, cumRows: nat, rows: nat): (r: seq<byte>)
    ensures |r| == column.Span(rows) || r == []
  {
    match stream
    case Some(bytes) => Window(bytes, column.Span(cumRows), column.Span(rows))
    case None => []
  }

  /** Whole rows in `size` bytes; none when a row has no bytes. */
  function RowsIn(size: nat, rowSize: nat): nat
  {
    if rowSize == 0 then 0 else size / rowSize
  }

  datatype Bank =
    | Contiguous(schema: Schema, data: seq<byte>, rows: nat)
    | PerColumn(schema: Schema, rec: PerColumnRecord, b: nat, e: nat, rows: nat)
  {
    ghost predicate Valid()
    {
      && LaidOut(schema)
      && (rows == 0 || Exact(schema))
      && match this
         case Contiguous(_, data, _) => if schema.rowSize > 0 then |data| == rows * schema.rowSize else rows == 0
         case PerColumn(_, rec, b, e, _) =>
           rec.Valid() && rec.dir.Holds(e, b) && (schema.rowSize == 0 ==> rows == 0)
    }

    /** `Bank::col_bytes`. A contiguous column is always inside the data (ContiguousInside). */
    function ColBytes(c: nat): (r: seq<byte>)
      requires c < |schema.entries|
      requires PerColumn? ==> rec.Valid() && rec.dir.Holds(e, b)
    {
      var column := schema.entries[c];
      match this
      case Contiguous(_, data, _) => Window(data, column.Start(rows), column.Span(rows))
      case PerColumn(_, rec, b, e, _) =>
        if column.Span(rows) == 0 || schema.rowSize == 0 then []
        else StreamBytes(rec.Stream(b, c), column, RowsIn(rec.dir.Offset(e, b), schema.rowSize), rows)
    }

    /** One cell, as the typed accessors address it; empty when it is not there. */
    function Cell(c: nat, row: nat): (r: seq<byte>)
      requires c < |schema.entries|
      requires PerColumn? ==> rec.Valid() && rec.dir.Holds(e, b)
    {
      if row < rows then CellOf(ColBytes(c), row, schema.entries[c].Width()) else []
    }
  }

  /** Column `c` of `rows` whole rows lies inside the bank, between its neighbours. */
  lemma ColumnInside(s: Schema, rows: nat, c: nat)
    requires Exact(s) && c < |s.entries|
    ensures s.entries[c].rowOffset == RowPrefix(s.entries, c)
    ensures s.entries[c].Start(rows) == rows * RowPrefix(s.entries, c)
    ensures s.entries[c].Start(rows) + s.entries[c].Span(rows) == rows * RowPrefix(s.entries, c + 1) <= rows * s.rowSize
  {
    hide RowPrefix, Entry.Width, Exact, LaidOut;
    OffsetIsPrefix(s, c);
    var at, width := RowPrefix(s.entries, c), s.entries[c].Width();
    Distribute(rows, at, width);
    MulMonotone(rows, at + width, s.rowSize);
  }

  lemma OffsetIsPrefix(s: Schema, c: nat)
    requires Exact(s) && c < |s.entries|
    ensures s.entries[c].rowOffset == RowPrefix(s.entries, c)
    ensures RowPrefix(s.entries, c + 1) == RowPrefix(s.entries, c) + s.entries[c].Width() <= s.rowSize
  {
    assert InPlace(s.entries, c);
    hide Entry.Width, RowPrefix;
    RowPrefixStep(s.entries, c);
    RowPrefixMonotone(s.entries, c + 1, |s.entries|);
  }

  /** Reading a contiguous column never leaves the data: no panic, and no empty answer. */
  lemma ContiguousInside(k: Bank, c: nat)
    requires k.Valid() && k.Contiguous? && c < |k.schema.entries|
    ensures k.rows > 0 ==> k.schema.entries[c].Start(k.rows) + k.schema.entries[c].Span(k.rows) <= |k.data|
    ensures |k.ColBytes(c)| == k.schema.entries[c].Span(k.rows)
  {
    hide Entry.Width, LaidOut, Exact;
    if k.rows > 0 {
      ColumnInside(k.schema, k.rows, c);
    } else {
      MulPositive(k.rows, k.schema.entries[c].Width());
      MulPositive(k.rows, k.schema.entries[c].rowOffset);
    }
  }

  /** A per-column read is the whole column or nothing, never part of it. */
  lemma FullOrEmpty(k: Bank, c: nat)
    requires k.Valid() && c < |k.schema.entries|
    ensures |k.ColBytes(c)| == k.schema.entries[c].Span(k.rows) || k.ColBytes(c) == []
  {
    if k.Contiguous? {
      ContiguousInside(k, c);
    }
  }

  /** Fewer than 2^24 bytes of a saturated schema is no row at all. */
  lemma WholeRows(s: Schema, size: nat)
    requires LaidOut(s) && s.rowSize > 0 && size < U24_LIMIT
    ensures size / s.rowSize == 0 || Exact(s)
    ensures size % s.rowSize == 0 ==> size == size / s.rowSize * s.rowSize
  {
    if size % s.rowSize == 0 {
      DivExact(size, s.rowSize);
    }
    if RowWidth(s.entries) > U32_MAX {
      DivSmall(size, s.rowSize);
    }
  }

  /** `Bank::new`. A schema without bytes reads any data as no rows. */
  function NewBank(s: Schema, data: seq<byte>): (r: Option<Bank>)
  {
    if s.rowSize == 0 then Some(Contiguous(s, data, 0))
    else if |data| % s.rowSize != 0 then None
    else Some(Contiguous(s, data, RowsIn(|data|, s.rowSize)))
  }

  lemma NewBankValid(s: Schema, data: seq<byte>)
    requires LaidOut(s) && |data| < U24_LIMIT
    ensures NewBank(s, data).Some? ==> NewBank(s, data).value.Valid()
  {
    if s.rowSize > 0 {
      hide LaidOut, Exact;
      WholeRows(s, |data|);
    }
  }

  /** `Bank::new_per_column`. */
  function NewPerColumn(s: Schema, rec: PerColumnRecord, b: nat, e: nat): (r: Bank)
    requires rec.Valid() && rec.dir.Holds(e, b)
  {
    PerColumn(s, rec, b, e, RowsIn(rec.dir.Size(e, b), s.rowSize))
  }

  lemma NewPerColumnValid(s: Schema, rec: PerColumnRecord, b: nat, e: nat)
    requires LaidOut(s) && rec.Valid() && rec.dir.Holds(e, b) && rec.dir.Size(e, b) < U24_LIMIT
    ensures NewPerColumn(s, rec, b, e).Valid()
  {
    if s.rowSize > 0 {
      hide LaidOut, Exact;
      WholeRows(s, rec.dir.Size(e, b));
    }
  }
}
