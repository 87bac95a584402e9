/** The write-side builders (src/event/build.rs), read back through the event walk and the
    contiguous bank. Values are the little-endian bytes the typed setters store. */
module Builders {
  import opened Arith
  import opened Bytes
  import opened Events
  import opened Schemas
  import opened Banks

  datatype SetError = UnknownColumn | TypeMismatch | ColumnLengthMismatch | InvalidUsage

  // ---- What a run of builder calls means ----------------------------------

  datatype Op = PushRow | SetCell(c: nat, row: nat, value: seq<byte>)

  ghost function RowsPushed(ops: seq<Op>): nat
  {
    if ops == [] then 0
    else RowsPushed(ops[..|ops| - 1]) + if ops[|ops| - 1].PushRow? then 1 else 0
  }

  /** The last value written to a cell, or zeros. */
  ghost function LastValue(ops: seq<Op>, c: nat, row: nat, width: nat): seq<byte>
  {
    if ops == [] then Zeros(width)
    else
      var last := ops[|ops| - 1];
      if last.SetCell? && last.c == c && last.row == row then last.value
      else LastValue(ops[..|ops| - 1], c, row, width)
  }

  lemma LastValueSnoc(ops: seq<Op>, op: Op, c: nat, row: nat, width: nat)
    ensures RowsPushed(ops + [op]) == RowsPushed(ops) + if op.PushRow? then 1 else 0
    ensures LastValue(ops + [op], c, row, width)
            == if op.SetCell? && op.c == c && op.row == row then op.value else LastValue(ops, c, row, width)
  {
    assert (ops + [op])[..|ops|] == ops;
  }

  // ---- Cells of a column buffer -------------------------------------------

  lemma CellInside(rows: nat, row: nat, width: nat)
    requires row < rows
    ensures row * width + width == (row + 1) * width <= rows * width
  {
    Distribute(width, row, 1);
    MulMonotone(width, row + 1, rows);
  }

  /** Appending a zero row keeps every cell and adds a zero one. */
  lemma GrowColumn(column: seq<byte>, rows: nat, width: nat)
    requires |column| == rows * width
    ensures |column + Zeros(width)| == (rows + 1) * width
    ensures CellOf(column + Zeros(width), rows, width) == Zeros(width)
    ensures forall r :: 0 <= r < rows ==> CellOf(column + Zeros(width), r, width) == CellOf(column, r, width)
  {
    var grown := column + Zeros(width);
    Distribute(width, rows, 1);
    assert grown[rows * width..rows * width + width] == Zeros(width);
    forall r | 0 <= r < rows
      ensures CellOf(grown, r, width) == CellOf(column, r, width)
    {
      CellInside(rows, r, width);
      assert grown[r * width..r * width + width] == column[r * width..r * width + width];
    }
  }

  /** Writing one cell in place changes that cell and no other. */
  lemma PatchColumn(column: seq<byte>, rows: nat, width: nat, row: nat, value: seq<byte>)
    requires |column| == rows * width && row < rows && |value| == width
    ensures row * width + width <= |column|
    ensures CellOf(Splice(column, row * width, value), row, width) == value
    ensures forall r :: 0 <= r < rows && r != row ==>
      CellOf(Splice(column, row * width, value), r, width) == CellOf(column, r, width)
  {
    CellInside(rows, row, width);
    var patched := Splice(column, row * width, value);
    forall r | 0 <= r < rows && r != row
      ensures CellOf(patched, r, width) == CellOf(column, r, width)
    {
      CellInside(rows, r, width);
      if r < row {
        CellInside(row, r, width);
      } else {
        CellInside(r, row, width);
      }
      assert patched[r * width..r * width + width] == column[r * width..r * width + width];
    }
  }

  /** A finished bank: what a builder holds when it is serialised. */
  datatype Built = Built(schema: Schema, columns: seq<seq<byte>>, rows: nat) {
    ghost predicate Shaped()
    {
      && LaidOut(schema) && |columns| == |schema.entries|
      && forall c :: 0 <= c < |columns| ==> |columns[c]| == rows * schema.entries[c].Width()
    }

    function Data(): seq<byte> { Flatten(columns) }

    predicate Fits() { |Data()| < U24_LIMIT }

    function ToStructure(): (s: Structure)
      requires Fits()
      ensures Encodable(s)
    {
      Structure(StructureHeader(schema.group, schema.item, 11, |Data()|, 0), Data())
    }
  }

  /** The buffers hold what the calls wrote: every cell its last value, or zeros. */
  ghost predicate Follows(k: Built, ops: seq<Op>)
  {
    && k.Shaped() && k.rows == RowsPushed(ops)
    && forall c, r: nat :: 0 <= c < |k.columns| ==> CellFollows(k, ops, c, r)
  }

  ghost predicate CellFollows(k: Built, ops: seq<Op>, c: nat, r: nat)
    requires c < |k.columns| == |k.schema.entries|
  {
    var width := k.schema.entries[c].Width();
    LastValue(ops, c, r, width) == if r < k.rows then CellOf(k.columns[c], r, width) else Zeros(width)
  }

  // ---- BankBuilder --------------------------------------------------------

  /** The column a name stands for: the last of that name. */
  predicate StandsFor(entries: seq<Entry>, name: string, c: nat)
  {
    c < |entries| && entries[c].name == name && forall d :: c < d < |entries| ==> entries[d].name != name
  }

  class BankBuilder {
    const schema: Schema
    var columns: seq<seq<byte>>
    var rows: nat
    ghost var history: seq<Op>

    ghost predicate Valid()
      reads this
    {
      Follows(Snapshot(), history)
    }

    function Snapshot(): Built
      reads this
    {
      Built(schema, columns, rows)
    }

    constructor (schema: Schema)
      requires LaidOut(schema)
      ensures Valid() && this.schema == schema && rows == 0 && history == []
    {
      this.schema := schema;
      columns := seq(|schema.entries|, _ => []);
      rows, history := 0, [];
      new;
      StartsFollowing(Snapshot());
    }

    /** Whatever a recycled buffer set holds is truncated or filled up to the schema's columns
        and cleared. */
    constructor WithBuffers(schema: Schema, buffers: seq<seq<byte>>)
      requires LaidOut(schema)
      ensures Valid() && this.schema == schema && rows == 0 && history == []
      ensures forall c :: 0 <= c < |columns| ==> columns[c] == []
    {
      var kept := if |buffers| > |schema.entries| then buffers[..|schema.entries|] else buffers;
      var cleared: seq<seq<byte>> := [];
      while |cleared| < |kept|
        invariant |cleared| <= |kept|
        invariant forall c :: 0 <= c < |cleared| ==> cleared[c] == []
      {
        cleared := cleared + [[]];
      }
      while |cleared| < |schema.entries|
        invariant |cleared| <= |schema.entries|
        invariant forall c :: 0 <= c < |cleared| ==> cleared[c] == []
      {
        cleared := cleared + [[]];
      }
      this.schema := schema;
      columns := cleared;
      rows, history := 0, [];
      new;
      StartsFollowing(Snapshot());
    }

    method Reset()
      requires Valid()
      modifies this
      ensures Valid() && rows == 0 && history == []
    {
      columns := seq(|columns|, _ => []);
      rows, history := 0, [];
      StartsFollowing(Snapshot());
    }

    method PushRow()
      requires Valid()
      modifies this
      ensures Valid() && rows == old(rows) + 1
      ensures history == old(history) + [Op.PushRow]
    {
      hide *;
      ShapeOf(this);
      var grown: seq<seq<byte>> := [];
      while |grown| < |columns|
        invariant |grown| <= |columns| == |schema.entries|
        invariant unchanged(this)
        invariant forall c :: 0 <= c < |grown| ==> grown[c] == columns[c] + Zeros(schema.entries[c].Width())
      {
        grown := grown + [columns[|grown|] + Zeros(schema.entries[|grown|].Width())];
      }
      PushKeeps(Snapshot(), history, grown);
      columns := grown;
      rows := rows + 1;
      history := history + [Op.PushRow];
      Conclude(this);
    }

    method PushRows(n: nat)
      requires Valid()
      modifies this
      ensures Valid() && rows == old(rows) + n
      ensures |history| == |old(history)| + n && history[..|old(history)|] == old(history)
      ensures forall k :: |old(history)| <= k < |history| ==> history[k] == Op.PushRow
    {
      for i := 0 to n
        invariant Valid() && rows == old(rows) + i
        invariant |history| == |old(history)| + i && history[..|old(history)|] == old(history)
        invariant forall k :: |old(history)| <= k < |history| ==> history[k] == Op.PushRow
      {
        PushRow();
      }
    }

    /** Name and type, as every setter checks them first. */
    function CheckCol(name: string, ty: DataType): (r: Result<nat, SetError>)
      reads this
      ensures r == Err(UnknownColumn) <==> forall c :: 0 <= c < |schema.entries| ==> schema.entries[c].name != name
      ensures forall c: nat :: StandsFor(schema.entries, name, c) ==>
        r == if schema.entries[c].ty == ty then Ok(c) else Err(TypeMismatch)
      ensures r.Ok? ==> StandsFor(schema.entries, name, r.value)
    {
      match ColumnIndex(schema.entries, name)
      case None => Err(UnknownColumn)
      case Some(c) => if schema.entries[c].ty == ty then Ok(c) else Err(TypeMismatch)
    }

    /** `set_i32_at` and its siblings: one scalar of `ty.Size()` bytes. */
    method SetScalarAt(name: string, ty: DataType, row: nat, value: seq<byte>) returns (r: Result<nat, SetError>)
      requires Valid() && |value| == ty.Size()
      modifies this
      ensures Valid() && rows == old(rows)
      ensures r == Err(UnknownColumn) <==> forall c :: 0 <= c < |schema.entries| ==> schema.entries[c].name != name
      ensures forall c: nat :: StandsFor(schema.entries, name, c) ==>
        r == if schema.entries[c].ty != ty then Err(TypeMismatch)
             else if schema.entries[c].length != 1 then Err(ColumnLengthMismatch)
             else if row >= old(rows) then Err(InvalidUsage)
             else Ok(c)
      ensures r.Ok? ==>
        StandsFor(schema.entries, name, r.value) && history == old(history) + [SetCell(r.value, row, value)]
      ensures r.Err? ==> history == old(history) && columns == old(columns)
    {
      hide BankBuilder.Valid;
      var col := CheckCol(name, ty);
      if col.Err? {
        return col;
      }
      var c := col.value;
      if schema.entries[c].length != 1 {
        return Err(ColumnLengthMismatch);
      }
      if row >= rows {
        return Err(InvalidUsage);
      }
      assert schema.entries[c].Width() == ty.Size();
      WriteCell(c, row, value);
      r := col;
    }

    /** `set_array_at`: the elements go in one after the other. */
    method SetArrayAt(name: string, ty: DataType, row: nat, values: seq<seq<byte>>) returns (r: Result<nat, SetError>)
      requires Valid()
      requires forall v :: v in values ==> |v| == ty.Size()
      modifies this
      ensures Valid() && rows == old(rows)
      ensures r == Err(UnknownColumn) <==> forall c :: 0 <= c < |schema.entries| ==> schema.entries[c].name != name
      ensures forall c: nat :: StandsFor(schema.entries, name, c) ==>
        r == if schema.entries[c].ty != ty then Err(TypeMismatch)
             else if row >= old(rows) then Err(InvalidUsage)
             else if |values| != schema.entries[c].length then Err(ColumnLengthMismatch)
             else Ok(c)
      ensures r.Ok? ==>
        StandsFor(schema.entries, name, r.value) && history == old(history) + [SetCell(r.value, row, Flatten(values))]
      ensures r.Err? ==> history == old(history) && columns == old(columns)
    {
      hide BankBuilder.Valid, Flatten, Entry.Width;
      var col := CheckCol(name, ty);
      if col.Err? {
        return col;
      }
      if row >= rows {
        return Err(InvalidUsage);
      }
      var c := col.value;
      var expected := schema.entries[c].length;
      if |values| != expected {
        return Err(ColumnLengthMismatch);
      }
      WidthOf(schema.entries[c]);
      var cell := PackCell(values, ty.Size());
      WriteCell(c, row, cell);
      r := col;
    }

    /** The in-place copy every setter ends with. */
    method WriteCell(c: nat, row: nat, value: seq<byte>)
      requires Valid() && c < |schema.entries| && row < rows && |value| == schema.entries[c].Width()
      modifies this
      ensures Valid() && rows == old(rows) && history == old(history) + [SetCell(c, row, value)]
    {
      hide *;
      ShapeOf(this);
      ghost var before := Built(schema, columns, rows);
      SetKeeps(before, history, c, row, value);
      columns := columns[c := Splice(columns[c], row * schema.entries[c].Width(), value)];
      PatchIs(before, Built(schema, columns, rows), c, row, value);
      history := history + [SetCell(c, row, value)];
      Conclude(this);
    }

    /** `finish_into`: header and columns are appended, unless the bank is too large for its
        24-bit size word, and then nothing is. */
    method FinishInto(out: seq<byte>) returns (ok: bool, grown: seq<byte>)
      requires Valid()
      ensures ok <==> Snapshot().Fits()
      ensures !ok ==> grown == out
      ensures ok ==> grown == out + StructureBytes(Snapshot().ToStructure())
    {
      hide HeaderBytes, Flatten, Follows, U32LE, U16LE;
      FlattenNone(columns);
      var size := 0;
      var i := 0;
      while i < |columns|
        invariant i <= |columns|
        invariant size == |Flatten(columns[..i])|
      {
        FlattenNext(columns, i);
        size := size + |columns[i]|;
        i := i + 1;
      }
      assert columns[..i] == columns;
      if size >= U24_LIMIT {
        return false, out;
      }
      var data: seq<byte> := [];
      i := 0;
      while i < |columns|
        invariant i <= |columns|
        invariant data == Flatten(columns[..i])
      {
        FlattenNext(columns, i);
        data := data + columns[i];
        i := i + 1;
      }
      assert columns[..i] == columns;
      ok := true;
      grown := out + (U16LE(schema.group) + [schema.item, 11] + U32LE(size) + data);
      PlainHeader(schema.group, schema.item, size);
    }
  }

  lemma WidthOf(e: Entry)
    ensures e.Width() == Times(e.ty.Size(), e.length)
  {
  }

  lemma SpliceNext(buf: seq<byte>, done: nat, patch: seq<byte>)
    requires done + |patch| <= |buf|
    ensures Splice(buf, done, patch)[..done + |patch|] == buf[..done] + patch
  {
  }

  /** The element loop of `set_array_at`: each element goes to its own offset of the cell. */
  method PackCell(values: seq<seq<byte>>, size: nat) returns (cell: seq<byte>)
    requires forall v :: v in values ==> |v| == size
    ensures |cell| == Times(size, |values|) && cell == Flatten(values)
  {
    hide Flatten, Splice, Times;
    var total := Times(size, |values|);
    cell := Zeros(total);
    FlattenNone(values);
    var i := 0;
    TimesStep(size, 0, 1);
    while i < |values|
      invariant i <= |values|
      invariant |cell| == total
      invariant Times(size, i) <= total && cell[..Times(size, i)] == Flatten(values[..i])
    {
      TimesStep(size, i, |values|);
      FlattenNext(values, i);
      assert values[i] in values;
      var start := Times(i, size);
      SpliceNext(cell, start, values[i]);
      cell := Splice(cell, start, values[i]);
      i := i + 1;
    }
    assert values[..i] == values && cell[..total] == cell;
  }

  lemma PlainHeader(group: u16, item: byte, size: nat)
    requires size < U24_LIMIT
    ensures HeaderBytes(StructureHeader(group, item, 11, size, 0)) == U16LE(group) + [item, 11] + U32LE(size)
  {
    hide U16LE, U32LE;
    assert size % U24_LIMIT == size;
  }

  lemma FlattenNone<T>(values: seq<seq<T>>)
    ensures Flatten(values[..0]) == []
  {
  }

  lemma FlattenNext<T>(values: seq<seq<T>>, i: nat)
    requires i < |values|
    ensures Flatten(values[..i + 1]) == Flatten(values[..i]) + values[i]
  {
    assert values[..i + 1] == values[..i] + [values[i]];
    FlattenSnoc(values[..i], values[i]);
  }

  // ---- Steps of the builder invariant -------------------------------------

  lemma ShapeOf(b: BankBuilder)
    requires b.Valid()
    ensures Follows(b.Snapshot(), b.history)
    ensures b.Snapshot() == Built(b.schema, b.columns, b.rows)
    ensures |b.columns| == |b.schema.entries|
  {
    hide Entry.Width, CellFollows;
  }

  lemma Conclude(b: BankBuilder)
    requires Follows(Built(b.schema, b.columns, b.rows), b.history)
    ensures b.Valid()
  {
  }

  lemma StartsFollowing(k: Built)
    requires LaidOut(k.schema) && |k.columns| == |k.schema.entries| && k.rows == 0
    requires forall c :: 0 <= c < |k.columns| ==> k.columns[c] == []
    ensures Follows(k, [])
  {
    hide Entry.Width;
    forall c | 0 <= c < |k.columns|
      ensures |k.columns[c]| == k.rows * k.schema.entries[c].Width()
    {
      MulPositive(0, k.schema.entries[c].Width());
    }
  }

  lemma PushKeeps(k: Built, ops: seq<Op>, grown: seq<seq<byte>>)
    requires Follows(k, ops)
    requires |grown| == |k.columns| == |k.schema.entries|
    requires forall c :: 0 <= c < |grown| ==> grown[c] == k.columns[c] + Zeros(k.schema.entries[c].Width())
    ensures Follows(Built(k.schema, grown, k.rows + 1), ops + [PushRow])
  {
    hide RowsPushed, LastValue, CellOf, Entry.Width, CellFollows, LaidOut;
    LastValueSnoc(ops, PushRow, 0, 0, 0);
    var k' := Built(k.schema, grown, k.rows + 1);
    forall c | 0 <= c < |grown|
      ensures |grown[c]| == k'.rows * k.schema.entries[c].Width()
    {
      GrowColumn(k.columns[c], k.rows, k.schema.entries[c].Width());
    }
    forall c, r: nat | 0 <= c < |grown|
      ensures CellFollows(k', ops + [PushRow], c, r)
    {
      PushCell(k, ops, grown, c, r);
    }
  }

  lemma PushCell(k: Built, ops: seq<Op>, grown: seq<seq<byte>>, c: nat, r: nat)
    requires Follows(k, ops) && c < |k.columns| == |grown|
    requires grown[c] == k.columns[c] + Zeros(k.schema.entries[c].Width())
    ensures CellFollows(Built(k.schema, grown, k.rows + 1), ops + [PushRow], c, r)
  {
    hide RowsPushed, LastValue, CellOf, Entry.Width;
    var width := k.schema.entries[c].Width();
    GrowColumn(k.columns[c], k.rows, width);
    LastValueSnoc(ops, PushRow, c, r, width);
    assert CellFollows(k, ops, c, r);
  }

  /** The step, as a relation: `after` differs in column `c`, where one cell was patched. */
  ghost predicate Patched(before: Built, after: Built, c: nat, row: nat, value: seq<byte>)
  {
    && c < |before.columns| == |before.schema.entries|
    && var at := row * before.schema.entries[c].Width();
      at + |value| <= |before.columns[c]|
      && after == before.(columns := before.columns[c := Splice(before.columns[c], at, value)])
  }

  lemma SetKeeps(k: Built, ops: seq<Op>, c: nat, row: nat, value: seq<byte>)
    requires Follows(k, ops)
    requires c < |k.schema.entries| && row < k.rows && |value| == k.schema.entries[c].Width()
    ensures c < |k.columns| && row * k.schema.entries[c].Width() + |value| <= |k.columns[c]|
    ensures forall after :: Patched(k, after, c, row, value) ==> Follows(after, ops + [SetCell(c, row, value)])
  {
    hide RowsPushed, LastValue, CellOf, Entry.Width, Splice;
    CellInside(k.rows, row, k.schema.entries[c].Width());
    forall after | Patched(k, after, c, row, value)
      ensures Follows(after, ops + [SetCell(c, row, value)])
    {
      PatchFollows(k, after, ops, c, row, value);
    }
  }

  lemma PatchIs(before: Built, after: Built, c: nat, row: nat, value: seq<byte>)
    requires c < |before.columns| == |before.schema.entries|
    requires row * before.schema.entries[c].Width() + |value| <= |before.columns[c]|
    requires after == before.(columns := before.columns[c := Splice(before.columns[c], row * before.schema.entries[c].Width(), value)])
    ensures Patched(before, after, c, row, value)
  {
  }

  lemma PatchFollows(k: Built, after: Built, ops: seq<Op>, c: nat, row: nat, value: seq<byte>)
    requires Follows(k, ops) && Patched(k, after, c, row, value)
    requires row < k.rows && |value| == k.schema.entries[c].Width()
    ensures Follows(after, ops + [SetCell(c, row, value)])
  {
    hide RowsPushed, LastValue, CellOf, Entry.Width, Splice;
    var op := SetCell(c, row, value);
    LastValueSnoc(ops, op, 0, 0, 0);
    PatchColumn(k.columns[c], k.rows, k.schema.entries[c].Width(), row, value);
    forall d: nat, r: nat | d < |k.columns|
      ensures CellFollows(after, ops + [op], d, r)
    {
      LastValueSnoc(ops, op, d, r, k.schema.entries[d].Width());
      assert CellFollows(k, ops, d, r);
    }
  }

  // ---- EventBuilder -------------------------------------------------------

  class EventBuilder {
    var structures: seq<byte>
    var tag: u32

    constructor ()
      ensures structures == [] && tag == 0
    {
      structures, tag := [], 0;
    }

    method SetTag(t: u32)
      modifies this
      ensures tag == t && structures == old(structures)
    {
      tag := t;
    }

    method Reset()
      modifies this
      ensures structures == [] && tag == 0
    {
      structures, tag := [], 0;
    }

    /** Raw append: the bytes are taken on trust. */
    method AddBankBytes(bytes: seq<byte>)
      modifies this
      ensures structures == old(structures) + bytes && tag == old(tag)
    {
      structures := structures + bytes;
    }

    method AddBank(bank: BankBuilder) returns (ok: bool)
      requires bank.Valid()
      modifies this
      ensures tag == old(tag)
      ensures ok <==> bank.Snapshot().Fits()
      ensures !ok ==> structures == old(structures)
      ensures ok ==> structures == old(structures) + StructureBytes(bank.Snapshot().ToStructure())
    {
      ok, structures := bank.FinishInto(structures);
    }

    /** `structure_count`: one for every structure readers will see, and one more when the appended
        bytes end in a structure cut short after its header. */
    method StructureCount() returns (count: nat)
      ensures count == |Walk(structures, 0, |structures|)|
                + if |Encode(Walk(structures, 0, |structures|))| + BANK_STRUCTURE_SIZE <= |structures| then 1 else 0
    {
      hide Walk, Encode, ParseHeader;
      var pos := 0;
      count := 0;
      while pos + BANK_STRUCTURE_SIZE <= |structures|
        invariant HeadersFrom(structures, 0) == count + HeadersFrom(structures, pos)
        decreases |structures| - pos
      {
        HeaderThere(structures, pos);
        pos := pos + BANK_STRUCTURE_SIZE + ParseHeader(structures[pos..]).value.size;
        count := count + 1;
      }
      HeadersAgainstWalk(structures, 0);
    }

    /** `EventBuilder::finish_into`: the reserved word is written as zeros. */
    method FinishInto(out: seq<byte>) returns (grown: seq<byte>)
      ensures grown == out + EventBytes(tag, [0, 0, 0, 0], structures)
    {
      var total := EVENT_HEADER_SIZE + |structures|;
      grown := out + EVENT_MAGIC;
      grown := grown + U32LE(total % U32_LIMIT);
      grown := grown + U32LE(tag);
      grown := grown + [0, 0, 0, 0];
      grown := grown + structures;
    }
  }

  /** The headers met from `pos` on when each is trusted for its length. */
  function HeadersFrom(buf: seq<byte>, pos: nat): nat
    decreases |buf| - pos
  {
    if pos + BANK_STRUCTURE_SIZE > |buf| then 0
    else 1 + HeadersFrom(buf, pos + BANK_STRUCTURE_SIZE + ParseHeader(buf[pos..]).value.size)
  }

  lemma HeaderThere(buf: seq<byte>, pos: nat)
    requires pos + BANK_STRUCTURE_SIZE <= |buf|
    ensures ParseHeader(buf[pos..]).Some?
  {
  }

  /** A count of headers is a count of structures, but for a last one that is cut short. */
  lemma {:induction false} HeadersAgainstWalk(buf: seq<byte>, pos: nat)
    requires pos <= |buf|
    ensures
      var ss := Walk(buf, pos, |buf|);
      HeadersFrom(buf, pos) == |ss| + if pos + |Encode(ss)| + BANK_STRUCTURE_SIZE <= |buf| then 1 else 0
    decreases |buf| - pos
  {
    if pos + BANK_STRUCTURE_SIZE <= |buf| {
      HeaderThere(buf, pos);
      hide ParseHeader, HeaderBytes;
      var next := pos + BANK_STRUCTURE_SIZE + ParseHeader(buf[pos..]).value.size;
      if next <= |buf| {
        HeadersAgainstWalk(buf, next);
        assert Walk(buf, pos, |buf|)[1..] == Walk(buf, next, |buf|);
      }
    }
  }

  // ---- Reading back -------------------------------------------------------

  lemma {:induction false} ColumnPositions(k: Built, c: nat)
    requires k.Shaped() && c <= |k.columns|
    ensures Sum(Lengths(k.columns)[..c]) == k.rows * RowPrefix(k.schema.entries, c)
  {
    hide *;
    ColumnLengths(k);
    RowPrefixNone(k.schema.entries);
    if c == 0 {
      SumNone(Lengths(k.columns));
      MulPositive(k.rows, 0);
    } else {
      ColumnPositions(k, c - 1);
      SumTake(Lengths(k.columns), c - 1);
      RowPrefixStep(k.schema.entries, c - 1);
      Distribute(k.rows, RowPrefix(k.schema.entries, c - 1), k.schema.entries[c - 1].Width());
    }
  }

  lemma ColumnLengths(k: Built)
    requires k.Shaped()
    ensures |k.columns| == |k.schema.entries| == |Lengths(k.columns)|
    ensures forall c :: 0 <= c < |k.columns| ==>
      Lengths(k.columns)[c] == |k.columns[c]| == k.rows * k.schema.entries[c].Width()
  {
  }

  lemma RowPrefixNone(entries: seq<Entry>)
    ensures RowPrefix(entries, 0) == 0
  {
  }

  lemma SumNone(xs: seq<nat>)
    ensures Sum(xs[..0]) == 0
  {
  }

  lemma DataSize(k: Built)
    requires k.Shaped()
    ensures |k.Data()| == k.rows * RowWidth(k.schema.entries)
  {
    ColumnPositions(k, |k.columns|);
    FlattenLength(k.columns);
    assert Lengths(k.columns)[..|k.columns|] == Lengths(k.columns);
  }

  /** Every bank a builder can serialise decodes; its rows come back exactly when it has none or
      its schema has a column to hold them. */
  lemma BuiltDecodes(k: Built)
    requires k.Shaped() && k.Fits()
    ensures NewBank(k.schema, k.Data()).Some?
    ensures NewBank(k.schema, k.Data()).value.Valid()
    ensures NewBank(k.schema, k.Data()).value.rows == k.rows <==> k.rows == 0 || k.schema.rowSize > 0
    ensures k.rows == 0 || Exact(k.schema)
  {
    hide Flatten, RowWidth;
    DataSize(k);
    NewBankValid(k.schema, k.Data());
    SmallBanksAreExact(k.schema, k.rows);
    var size := k.schema.rowSize;
    if size > 0 {
      if k.rows == 0 {
        MulPositive(0, RowWidth(k.schema.entries));
        DivSmall(0, size);
      } else {
        DivOfProduct(k.rows, size);
      }
    }
  }

  /** Column `c` of the decoded bank is column buffer `c`, byte for byte. */
  lemma ColumnsReadBack(k: Built, c: nat)
    requires k.Shaped() && k.Fits() && c < |k.columns|
    ensures k.schema.rowSize > 0
    ensures NewBank(k.schema, k.Data()).Some? && NewBank(k.schema, k.Data()).value.ColBytes(c) == k.columns[c]
  {
    hide Flatten, RowWidth, RowPrefix, NewBank, Entry.Width, Exact;
    ColumnsHaveBytes(k.schema, c);
    BuiltDecodes(k);
    DecodesTo(k.schema, k.Data());
    var width := k.schema.entries[c].Width();
    if k.rows == 0 {
      MulPositive(0, width);
      MulPositive(0, k.schema.entries[c].rowOffset);
    } else {
      OffsetIsPrefix(k.schema, c);
      ColumnPositions(k, c);
      FlattenSlice(k.columns, c);
    }
  }

  lemma DecodesTo(s: Schema, data: seq<byte>)
    ensures NewBank(s, data).Some? ==> NewBank(s, data).value == Contiguous(s, data, NewBank(s, data).value.rows)
  {
  }

  /** An event assembled from finished banks under a tag. */
  function Assembled(tag: u32, banks: seq<Built>): (ev: seq<byte>)
    requires forall k :: k in banks ==> k.Fits()
  {
    EventBytes(tag, [0, 0, 0, 0], Encode(AsStructures(banks)))
  }

  function AsStructures(banks: seq<Built>): (ss: seq<Structure>)
    requires forall k :: k in banks ==> k.Fits()
    ensures |ss| == |banks|
    ensures forall i :: 0 <= i < |ss| ==> ss[i] == banks[i].ToStructure()
  {
    if banks == [] then [] else AsStructures(banks[..|banks| - 1]) + [banks[|banks| - 1].ToStructure()]
  }

  /** The decoded bank shows the builder's rows and, cell by cell, the last value written. */
  ghost predicate ReadsBack(k: Built, ops: seq<Op>, data: seq<byte>)
  {
    var bank := NewBank(k.schema, data);
    && bank.Some? && bank.value.Contiguous? && bank.value.schema == k.schema
    && (bank.value.rows == k.rows <==> k.rows == 0 || k.schema.rowSize > 0)
    && forall c, r :: 0 <= c < |k.schema.entries| && 0 <= r < k.rows ==>
         bank.value.Cell(c, r) == LastValue(ops, c, r, k.schema.entries[c].Width())
  }

  /** The whole write path against the whole read path. Any run of builder calls, any number of
      banks: the event reads back its tag, its structures in append order, and in each bank the
      last value set in every cell; the structures exactly when the event fits its size word. */
  lemma EventReadsBackCells(tag: u32, banks: seq<Built>, ops: seq<seq<Op>>)
    requires |ops| == |banks|
    requires forall k :: k in banks ==> k.Fits()
    requires forall i :: 0 <= i < |banks| ==> Follows(banks[i], ops[i])
    ensures EventTag(Assembled(tag, banks)) == tag
    ensures Structures(Assembled(tag, banks)) == AsStructures(banks)
            <==> EVENT_HEADER_SIZE + |Encode(AsStructures(banks))| < U32_LIMIT
    ensures forall i :: 0 <= i < |banks| ==> ReadsBack(banks[i], ops[i], AsStructures(banks)[i].data)
  {
    hide Encode, Structures, ReadsBack, Follows;
    var ss := AsStructures(banks);
    assert forall s :: s in ss ==> Encodable(s);
    EventWords(tag, [0, 0, 0, 0], Encode(ss));
    EventRoundTrip(tag, [0, 0, 0, 0], ss);
    forall i | 0 <= i < |banks|
      ensures ReadsBack(banks[i], ops[i], ss[i].data)
    {
      assert banks[i] in banks;
      BankReadsBack(banks[i], ops[i]);
    }
  }

  lemma BankReadsBack(k: Built, ops: seq<Op>)
    requires k.Fits() && Follows(k, ops)
    ensures ReadsBack(k, ops, k.Data())
  {
    hide NewBank, LastValue, Entry.Width, Flatten, Bank.Cell, CellFollows;
    BuiltDecodes(k);
    DecodesTo(k.schema, k.Data());
    forall c, r | 0 <= c < |k.schema.entries| && 0 <= r < k.rows
      ensures NewBank(k.schema, k.Data()).value.Cell(c, r) == LastValue(ops, c, r, k.schema.entries[c].Width())
    {
      CellReadsBack(k, ops, c, r);
    }
  }

  lemma CellReadsBack(k: Built, ops: seq<Op>, c: nat, r: nat)
    requires k.Fits() && Follows(k, ops) && c < |k.columns| && r < k.rows
    ensures NewBank(k.schema, k.Data()).Some? && NewBank(k.schema, k.Data()).value.Contiguous?
    ensures NewBank(k.schema, k.Data()).value.schema == k.schema
    ensures NewBank(k.schema, k.Data()).value.Cell(c, r) == LastValue(ops, c, r, k.schema.entries[c].Width())
  {
    hide NewBank, LastValue, Entry.Width, Flatten, Bank.ColBytes;
    BuiltDecodes(k);
    DecodesTo(k.schema, k.Data());
    ColumnsReadBack(k, c);
    assert CellFollows(k, ops, c, r);
  }

  /** The banks the builders hold, and the calls that made them. */
  function Snapshots(banks: seq<BankBuilder>): (r: seq<Built>)
    reads set b | b in banks
    ensures |r| == |banks|
  {
    seq(|banks|, i requires 0 <= i < |banks| reads set b | b in banks => assert banks[i] in banks; banks[i].Snapshot())
  }

  ghost predicate AllValid(banks: seq<BankBuilder>)
    reads set b | b in banks
  {
    forall i :: 0 <= i < |banks| ==> banks[i].Valid()
  }

  ghost predicate AllBanksFit(banks: seq<BankBuilder>)
    reads set b | b in banks
  {
    forall k :: k in Snapshots(banks) ==> k.Fits()
  }

  ghost function Histories(banks: seq<BankBuilder>): (r: seq<seq<Op>>)
    reads set b | b in banks
    ensures |r| == |banks|
  {
    seq(|banks|, i requires 0 <= i < |banks| reads set b | b in banks => assert banks[i] in banks; banks[i].history)
  }

  /** An event out of finished bank builders, one `add_bank` each: it fails exactly when some bank is
      too large for its size word. */
  method BuildEvent(tag: u32, banks: seq<BankBuilder>) returns (r: Option<seq<byte>>)
    requires AllValid(banks)
    ensures r.Some? <==> AllBanksFit(banks)
    ensures r.Some? ==> r.value == Assembled(tag, Snapshots(banks))
  {
    hide Encode, Built.Fits, Built.ToStructure, Follows, EventBytes, StructureBytes;
    var ev := new EventBuilder();
    ev.SetTag(tag);
    ghost var built := Snapshots(banks);
    NothingEncoded();
    for i := 0 to |banks|
      invariant ev.tag == tag && forall k :: k in built[..i] ==> k.Fits()
      invariant ev.structures == Encode(AsStructures(built[..i]))
    {
      assert built[i] == banks[i].Snapshot() && built[i] in built;
      var ok := ev.AddBank(banks[i]);
      if !ok {
        return None;
      }
      StructuresSnoc(built, i);
    }
    assert built[..|banks|] == built;
    var bytes := ev.FinishInto([]);
    r := Some(bytes);
  }

  /** Such an event reads back, whatever calls made its banks. */
  lemma BuiltReadsBack(tag: u32, banks: seq<BankBuilder>)
    requires AllValid(banks) && AllBanksFit(banks)
    ensures EventTag(Assembled(tag, Snapshots(banks))) == tag
    ensures Structures(Assembled(tag, Snapshots(banks))) == AsStructures(Snapshots(banks))
            <==> EVENT_HEADER_SIZE + |Encode(AsStructures(Snapshots(banks)))| < U32_LIMIT
    ensures forall i :: 0 <= i < |banks| ==>
      ReadsBack(Snapshots(banks)[i], Histories(banks)[i], AsStructures(Snapshots(banks))[i].data)
  {
    hide Encode, Structures, ReadsBack, Follows, Assembled, AsStructures, Built.Fits;
    forall i | 0 <= i < |banks|
      ensures Follows(Snapshots(banks)[i], Histories(banks)[i])
    {
      assert banks[i].Valid();
    }
    EventReadsBackCells(tag, Snapshots(banks), Histories(banks));
  }

  lemma StructuresSnoc(built: seq<Built>, i: nat)
    requires i < |built| && built[i].Fits() && forall k :: k in built[..i] ==> k.Fits()
    ensures forall k :: k in built[..i + 1] ==> k.Fits()
    ensures Encode(AsStructures(built[..i + 1]))
      == Encode(AsStructures(built[..i])) + StructureBytes(built[i].ToStructure())
  {
    hide Built.Fits, Encode, StructureBytes;
    assert built[..i + 1][..i] == built[..i] && built[..i + 1][i] == built[i];
    assert built[..i + 1] == built[..i] + [built[i]];
    EncodeSnoc(AsStructures(built[..i]), built[i].ToStructure());
  }
}
