/** Bank schemas and their column geometry (src/schema/types.rs). */
module Schemas {
  import opened Arith
  import opened Bytes

  datatype DataType = Byte | Short | Int | Float | Double | Long {
    function Size(): (n: nat)
      ensures 1 <= n <= 8
    {
      match this
      case Byte => 1
      case Short => 2
      case Int | Float => 4
      case Double | Long => 8
    }
  }

  datatype Column = Column(name: string, ty: DataType, length: u32)

  datatype Entry = Entry(name: string, ty: DataType, rowOffset: u32, length: u32) {
    /** Bytes of one cell. */
    function Width(): nat { ty.Size() * length }

    /** Where the column starts in a column-major bank of so many rows. */
    function Start(rows: nat): nat { rows * rowOffset }

    /** Bytes of so many rows of the column. */
    function Span(rows: nat): nat { rows * Width() }
  }

  datatype Schema = Schema(name: string, group: u16, item: byte, entries: seq<Entry>, rowSize: u32)

  const U32_MAX := U32_LIMIT - 1

  function SatAdd(a: nat, b: nat): (r: u32)
  {
    Min(a + b, U32_MAX)
  }

  function SatMul(a: nat, b: nat): (r: u32)
  {
    Min(a * b, U32_MAX)
  }

  /** Bytes of the first `c` columns of one row, unbounded. */
  function RowPrefix(entries: seq<Entry>, c: nat): (w: nat)
    requires c <= |entries|
  {
    if c == 0 then 0 else RowPrefix(entries, c - 1) + entries[c - 1].Width()
  }

  function RowWidth(entries: seq<Entry>): nat { RowPrefix(entries, |entries|) }

  ghost predicate InPlace(entries: seq<Entry>, c: nat)
    requires c < |entries|
  {
    entries[c].rowOffset == Min(RowPrefix(entries, c), U32_MAX)
  }

  /** Every offset is the saturated width of the columns before it. */
  ghost predicate LaidOut(s: Schema)
  {
    && |s.entries| <= U16_LIMIT
    && (forall c :: 0 <= c < |s.entries| ==> s.entries[c].length >= 1)
    && (forall c :: 0 <= c < |s.entries| ==> InPlace(s.entries, c))
    && s.rowSize == Min(RowWidth(s.entries), U32_MAX)
  }

  /** The geometry is exact: no offset met the ceiling. */
  ghost predicate Exact(s: Schema)
  {
    LaidOut(s) && RowWidth(s.entries) <= U32_MAX
  }

  lemma {:induction false} RowPrefixStable(a: seq<Entry>, b: seq<Entry>, c: nat)
    requires c <= |a| && c <= |b| && a[..c] == b[..c]
    ensures RowPrefix(a, c) == RowPrefix(b, c)
  {
    if c > 0 {
      assert a[..c - 1] == a[..c][..c - 1] == b[..c][..c - 1] == b[..c - 1];
      assert a[c - 1] == a[..c][c - 1] == b[..c][c - 1] == b[c - 1];
      RowPrefixStable(a, b, c - 1);
    }
  }

  lemma RowPrefixStep(entries: seq<Entry>, c: nat)
    requires c < |entries|
    ensures RowPrefix(entries, c + 1) == RowPrefix(entries, c) + entries[c].Width()
    ensures RowPrefix(entries, 0) == 0
  {
  }

  lemma RowPrefixOfNothing()
    ensures RowWidth([]) == 0
  {
  }

  lemma RowPrefixGrows(entries: seq<Entry>, e: Entry)
    ensures forall c :: 0 <= c <= |entries| ==> RowPrefix(entries + [e], c) == RowPrefix(entries, c)
    ensures RowWidth(entries + [e]) == RowWidth(entries) + e.ty.Size() * e.length
  {
    var grown := entries + [e];
    forall c | 0 <= c <= |entries|
      ensures RowPrefix(grown, c) == RowPrefix(entries, c)
    {
      assert grown[..c] == entries[..c];
      RowPrefixStable(grown, entries, c);
    }
  }

  lemma {:induction false} RowPrefixMonotone(entries: seq<Entry>, c: nat, d: nat)
    requires c <= d <= |entries|
    ensures RowPrefix(entries, c) <= RowPrefix(entries, d)
    decreases d - c
  {
    if c < d {
      RowPrefixMonotone(entries, c, d - 1);
    }
  }

  /** `Schema::from_columns`: lengths are raised to one, offsets saturate, and the list stops at
      the 65,536 columns a u16 index can name. */
  method FromColumns(name: string, group: u16, item: byte, columns: seq<Column>) returns (s: Schema)
    ensures LaidOut(s)
    ensures (s.name, s.group, s.item) == (name, group, item)
    ensures |s.entries| == Min(|columns|, U16_LIMIT)
    ensures forall c :: 0 <= c < |s.entries| ==>
              s.entries[c].name == columns[c].name && s.entries[c].ty == columns[c].ty
              && s.entries[c].length == Max(columns[c].length, 1)
  {
    hide RowPrefix;
    RowPrefixOfNothing();
    var entries: seq<Entry> := [];
    var offset: u32 := 0;
    var i := 0;
    while i < |columns| && |entries| < U16_LIMIT
      invariant i == |entries| <= Min(|columns|, U16_LIMIT)
      invariant offset == Min(RowWidth(entries), U32_MAX)
      invariant forall c :: 0 <= c < |entries| ==>
                  entries[c].name == columns[c].name && entries[c].ty == columns[c].ty
                  && entries[c].length == Max(columns[c].length, 1)
      invariant forall c :: 0 <= c < |entries| ==> entries[c].rowOffset == Min(RowPrefix(entries, c), U32_MAX)
    {
      var length: u32 := Max(columns[i].length, 1);
      var e := Entry(columns[i].name, columns[i].ty, offset, length);
      RowPrefixGrows(entries, e);
      entries := entries + [e];
      offset := SatAdd(offset, SatMul(e.ty.Size(), length));
      i := i + 1;
    }
    s := Schema(name, group, item, entries, offset);
  }

  lemma ColumnsHaveBytes(s: Schema, c: nat)
    requires LaidOut(s) && c < |s.entries|
    ensures s.rowSize > 0
  {
    hide Entry.Width;
    RowPrefixMonotone(s.entries, c + 1, |s.entries|);
    WidthPositive(s.entries[c]);
  }

  lemma WidthPositive(e: Entry)
    requires e.length >= 1
    ensures e.Width() >= 1
  {
    MulPositive(e.length, e.ty.Size());
  }

  /** Rows of a bank are whole multiples of the row size, so a bank small enough for its 24-bit
      size word either has no rows or comes from a schema whose geometry is exact. */
  lemma SmallBanksAreExact(s: Schema, rows: nat)
    requires LaidOut(s)
    requires rows * RowWidth(s.entries) < U24_LIMIT
    ensures rows == 0 || Exact(s)
  {
    hide RowWidth;
    MulPositive(rows, RowWidth(s.entries));
  }

  /** The last column with the name wins, as the name map is filled in order. */
  function ColumnIndex(entries: seq<Entry>, name: string): (r: Option<nat>)
    ensures r.Some? ==> r.value < |entries| && entries[r.value].name == name
    ensures r.Some? ==> forall c :: r.value < c < |entries| ==> entries[c].name != name
    ensures r.None? ==> forall c :: 0 <= c < |entries| ==> entries[c].name != name
  {
    if entries == [] then None
    else if entries[|entries| - 1].name == name then Some(|entries| - 1)
    else ColumnIndex(entries[..|entries| - 1], name)
  }
}
