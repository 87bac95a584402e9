/** Rebuilding one event of a split record, and the in-place views of the same banks
    (src/event/owned.rs, src/event/ctx.rs). */
module Reassembly {
  import opened Arith
  import opened Bytes
  import opened Events
  import opened Schemas
  import opened Records
  import opened Banks
  import opened Layouts

  datatype Split = OfBanks(banks: ByBankRecord) | OfColumns(columns: PerColumnRecord) {
    function Dir(): Directory
    {
      match this case OfBanks(r) => r.dir case OfColumns(r) => r.dir
    }

    ghost predicate Valid()
    {
      match this case OfBanks(r) => r.Valid() case OfColumns(r) => r.Valid()
    }
  }

  // ---- One bank -----------------------------------------------------------

  /** Copy `patch` over `buf` at `at`, when it fits. */
  function Overlay(buf: seq<byte>, at: nat, patch: seq<byte>): (r: seq<byte>)
    ensures |r| == |buf|
  {
    if at + |patch| <= |buf| then Splice(buf, at, patch) else buf
  }

  /** The zeroed data region after its first `c` columns were copied in. A stream that fails or
      falls short leaves its zeros. */
  function Filled(r: PerColumnRecord, s: Schema, e: nat, b: nat, c: nat): (img: seq<byte>)
    requires r.Valid() && r.dir.Holds(e, b) && c <= |s.entries|
    ensures |img| == r.dir.Size(e, b)
  {
    if c == 0 then Zeros(r.dir.Size(e, b))
    else
      var rows, cumRows := RowsIn(r.dir.Size(e, b), s.rowSize), RowsIn(r.dir.Offset(e, b), s.rowSize);
      var column := s.entries[c - 1];
      Overlay(Filled(r, s, e, b, c - 1), column.Start(rows), StreamBytes(r.Stream(b, c - 1), column, cumRows, rows))
  }

  /** The bank's data as the synthesizers write it. */
  function Image(r: Split, table: Table, e: nat, b: nat): (img: seq<byte>)
    requires r.Valid() && r.Dir().Holds(e, b)
    ensures |img| == r.Dir().Size(e, b)
  {
    match r
    case OfBanks(rec) => Rescue(rec.Extent(e, b), rec.dir.Size(e, b))
    case OfColumns(rec) =>
      var id := DescriptorId(rec.dir.descriptors[b]);
      if rec.Opaque(b) then Rescue(rec.Extent(e, b), rec.dir.Size(e, b))
      else if id in table then Filled(rec, table[id], e, b, |table[id].entries|)
      else Zeros(rec.dir.Size(e, b))
  }

  /** The extent, or as many zeros. */
  function Rescue(extent: Option<seq<byte>>, size: nat): (img: seq<byte>)
    requires extent.Some? ==> |extent.value| == size
    ensures |img| == size
  {
    match extent case Some(d) => d case None => Zeros(size)
  }

  // ---- The length word ----------------------------------------------------

  /** Bitwise or of two bytes. */
  function ByteOr(a: byte, b: byte): byte { ((a as bv8) | (b as bv8)) as int }

  lemma OrZero(b: byte)
    ensures ByteOr(0, b) == b
  {
    assert (0 as bv8) | (b as bv8) == b as bv8;
  }

  /** `size | headerSize << 24`. */
  function LengthWord(size: u32, headerSize: byte): u32
  {
    size % U24_LIMIT + ByteOr(size / U24_LIMIT, headerSize) as int * U24_LIMIT
  }

  function BankHeader(d: Descriptor, size: u32): (r: seq<byte>)
    ensures |r| == BANK_STRUCTURE_SIZE
  {
    U16LE(d.group) + [d.item, d.ty] + U32LE(LengthWord(size, d.headerSize))
  }

  function HeaderFor(d: Descriptor, size: u32): StructureHeader
  {
    StructureHeader(d.group, d.item, d.ty, size, d.headerSize)
  }

  lemma SmallHeader(d: Descriptor, size: u32)
    requires size < U24_LIMIT
    ensures BankHeader(d, size) == HeaderBytes(HeaderFor(d, size))
  {
    OrZero(d.headerSize);
  }

  // ---- One event ----------------------------------------------------------

  /** The structure region, bank by bank in directory order. */
  function Body(r: Split, table: Table, e: nat, n: nat): (out: seq<byte>)
    requires r.Valid() && e < r.Dir().Events() && n <= r.Dir().Banks()
  {
    if n == 0 then []
    else Body(r, table, e, n - 1) + BankBytesOf(r, table, e, n - 1)
  }

  function BankBytesOf(r: Split, table: Table, e: nat, b: nat): (out: seq<byte>)
    requires r.Valid() && r.Dir().Holds(e, b)
  {
    if !r.Dir().Has(e, b) then []
    else BankHeader(r.Dir().descriptors[b], r.Dir().Size(e, b)) + Image(r, table, e, b)
  }

  /** The canonical event: magic, size, the directory's tag, a zero reserved word, the banks. */
  function Synthesized(r: Split, table: Table, e: nat): (out: seq<byte>)
    requires r.Valid() && e < r.Dir().Events()
  {
    EventBytes(r.Dir().tags[e], [0, 0, 0, 0], Body(r, table, e, r.Dir().Banks()))
  }

  function Opening(tag: u32): (r: seq<byte>)
    ensures |r| == EVENT_HEADER_SIZE
  {
    EVENT_MAGIC + [0, 0, 0, 0] + U32LE(tag) + [0, 0, 0, 0]
  }

  /** The zeroed header with its magic and tag copied in. */
  method OpenEvent(tag: u32) returns (out: seq<byte>)
    ensures out == Opening(tag)
  {
    hide U32LE;
    out := Zeros(EVENT_HEADER_SIZE);
    out := Splice(out, 0, EVENT_MAGIC);
    out := Splice(out, EH_TAG, U32LE(tag));
  }

  /** Patching the size word last gives the whole event. */
  lemma FinalPatch(tag: u32, body: seq<byte>, out: seq<byte>)
    requires out == Opening(tag) + body
    ensures EH_SIZE + 4 <= |out|
    ensures Splice(out, EH_SIZE, U32LE(|out| % U32_LIMIT)) == EventBytes(tag, [0, 0, 0, 0], body)
  {
    hide U32LE;
    assert out[..4] == EVENT_MAGIC;
    assert out[8..] == U32LE(tag) + [0, 0, 0, 0] + body;
  }

  lemma BodyStep(r: Split, table: Table, e: nat, b: nat, out: seq<byte>)
    requires r.Valid() && r.Dir().Holds(e, b)
    requires out == Opening(r.Dir().tags[e]) + Body(r, table, e, b)
    ensures Opening(r.Dir().tags[e]) + Body(r, table, e, b + 1) == out + BankBytesOf(r, table, e, b)
  {
    hide BankBytesOf, Opening;
  }

  /** `synthesize_event_bytes`. */
  method SynthesizeByBank(rec: ByBankRecord, table: Table, e: nat) returns (out: seq<byte>)
    requires rec.Valid() && e < rec.dir.Events()
    ensures out == Synthesized(OfBanks(rec), table, e)
  {
    hide Body, Opening, LengthWord, U32LE, U16LE, EventBytes, Directory.Valid;
    ghost var r := OfBanks(rec);
    ghost var tag := rec.dir.tags[e];
    out := OpenEvent(rec.dir.tags[e]);
    Nothing(r, table, e);
    for b := 0 to |rec.dir.descriptors|
      invariant out == Opening(tag) + Body(r, table, e, b)
    {
      BodyStep(r, table, e, b, out);
      if rec.dir.Has(e, b) {
        var d := rec.dir.descriptors[b];
        var size := rec.dir.Size(e, b);
        ghost var was := out;
        out := out + (U16LE(d.group) + [d.item, d.ty] + U32LE(LengthWord(size, d.headerSize)));
        if size > 0 {
          match rec.Extent(e, b)
          case Some(data) => out := out + data;
          case None => out := out + Zeros(size);
        }
        assert out == was + BankBytesOf(r, table, e, b);
      }
    }
    FinalPatch(tag, Body(r, table, e, rec.dir.Banks()), out);
    out := Splice(out, EH_SIZE, U32LE(|out| % U32_LIMIT));
  }

  lemma Nothing(r: Split, table: Table, e: nat)
    requires r.Valid() && e < r.Dir().Events()
    ensures Opening(r.Dir().tags[e]) == Opening(r.Dir().tags[e]) + Body(r, table, e, 0)
  {
  }

  /** One columnar bank of `synthesize_per_column_event_bytes`: the reserved zero region is
      filled column by column, in place. */
  method FillColumns(rec: PerColumnRecord, s: Schema, e: nat, b: nat, out: seq<byte>, dataStart: nat)
    returns (filled: seq<byte>)
    requires rec.Valid() && rec.dir.Holds(e, b) && Exact(s)
    requires |out| == dataStart + rec.dir.Size(e, b) && out[dataStart..] == Zeros(rec.dir.Size(e, b))
    ensures filled == out[..dataStart] + Filled(rec, s, e, b, |s.entries|)
  {
    hide Filled, Exact, LaidOut, Entry.Span, Entry.Start, Directory.Valid, Overlay, Splice;
    FilledStart(rec, s, e, b);
    filled := out;
    assert out == out[..dataStart] + out[dataStart..];
    var size := rec.dir.Size(e, b);
    // A schema with a column has bytes, so the source's `max(1)` changes nothing here.
    var rows := RowsIn(size, s.rowSize);
    var cumRows := RowsIn(rec.dir.Offset(e, b), s.rowSize);
    var c := 0;
    while c < |s.entries|
      invariant c <= |s.entries|
      invariant filled == out[..dataStart] + Filled(rec, s, e, b, c)
    {
      FilledStep(rec, s, e, b, c);
      var column := s.entries[c];
      ghost var before := Filled(rec, s, e, b, c);
      var colLen := column.Span(rows);
      ghost var part := StreamBytes(rec.Stream(b, c), column, cumRows, rows);
      OverlayNothing(before, column.Start(rows));
      assert (colLen == 0 || rec.Stream(b, c).None?) ==> part == [];
      if colLen != 0 && rec.Stream(b, c).Some? {
        var stream := rec.Stream(b, c).value;
        var at := column.Span(cumRows);
        if at + colLen > |stream| {
          assert part == [];
        } else {
          var src := stream[at..at + colLen];
          var dst := dataStart + column.Start(rows);
          assert src == part;
          SpliceTail(out[..dataStart], before, column.Start(rows), src);
          filled := Splice(filled, dst, src);
        }
      }
      c := c + 1;
    }
  }

  lemma FilledStart(r: PerColumnRecord, s: Schema, e: nat, b: nat)
    requires r.Valid() && r.dir.Holds(e, b)
    ensures Filled(r, s, e, b, 0) == Zeros(r.dir.Size(e, b))
  {
  }

  /** What one column does to the region: its bytes in place, or nothing. */
  lemma FilledStep(r: PerColumnRecord, s: Schema, e: nat, b: nat, c: nat)
    requires r.Valid() && r.dir.Holds(e, b) && c < |s.entries| && Exact(s)
    ensures
      var column := s.entries[c];
      var rows, cumRows := RowsIn(r.dir.Size(e, b), s.rowSize), RowsIn(r.dir.Offset(e, b), s.rowSize);
      && Filled(r, s, e, b, c + 1) == Overlay(Filled(r, s, e, b, c), column.Start(rows), StreamBytes(r.Stream(b, c), column, cumRows, rows))
      && column.Start(rows) + column.Span(rows) <= r.dir.Size(e, b)
  {
    hide Directory.Valid, Entry.Start, Entry.Span, Exact;
    var rows := RowsIn(r.dir.Size(e, b), s.rowSize);
    RowsFit(r.dir.Size(e, b), s.rowSize);
    ColumnInside(s, rows, c);
  }

  lemma RowsFit(size: nat, rowSize: nat)
    ensures RowsIn(size, rowSize) * rowSize <= size
  {
  }

  lemma OverlayNothing(buf: seq<byte>, at: nat)
    ensures Overlay(buf, at, []) == buf
  {
  }

  lemma SpliceTail(head: seq<byte>, tail: seq<byte>, at: nat, patch: seq<byte>)
    requires at + |patch| <= |tail|
    ensures Splice(head + tail, |head| + at, patch) == head + Overlay(tail, at, patch)
  {
  }

  /** The data region of one bank: reserved as zeros, then filled in place. */
  method AppendBank(rec: PerColumnRecord, table: Table, e: nat, b: nat, out: seq<byte>) returns (grown: seq<byte>)
    requires rec.Valid() && rec.dir.Holds(e, b) && TableOk(table)
    ensures grown == out + Image(OfColumns(rec), table, e, b)
  {
    hide Directory.Valid, Filled, Exact;
    var size := rec.dir.Size(e, b);
    if size == 0 {
      return out;
    }
    var dataStart := |out|;
    grown := out + Zeros(size);
    var id := DescriptorId(rec.dir.descriptors[b]);
    if rec.Opaque(b) {
      if rec.Extent(e, b).Some? {
        grown := Splice(grown, dataStart, rec.Extent(e, b).value);
      }
    } else if id in table {
      grown := FillColumns(rec, table[id], e, b, grown, dataStart);
    }
  }

  /** `synthesize_per_column_event_bytes`. */
  method SynthesizePerColumn(rec: PerColumnRecord, table: Table, e: nat) returns (out: seq<byte>)
    requires rec.Valid() && e < rec.dir.Events() && TableOk(table)
    ensures out == Synthesized(OfColumns(rec), table, e)
  {
    hide Body, Opening, LengthWord, U32LE, U16LE, EventBytes, Directory.Valid, Image, Exact;
    ghost var r := OfColumns(rec);
    ghost var tag := rec.dir.tags[e];
    out := OpenEvent(rec.dir.tags[e]);
    Nothing(r, table, e);
    for b := 0 to |rec.dir.descriptors|
      invariant out == Opening(tag) + Body(r, table, e, b)
    {
      BodyStep(r, table, e, b, out);
      if rec.dir.Has(e, b) {
        var d := rec.dir.descriptors[b];
        var size := rec.dir.Size(e, b);
        out := out + (U16LE(d.group) + [d.item, d.ty] + U32LE(LengthWord(size, d.headerSize)));
        out := AppendBank(rec, table, e, b, out);
      }
    }
    FinalPatch(tag, Body(r, table, e, rec.dir.Banks()), out);
    out := Splice(out, EH_SIZE, U32LE(|out| % U32_LIMIT));
  }

  // ---- Sizes --------------------------------------------------------------

  function StoredSize(d: Directory, e: nat, n: nat): nat
    requires d.Valid() && e < d.Events() && n <= d.Banks()
  {
    if n == 0 then EVENT_HEADER_SIZE
    else StoredSize(d, e, n - 1) + if d.Has(e, n - 1) then BANK_STRUCTURE_SIZE + d.Size(e, n - 1) else 0
  }

  /** `EventCtx::size` on a split record: summed out of the directory, nothing inflated. */
  method CtxSize(d: Directory, e: nat) returns (total: nat)
    requires d.Valid() && e < d.Events()
    ensures total == StoredSize(d, e, d.Banks())
  {
    total := EVENT_HEADER_SIZE;
    for b := 0 to |d.descriptors|
      invariant total == StoredSize(d, e, b)
    {
      if d.Has(e, b) {
        total := total + (BANK_STRUCTURE_SIZE + d.Size(e, b));
      }
    }
  }

  /** The directory's answer is the length of the rebuilt event, and of every prefix of it. */
  lemma {:induction false} SizeIsLength(r: Split, table: Table, e: nat, n: nat)
    requires r.Valid() && e < r.Dir().Events() && n <= r.Dir().Banks()
    ensures r.Dir().Valid()
    ensures StoredSize(r.Dir(), e, n) == EVENT_HEADER_SIZE + |Body(r, table, e, n)|
    ensures n == r.Dir().Banks() ==> StoredSize(r.Dir(), e, n) == |Synthesized(r, table, e)|
  {
    if n > 0 {
      SizeIsLength(r, table, e, n - 1);
    }
  }

  // ---- Views and rebuilt bytes agree --------------------------------------

  /** Column `c`'s bytes as the per-column view reads them. */
  function PartOf(r: PerColumnRecord, s: Schema, e: nat, b: nat, c: nat): (part: seq<byte>)
    requires r.Valid() && r.dir.Holds(e, b) && c < |s.entries|
  {
    StreamBytes(r.Stream(b, c), s.entries[c], RowsIn(r.dir.Offset(e, b), s.rowSize),
      RowsIn(r.dir.Size(e, b), s.rowSize))
  }

  lemma PartIsView(r: PerColumnRecord, s: Schema, e: nat, b: nat, c: nat)
    requires r.Valid() && r.dir.Holds(e, b) && c < |s.entries| && s.rowSize > 0
    ensures NewPerColumn(s, r, b, e).ColBytes(c) == PartOf(r, s, e, b, c)
  {
    hide Directory.Valid, Entry.Span;
  }

  lemma ColumnsApart(s: Schema, rows: nat, c: nat, d: nat)
    requires Exact(s) && c < d < |s.entries|
    ensures s.entries[c].Start(rows) + s.entries[c].Span(rows) <= s.entries[d].Start(rows)
  {
    hide Exact, Entry.Start, Entry.Span;
    ColumnInside(s, rows, c);
    ColumnInside(s, rows, d);
    RowPrefixMonotone(s.entries, c + 1, d);
    MulMonotone(rows, RowPrefix(s.entries, c + 1), RowPrefix(s.entries, d));
  }

  /** After all columns went in, each window holds its column, or zeros where the stream failed. */
  lemma {:induction false} FilledWindow(r: PerColumnRecord, s: Schema, e: nat, b: nat, k: nat, c: nat)
    requires r.Valid() && r.dir.Holds(e, b) && Exact(s) && k <= |s.entries| && c < |s.entries|
    ensures
      var rows := RowsIn(r.dir.Size(e, b), s.rowSize);
      var column, part := s.entries[c], PartOf(r, s, e, b, c);
      && column.Start(rows) + column.Span(rows) <= r.dir.Size(e, b)
      && Window(Filled(r, s, e, b, k), column.Start(rows), column.Span(rows))
         == if c < k && |part| == column.Span(rows) then part else Zeros(column.Span(rows))
    decreases k
  {
    hide Exact, Entry.Start, Entry.Span, Directory.Valid, Filled, StreamBytes, Overlay, Window, RowsIn;
    FilledStep(r, s, e, b, c);
    if k == 0 {
      FilledStart(r, s, e, b);
    } else {
      FilledWindow(r, s, e, b, k - 1, c);
      FilledStep(r, s, e, b, k - 1);
      var rows := RowsIn(r.dir.Size(e, b), s.rowSize);
      if k - 1 < c {
        ColumnsApart(s, rows, k - 1, c);
      } else if c < k - 1 {
        ColumnsApart(s, rows, c, k - 1);
      }
      OverlayWindow(Filled(r, s, e, b, k - 1), s.entries[k - 1].Start(rows), PartOf(r, s, e, b, k - 1),
                    s.entries[c].Start(rows), s.entries[c].Span(rows));
    }
  }

  lemma OverlayWindow(buf: seq<byte>, at: nat, patch: seq<byte>, lo: nat, len: nat)
    requires at + |patch| <= |buf| && lo + len <= |buf|
    ensures at == lo && |patch| == len ==> Window(Overlay(buf, at, patch), lo, len) == patch
    ensures patch == [] || at + |patch| <= lo || lo + len <= at ==>
      Window(Overlay(buf, at, patch), lo, len) == Window(buf, lo, len)
  {
    var after := Overlay(buf, at, patch);
    if patch == [] {
      OverlayNothing(buf, at);
    } else if at + |patch| <= lo || lo + len <= at {
      assert after[lo..lo + len] == buf[lo..lo + len];
    }
  }

  /** On every record, written by this library or not: the rebuilt bytes decode exactly when the
      extent is whole rows, and then the in-place view and the decoded bank agree on a column exactly
      when the view's stream delivers it; otherwise the view reads nothing and the bytes zeros. */
  lemma ViewsAgree(r: PerColumnRecord, table: Table, e: nat, b: nat, c: nat)
    requires r.Valid() && r.dir.Holds(e, b) && TableOk(table) && !r.Opaque(b)
    requires DescriptorId(r.dir.descriptors[b]) in table
    requires c < |table[DescriptorId(r.dir.descriptors[b])].entries|
    ensures
      var s := table[DescriptorId(r.dir.descriptors[b])];
      var bytes, view := NewBank(s, Image(OfColumns(r), table, e, b)), NewPerColumn(s, r, b, e);
      && s.rowSize > 0 && (bytes.Some? <==> r.dir.Size(e, b) % s.rowSize as nat == 0)
      && (bytes.Some? ==>
            && bytes.value.rows == view.rows
            && (bytes.value.ColBytes(c) == view.ColBytes(c) <==> |view.ColBytes(c)| == s.entries[c].Span(view.rows))
            && (bytes.value.ColBytes(c) != view.ColBytes(c) ==> view.ColBytes(c) == [] && bytes.value.ColBytes(c) == Zeros(s.entries[c].Span(view.rows))))
  {
    var s := table[DescriptorId(r.dir.descriptors[b])];
    ColumnsHaveBytes(s, c);
    hide Exact, Entry.Start, Entry.Span, Directory.Valid, Filled, StreamBytes;
    FilledWindow(r, s, e, b, |s.entries|, c);
    PartIsView(r, s, e, b, c);
  }
}
