/** Passes over one column of a bank: the double-ended iterator, the bulk read and the single cell
    (src/event/bank.rs). Cells are kept as their bytes. */
module ColumnIters {
  import opened Arith
  import opened Bytes
  import opened Schemas
  import opened Banks

  /** Cells `lo..hi` of a column's bytes. */
  function Cells(bytes: seq<byte>, elem: nat, lo: nat, hi: nat): (r: seq<seq<byte>>)
    requires lo <= hi
    ensures |r| == hi - lo
  {
    seq(hi - lo, i requires 0 <= i => CellOf(bytes, lo + i, elem))
  }

  /** The rows of a column, one cell each. */
  function BankCells(k: Bank, c: nat): (r: seq<seq<byte>>)
    requires k.Valid() && c < |k.schema.entries|
    ensures |r| == k.rows
  {
    seq(k.rows, row requires 0 <= row => k.Cell(c, row))
  }

  /** The column's bytes are there. */
  predicate Delivers(k: Bank, c: nat)
    requires c < |k.schema.entries| && (k.PerColumn? ==> k.rec.Valid() && k.rec.dir.Holds(k.e, k.b))
  {
    |k.ColBytes(c)| == k.schema.entries[c].Span(k.rows)
  }

  class ColumnIter {
    const bytes: seq<byte>
    const elem: nat
    var pos: nat
    var len: nat

    ghost predicate Valid() reads this { elem > 0 && pos <= len }

    /** Every cell up to `len` is inside the bytes. */
    ghost predicate Full() reads this { len * elem <= |bytes| }

    ghost function Remaining(): (r: seq<seq<byte>>)
      reads this
      requires Valid()
      ensures |r| == len - pos
    {
      Cells(bytes, elem, pos, len)
    }

    /** `Bank::iter`. */
    constructor (k: Bank, c: nat)
      requires k.Valid() && c < |k.schema.entries|
      ensures Valid() && bytes == k.ColBytes(c) && elem == k.schema.entries[c].Width() && pos == 0 && len == k.rows
      ensures Remaining() == BankCells(k, c) && (Full() || bytes == [])
      ensures Full() <==> Delivers(k, c)
    {
      bytes, elem, pos, len := k.ColBytes(c), k.schema.entries[c].Width(), 0, k.rows;
      new;
      WidthPositive(k.schema.entries[c]);
      FullOrEmpty(k, c);
      hide Entry.Width;
    }

    /** Reads the cell at the front; a column that is not there gives none and stays put. */
    method Next() returns (r: Option<seq<byte>>)
      requires Valid()
      modifies this`pos
      ensures Valid()
      ensures r.Some? <==> old(pos) < len && (old(pos) + 1) * elem <= |bytes|
      ensures pos == if r.Some? then old(pos) + 1 else old(pos)
      ensures r.Some? ==> r.value == old(Remaining())[0] && Remaining() == old(Remaining())[1..]
    {
      if pos >= len {
        return None;
      }
      var at := pos * elem;
      Distribute(elem, pos, 1);
      if at + elem > |bytes| {
        return None;
      }
      ghost var left := Remaining();
      assert left[0] == CellOf(bytes, pos, elem);
      r := Some(bytes[at..at + elem]);
      pos := pos + 1;
      assert Remaining() == left[1..];
    }

    /** Reads the cell at the back; the place is given up whether or not the cell is there. */
    method NextBack() returns (r: Option<seq<byte>>)
      requires Valid()
      modifies this`len
      ensures Valid()
      ensures r.Some? <==> pos < old(len) && old(len) * elem <= |bytes|
      ensures len == if pos < old(len) then old(len) - 1 else old(len)
      ensures pos < old(len) ==> Remaining() == old(Remaining())[..len - pos]
      ensures r.Some? ==> r.value == old(Remaining())[len - pos]
    {
      if pos >= len {
        return None;
      }
      ghost var left := Remaining();
      len := len - 1;
      assert Remaining() == left[..len - pos] && left[len - pos] == CellOf(bytes, len, elem);
      var at := len * elem;
      Distribute(elem, len, 1);
      if at + elem > |bytes| {
        return None;
      }
      r := Some(bytes[at..at + elem]);
    }

    /** Any mixture of reads from the two ends: the fronts ascend, the backs descend, what lies
        between is left, and no cell is given twice. A column that is not there gives nothing. */
    method Run(ends: seq<bool>) returns (fronts: seq<seq<byte>>, backs: seq<seq<byte>>)
      requires Valid() && (Full() || bytes == [])
      modifies this
      ensures Valid()
      ensures old(Full()) ==>
        var cells := old(Remaining());
        && |fronts| + |backs| == Min(|ends|, |cells|)
        && fronts == cells[..|fronts|] && Remaining() == cells[|fronts|..|cells| - |backs|]
        && forall i :: 0 <= i < |backs| ==> backs[i] == cells[|cells| - 1 - i]
      ensures !old(Full()) ==> fronts == [] && backs == []
    {
      fronts, backs := [], [];
      ghost var cells, last := Remaining(), len;
      for i := 0 to |ends|
        invariant Valid() && len <= last
        invariant last * elem <= |bytes| || bytes == []
        invariant last * elem <= |bytes| ==>
          && |fronts| + |backs| == Min(i, |cells|)
          && fronts == cells[..|fronts|] && Remaining() == cells[|fronts|..|cells| - |backs|]
          && forall i :: 0 <= i < |backs| ==> backs[i] == cells[|cells| - 1 - i]
        invariant !(last * elem <= |bytes|) ==> fronts == [] && backs == []
      {
        FitsBelow(|bytes|, elem, len, last);
        if pos < len {
          FitsBelow(|bytes|, elem, pos + 1, last);
        }
        if ends[i] {
          var r := Next();
          if r.Some? {
            fronts := fronts + [r.value];
          }
        } else {
          var r := NextBack();
          if r.Some? {
            backs := backs + [r.value];
          }
        }
      }
    }
  }

  /** A bound on the last cell bounds the ones before it; with no bytes no cell fits. */
  lemma FitsBelow(size: nat, elem: nat, i: nat, last: nat)
    requires elem > 0 && i <= last
    ensures last * elem <= size ==> i * elem <= size
    ensures size == 0 && i > 0 ==> i * elem > size
  {
    MulMonotone(elem, i, last);
    MulPositive(i, elem);
  }

  /** `read_into`: the caller's buffer is cleared and holds the whole column, or nothing when the
      column is not there. */
  method ReadInto(k: Bank, c: nat, buffer: seq<seq<byte>>) returns (out: seq<seq<byte>>, n: nat)
    requires k.Valid() && c < |k.schema.entries|
    ensures n == |out|
    ensures out == if Delivers(k, c) then BankCells(k, c) else []
  {
    WidthPositive(k.schema.entries[c]);
    FullOrEmpty(k, c);
    var bytes, elem := k.ColBytes(c), k.schema.entries[c].Width();
    DivOfProduct(k.rows, elem);
    DivSmall(0, elem);
    n := Min(k.rows, |bytes| / elem);
    hide Entry.Width;
    out := Cells(bytes, elem, 0, n);
  }

  /** `get`, once the column is found and its type checked: `None` stands for the default. */
  function Get(k: Bank, c: nat, row: nat): (r: Option<seq<byte>>)
    requires c < |k.schema.entries| && (k.PerColumn? ==> k.rec.Valid() && k.rec.dir.Holds(k.e, k.b))
  {
    var size := k.schema.entries[c].Width();
    var off := row * size;
    if row >= k.rows || off + size > |k.ColBytes(c)| then None
    else Some(k.ColBytes(c)[off..off + size])
  }

  /** A single cell is the one a pass over the column would give there, and missing exactly when
      there is no such row or no such column. */
  lemma GetIsCell(k: Bank, c: nat, row: nat)
    requires k.Valid() && c < |k.schema.entries|
    ensures Get(k, c, row).Some? <==> row < k.rows && Delivers(k, c)
    ensures Get(k, c, row).Some? ==> Get(k, c, row).value == BankCells(k, c)[row]
  {
    WidthPositive(k.schema.entries[c]);
    FullOrEmpty(k, c);
    var size := k.schema.entries[c].Width();
    CellFits(|k.ColBytes(c)|, size, row, k.rows);
    hide Entry.Width, Bank.ColBytes, Bank.Valid;
  }

  /** A cell fits when the column is there, and no cell does when it is not. */
  lemma CellFits(size: nat, elem: nat, row: nat, rows: nat)
    requires elem > 0
    ensures row < rows && size == rows * elem ==> row * elem + elem <= size
    ensures size == 0 ==> row * elem + elem > size
  {
    Distribute(elem, row, 1);
    if row < rows {
      MulMonotone(elem, row + 1, rows);
    }
  }

  /** `Bank::new_lossy`: the longest prefix of whole rows. */
  function NewLossy(s: Schema, data: seq<byte>): (r: Bank)
  {
    var rows := |data| / Max(s.rowSize, 1);
    Contiguous(s, Window(data, 0, rows * Max(s.rowSize, 1)), rows)
  }

  /** No column of a lossy bank is ever short: its data was cut to whole rows. */
  lemma LossyIsWhole(s: Schema, data: seq<byte>, c: nat)
    requires LaidOut(s) && |data| < U24_LIMIT && c < |s.entries|
    ensures NewLossy(s, data).Valid() && Delivers(NewLossy(s, data), c)
    ensures |data| - |NewLossy(s, data).data| < s.rowSize && NewLossy(s, data).data <= data
    ensures NewBank(s, data).Some? <==> NewLossy(s, data).data == data
    ensures NewBank(s, data).Some? ==> NewBank(s, data).value == NewLossy(s, data)
  {
    ColumnsHaveBytes(s, c);
    var rows := |data| / s.rowSize;
    hide Entry.Width, LaidOut, Exact, Bank.ColBytes;
    CutToRows(data, s.rowSize);
    LossyValid(s, data);
    ContiguousInside(NewLossy(s, data), c);
  }

  lemma LossyValid(s: Schema, data: seq<byte>)
    requires LaidOut(s) && |data| < U24_LIMIT && s.rowSize > 0
    ensures NewLossy(s, data).Valid()
  {
    WholeRows(s, |data|);
    hide LaidOut, Exact;
    CutToRows(data, s.rowSize);
  }

  /** The whole rows of some data: all of it exactly when nothing is left over. */
  lemma CutToRows(data: seq<byte>, rowSize: nat)
    requires rowSize > 0
    ensures
      var whole := |data| / rowSize * rowSize;
      && whole <= |data| < whole + rowSize && (whole == |data| <==> |data| % rowSize == 0)
      && Window(data, 0, whole) == data[..whole] && (whole == |data| ==> data[..whole] == data)
  {
    var rows := |data| / rowSize;
    assert |data| == rows * rowSize + |data| % rowSize;
  }
}
