/** The trailer's record list against the strict scan (src/read/inner.rs). */
module Trailers {
  import opened Arith
  import opened Bytes
  import opened EventIndexes
  import opened RecordScanning

  const I32_LIMIT := 0x8000_0000
  const I64_LIMIT := 0x8000_0000_0000_0000
  const TRAILER_ROW := 32

  // ---- Signed words -----------------------------------------------------------

  function ReadI32(s: seq<byte>, off: nat): int
    requires off + 4 <= |s|
  {
    var v := ReadU32(s, off);
    if v >= I32_LIMIT then v - U32_LIMIT else v
  }

  function ReadI64(s: seq<byte>, off: nat): int
    requires off + 8 <= |s|
  {
    var v := ReadU32(s, off) + U32_LIMIT * ReadU32(s, off + 4);
    if v >= I64_LIMIT then v - U32_LIMIT * U32_LIMIT else v
  }

  function U64LE(v: nat): (s: seq<byte>)
    requires v < U32_LIMIT * U32_LIMIT
    ensures |s| == 8
  {
    U32LE(v % U32_LIMIT) + U32LE(v / U32_LIMIT)
  }

  lemma ReadI64OfWord(v: nat, s: seq<byte>, off: nat)
    requires v < I64_LIMIT && off + 8 <= |s| && s[off..off + 8] == U64LE(v)
    ensures ReadI64(s, off) == v
  {
    hide U32LE, ReadU32;
    var w := s[off..off + 8];
    assert s[off..off + 4] == w[..4] == U32LE(v % U32_LIMIT);
    assert s[off + 4..off + 4 + 4] == w[4..] == U32LE(v / U32_LIMIT);
    ReadU32OfWord(v % U32_LIMIT, s, off);
    ReadU32OfWord(v / U32_LIMIT, s, off + 4);
  }

  // ---- Reading the list ---------------------------------------------------------

  datatype Row = Row(position: int, length: int, entries: int)

  /** Row `r` of a `file::index` bank of `n` rows, stored column by column. */
  function RowAt(bank: seq<byte>, n: nat, r: nat): Row
    requires |bank| == n * TRAILER_ROW && r < n
  {
    Row(ReadI64(bank, r * 8), ReadI32(bank, n * 8 + r * 4), ReadI32(bank, n * 12 + r * 4))
  }

  function RowsFrom(bank: seq<byte>): (r: Option<seq<Row>>)
  {
    if |bank| % TRAILER_ROW != 0 then None
    else
      var n := |bank| / TRAILER_ROW;
      Some(seq(n, r requires 0 <= r < n => RowAt(bank, n, r)))
  }

  /** What the reader keeps of the rows from `r` on; one bad row spoils the whole list. */
  function Kept(rows: seq<Row>, r: nat, fileLen: nat, first: nat, trailerPos: nat): (found: Option<seq<Found>>)
    decreases |rows| - r
  {
    if r >= |rows| then Some([])
    else
      var row := rows[r];
      if row.position < 0 || row.length < 0 || row.entries < 0 then None
      else if row.position < first || row.position == trailerPos then Kept(rows, r + 1, fileLen, first, trailerPos)
      else if row.position + row.length > fileLen then None
      else
        match Kept(rows, r + 1, fileLen, first, trailerPos)
        case None => None
        case Some(rest) => Some([Found(row.position, row.length, row.entries)] + rest)
  }

  /** `build_index_from_trailer`, given the `file::index` bank of the trailer's event. */
  method BuildIndexFromTrailer(bank: seq<byte>, fileLen: nat, first: nat, trailerPos: nat)
    returns (r: Option<FileEventIndex>)
    ensures RowsFrom(bank).None? ==> r.None?
    ensures RowsFrom(bank).Some? ==> (r.None? <==> Kept(RowsFrom(bank).value, 0, fileLen, first, trailerPos).None?)
    ensures r.Some? ==>
      && fresh(r.value) && r.value.Valid()
      && FoundOf(r.value.records) == Kept(RowsFrom(bank).value, 0, fileLen, first, trailerPos).value
  {
    if |bank| % TRAILER_ROW != 0 {
      return None;
    }
    hide FileEventIndex.Valid, RowAt;
    var n := |bank| / TRAILER_ROW;
    ghost var rows := RowsFrom(bank).value;
    ghost var whole := Kept(rows, 0, fileLen, first, trailerPos);
    var index := new FileEventIndex();
    assert FoundOf(index.records) == [];
    for k := 0 to n
      invariant fresh(index) && index.Valid()
      invariant whole.None? <==> Kept(rows, k, fileLen, first, trailerPos).None?
      invariant whole.Some? ==> whole.value == FoundOf(index.records) + Kept(rows, k, fileLen, first, trailerPos).value
    {
      var row := RowAt(bank, n, k);
      assert row == rows[k];
      KeptStep(rows, k, fileLen, first, trailerPos, FoundOf(index.records));
      if row.position < 0 || row.length < 0 || row.entries < 0 {
        return None;
      }
      if row.position < first || row.position == trailerPos {
        continue;
      }
      if row.position + row.length > fileLen {
        return None;
      }
      ghost var before := index.records;
      index.Push(row.position, row.length, row.entries);
      assert FoundOf(index.records) == FoundOf(before) + [Found(row.position, row.length, row.entries)];
    }
    r := Some(index);
  }

  lemma KeptStep(rows: seq<Row>, r: nat, fileLen: nat, first: nat, trailerPos: nat, done: seq<Found>)
    requires r < |rows|
    ensures
      var row, here, next := rows[r], Kept(rows, r, fileLen, first, trailerPos),
          Kept(rows, r + 1, fileLen, first, trailerPos);
      here.Some? && row.position >= first && row.position != trailerPos ==>
        row.position >= 0 && row.length >= 0 && row.entries >= 0 && next.Some?
        && done + here.value == done + [Found(row.position, row.length, row.entries)] + next.value
  {
    var row, next := rows[r], Kept(rows, r + 1, fileLen, first, trailerPos);
    if next.Some? && row.position >= 0 && row.length >= 0 && row.entries >= 0 {
      var x := [Found(row.position, row.length, row.entries)];
      assert done + (x + next.value) == done + x + next.value;
    }
  }

  /** A row with a sign bit in its position, length or count spoils the whole list, wherever it stands. */
  predicate Negative(bank: seq<byte>, n: nat, r: nat)
    requires |bank| == n * TRAILER_ROW && r < n
  {
    bank[8 * r + 7] >= 128 || bank[8 * n + 4 * r + 3] >= 128 || bank[12 * n + 4 * r + 3] >= 128
  }

  lemma SignOfRow(bank: seq<byte>, n: nat, r: nat)
    requires |bank| == n * TRAILER_ROW && r < n
    ensures
      var row := RowAt(bank, n, r);
      Negative(bank, n, r) <==> row.position < 0 || row.length < 0 || row.entries < 0
  {
  }

  lemma {:induction false} BadRowSpoils(rows: seq<Row>, r: nat, k: nat, fileLen: nat, first: nat, trailerPos: nat)
    requires k <= r < |rows| && (rows[r].position < 0 || rows[r].length < 0 || rows[r].entries < 0)
    ensures Kept(rows, k, fileLen, first, trailerPos) == None
    decreases r - k
  {
    if k < r {
      BadRowSpoils(rows, r, k + 1, fileLen, first, trailerPos);
    }
  }

  /** On the bytes of the bank: one such row and there is no index from the trailer. */
  lemma NegativeRefused(bank: seq<byte>, n: nat, r: nat, fileLen: nat, first: nat, trailerPos: nat)
    requires |bank| == n * TRAILER_ROW && r < n && Negative(bank, n, r)
    ensures RowsFrom(bank).Some? && Kept(RowsFrom(bank).value, 0, fileLen, first, trailerPos) == None
  {
    SignOfRow(bank, n, r);
    DivOfProduct(n, TRAILER_ROW);
    hide RowAt, Negative;
    BadRowSpoils(RowsFrom(bank).value, r, 0, fileLen, first, trailerPos);
  }

  /** Whatever the rows, each one kept begins at the data or after it, not at the trailer, and ends in the
      file. */
  lemma {:induction false} KeptInside(rows: seq<Row>, r: nat, fileLen: nat, first: nat, trailerPos: nat)
    ensures
      var found := Kept(rows, r, fileLen, first, trailerPos);
      found.Some? ==> forall k :: 0 <= k < |found.value| ==>
        first <= found.value[k].offset != trailerPos && found.value[k].offset + found.value[k].length <= fileLen
    decreases |rows| - r
  {
    if r < |rows| {
      KeptInside(rows, r + 1, fileLen, first, trailerPos);
    }
  }

  // ---- Writing it ---------------------------------------------------------------

  predicate InRange(row: Row)
  {
    0 <= row.position < I64_LIMIT && 0 <= row.length < I32_LIMIT && 0 <= row.entries < I32_LIMIT
  }

  predicate AllInRange(rows: seq<Row>)
  {
    forall r :: 0 <= r < |rows| ==> InRange(rows[r])
  }

  function Positions(rows: seq<Row>): seq<seq<byte>>
    requires AllInRange(rows)
  {
    seq(|rows|, r requires 0 <= r < |rows| => U64LE(rows[r].position))
  }

  function RowLengths(rows: seq<Row>): seq<seq<byte>>
    requires AllInRange(rows)
  {
    seq(|rows|, r requires 0 <= r < |rows| => U32LE(rows[r].length))
  }

  function Entries(rows: seq<Row>): seq<seq<byte>>
    requires AllInRange(rows)
  {
    seq(|rows|, r requires 0 <= r < |rows| => U32LE(rows[r].entries))
  }

  /** The `file::index` bank, column-major; the two user-word columns follow. */
  function TrailerBank(rows: seq<Row>, userWords: seq<byte>): seq<byte>
    requires AllInRange(rows)
  {
    Flatten(Positions(rows)) + Flatten(RowLengths(rows)) + Flatten(Entries(rows)) + userWords
  }

  lemma {:induction false} SameLengths(xs: seq<nat>, w: nat, k: nat)
    requires k <= |xs| && forall i :: 0 <= i < |xs| ==> xs[i] == w
    ensures Sum(xs[..k]) == w * k
  {
    if k == 0 {
      assert xs[..0] == [];
    } else {
      SameLengths(xs, w, k - 1);
      SumTake(xs, k - 1);
      Distribute(w, k - 1, 1);
    }
  }

  /** Cell `r` of a column of equally long cells. */
  lemma CellAt(cells: seq<seq<byte>>, w: nat, r: nat)
    requires (forall i :: 0 <= i < |cells| ==> |cells[i]| == w) && r < |cells|
    ensures |Flatten(cells)| == w * |cells|
    ensures 0 <= w * r <= w * r + w <= |Flatten(cells)| && Flatten(cells)[w * r..w * r + w] == cells[r]
  {
    hide Flatten, Sum;
    var ls := Lengths(cells);
    SameLengths(ls, w, r);
    SameLengths(ls, w, |cells|);
    assert ls[..|cells|] == ls;
    FlattenLength(cells);
    FlattenSlice(cells, r);
  }

  lemma ColumnLength(cells: seq<seq<byte>>, w: nat)
    requires forall i :: 0 <= i < |cells| ==> |cells[i]| == w
    ensures |Flatten(cells)| == w * |cells|
  {
    hide Flatten, Sum;
    SameLengths(Lengths(cells), w, |cells|);
    assert Lengths(cells)[..|cells|] == Lengths(cells);
    FlattenLength(cells);
  }

  lemma WindowIn(a: seq<byte>, b: seq<byte>, c: seq<byte>, lo: nat, hi: nat)
    requires lo <= hi <= |b|
    ensures (a + b + c)[|a| + lo..|a| + hi] == b[lo..hi]
  {
  }

  /** Every row reads back as it was written. */
  lemma TrailerReadsBack(rows: seq<Row>, userWords: seq<byte>)
    requires AllInRange(rows) && |userWords| == 16 * |rows|
    ensures RowsFrom(TrailerBank(rows, userWords)) == Some(rows)
  {
    hide Flatten, U64LE, U32LE, ReadI64, ReadU32;
    var n := |rows|;
    var ps, ls, es := Flatten(Positions(rows)), Flatten(RowLengths(rows)), Flatten(Entries(rows));
    ColumnLength(Positions(rows), 8);
    ColumnLength(RowLengths(rows), 4);
    ColumnLength(Entries(rows), 4);
    var bank := TrailerBank(rows, userWords);
    assert |bank| == n * TRAILER_ROW;
    hide RowAt, RowsFrom;
    forall r | 0 <= r < n
      ensures RowAt(bank, n, r) == rows[r]
    {
      assert InRange(rows[r]);
      CellAt(Positions(rows), 8, r);
      CellAt(RowLengths(rows), 4, r);
      CellAt(Entries(rows), 4, r);
      RowReadsBack(rows[r], ps, ls, es, userWords, n, r);
    }
    RowsAre(bank, rows);
  }

  lemma RowsAre(bank: seq<byte>, rows: seq<Row>)
    requires |bank| == |rows| * TRAILER_ROW && forall r :: 0 <= r < |rows| ==> RowAt(bank, |rows|, r) == rows[r]
    ensures RowsFrom(bank) == Some(rows)
  {
    DivOfProduct(|rows|, TRAILER_ROW);
    hide RowAt;
    assert RowsFrom(bank).value == rows;
  }

  lemma RowReadsBack(row: Row, ps: seq<byte>, ls: seq<byte>, es: seq<byte>, rest: seq<byte>, n: nat, r: nat)
    requires InRange(row) && r < n && |ps| == 8 * n && |ls| == 4 * n && |es| == 4 * n && |rest| == 16 * n
    requires ps[8 * r..8 * r + 8] == U64LE(row.position)
    requires ls[4 * r..4 * r + 4] == U32LE(row.length)
    requires es[4 * r..4 * r + 4] == U32LE(row.entries)
    ensures RowAt(ps + ls + es + rest, n, r) == row
  {
    hide U64LE, U32LE, ReadI64, ReadU32;
    var bank := ps + ls + es + rest;
    WindowIn([], ps, ls + es + rest, 8 * r, 8 * r + 8);
    assert bank == [] + ps + (ls + es + rest);
    ReadI64OfWord(row.position, bank, r * 8);
    WindowIn(ps, ls, es + rest, 4 * r, 4 * r + 4);
    assert bank == ps + ls + (es + rest);
    ReadU32OfWord(row.length, bank, n * 8 + r * 4);
    WindowIn(ps + ls, es, rest, 4 * r, 4 * r + 4);
    ReadU32OfWord(row.entries, bank, n * 12 + r * 4);
  }

  // ---- Against the scan -----------------------------------------------------------

  /** Whole records end to end from `off` to the end of the file. */
  predicate Contiguous(file: seq<byte>, off: nat, lengths: seq<nat>)
    decreases |lengths|
  {
    if lengths == [] then off == |file|
    else
      && ParseAt(file, off).Some? && ParseAt(file, off).value.recordLength == lengths[0] > 0
      && CountFits(ParseAt(file, off).value)
      && Contiguous(file, off + lengths[0], lengths[1..])
  }

  /** The records of a contiguous file but for the trailer, empty ones included. */
  function Records(file: seq<byte>, off: nat, lengths: seq<nat>, trailerPos: nat): (r: seq<Found>)
    requires Contiguous(file, off, lengths)
    decreases |lengths|
  {
    if lengths == [] then []
    else
      (if off == trailerPos then [] else [Found(off, lengths[0], ParseAt(file, off).value.eventCount)])
      + Records(file, off + lengths[0], lengths[1..], trailerPos)
  }

  function NonEmpty(found: seq<Found>): (r: seq<Found>)
  {
    if found == [] then []
    else (if found[0].count > 0 then [found[0]] else []) + NonEmpty(found[1..])
  }

  lemma NonEmptyJoin(x: seq<Found>, rest: seq<Found>)
    requires |x| <= 1
    ensures NonEmpty(x + rest) == (if x != [] && x[0].count > 0 then x else []) + NonEmpty(rest)
  {
    if x == [] {
      assert x + rest == rest;
    } else {
      assert (x + rest)[1..] == rest && [x[0]] == x;
    }
  }

  /** The strict scan indexes the records with events; it cannot fail on such a file. */
  lemma {:induction false} ScanListsRecords(file: seq<byte>, off: nat, lengths: seq<nat>, trailerPos: nat)
    requires Contiguous(file, off, lengths)
    ensures Scan(file, off, trailerPos, false) == Some(NonEmpty(Records(file, off, lengths, trailerPos)))
    decreases |lengths|
  {
    hide ParseAt, FirstRecord, CountFits, NonEmpty;
    if lengths == [] {
      NoneFound();
    } else {
      ScanListsRecords(file, off + lengths[0], lengths[1..], trailerPos);
      var h := ParseAt(file, off).value;
      var here := if off == trailerPos then [] else [Found(off, lengths[0], h.eventCount)];
      NonEmptyJoin(here, Records(file, off + lengths[0], lengths[1..], trailerPos));
    }
  }

  lemma NoneFound()
    ensures NonEmpty([]) == []
  {
  }

  /** Rows the reader drops: the dictionary's and the trailer's own. */
  predicate Dropped(row: Row, first: nat, trailerPos: nat)
  {
    row.position < first || row.position == trailerPos
  }

  /** The rows that count, as records. */
  function Listed(rows: seq<Row>, first: nat, trailerPos: nat): (r: seq<Found>)
    requires AllInRange(rows)
    decreases |rows|
  {
    if rows == [] then []
    else
      assert InRange(rows[0]);
      (if Dropped(rows[0], first, trailerPos) then [] else [Found(rows[0].position, rows[0].length, rows[0].entries)])
      + Listed(rows[1..], first, trailerPos)
  }

  lemma {:induction false} KeptIsListed(rows: seq<Row>, r: nat, fileLen: nat, first: nat, trailerPos: nat)
    requires AllInRange(rows) && r <= |rows|
    requires forall f :: f in Listed(rows[r..], first, trailerPos) ==> f.offset + f.length <= fileLen
    ensures Kept(rows, r, fileLen, first, trailerPos) == Some(Listed(rows[r..], first, trailerPos))
    decreases |rows| - r
  {
    if r < |rows| {
      assert rows[r..][1..] == rows[r + 1..] && InRange(rows[r]);
      var own := if Dropped(rows[r], first, trailerPos) then [] else [Found(rows[r].position, rows[r].length, rows[r].entries)];
      assert Listed(rows[r..], first, trailerPos) == own + Listed(rows[r + 1..], first, trailerPos);
      KeptIsListed(rows, r + 1, fileLen, first, trailerPos);
      if own != [] {
        assert own[0] in Listed(rows[r..], first, trailerPos);
      } else {
        assert own + Listed(rows[r + 1..], first, trailerPos) == Listed(rows[r + 1..], first, trailerPos);
      }
    }
  }

  lemma {:induction false} RecordsInside(file: seq<byte>, off: nat, lengths: seq<nat>, trailerPos: nat)
    requires Contiguous(file, off, lengths)
    ensures off <= |file| && forall f :: f in Records(file, off, lengths, trailerPos) ==> f.offset + f.length <= |file|
    decreases |lengths|
  {
    hide ParseAt, CountFits;
    if lengths != [] {
      RecordsInside(file, off + lengths[0], lengths[1..], trailerPos);
    }
  }

  lemma {:induction false} NonEmptyIsAll(found: seq<Found>)
    ensures |NonEmpty(found)| <= |found|
    ensures NonEmpty(found) == found <==> forall k :: 0 <= k < |found| ==> found[k].count > 0
  {
    if found != [] {
      NonEmptyIsAll(found[1..]);
      assert found == [found[0]] + found[1..];
      assert |NonEmpty(found)| == (if found[0].count > 0 then 1 else 0) + |NonEmpty(found[1..])|;
    }
  }

  /** A trailer that lists the file's records, the dictionary and itself possibly among them, gives
      the index of the strict scan with the empty records kept; the two are the same index exactly
      when no record is empty. */
  lemma TrailerMatchesScan(file: seq<byte>, first: nat, trailerPos: nat, lengths: seq<nat>, rows: seq<Row>,
      userWords: seq<byte>)
    requires Contiguous(file, first, lengths) && AllInRange(rows) && |userWords| == 16 * |rows|
    requires Listed(rows, first, trailerPos) == Records(file, first, lengths, trailerPos)
    ensures
      var listed := Kept(rows, 0, |file|, first, trailerPos);
      var scanned := Scan(file, first, trailerPos, false);
      && RowsFrom(TrailerBank(rows, userWords)) == Some(rows)
      && listed.Some? && scanned.Some?
      && scanned.value == NonEmpty(listed.value)
      && (scanned.value == listed.value <==> forall k :: 0 <= k < |listed.value| ==> listed.value[k].count > 0)
  {
    hide ParseAt, Contiguous, Scan, TrailerBank, RowsFrom;
    TrailerReadsBack(rows, userWords);
    RecordsInside(file, first, lengths, trailerPos);
    assert rows[0..] == rows;
    KeptIsListed(rows, 0, |file|, first, trailerPos);
    ScanListsRecords(file, first, lengths, trailerPos);
    NonEmptyIsAll(Records(file, first, lengths, trailerPos));
  }
}
