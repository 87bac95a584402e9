/** How the writer splits a record's events into bank or column streams
    (src/write/record.rs), and what the resulting directory says about each event. */
module Layouts {
  import opened Bytes
  import opened Events
  import opened Schemas
  import opened Records
  import opened Banks

  /** The dictionary as the split codecs use it: by id. */
  type Table = map<Id, Schema>

  ghost predicate TableOk(table: Table)
  {
    forall id :: id in table ==> Exact(table[id]) && |table[id].entries| < U16_LIMIT
  }

  // ---- Descriptors --------------------------------------------------------

  function InsertSorted(ds: seq<Descriptor>, d: Descriptor): seq<Descriptor>
  {
    if ds == [] then [d]
    else if IdLess(DescriptorId(d), DescriptorId(ds[0])) then [d] + ds
    else [ds[0]] + InsertSorted(ds[1..], d)
  }

  /** A structure's bank joins the table, or raises the header size the table keeps for it. */
  function Note(ds: seq<Descriptor>, s: Structure): seq<Descriptor>
  {
    var h := s.header;
    match IndexOf(ds, IdOf(s))
    case Some(i) => ds[i := ds[i].(headerSize := Max(ds[i].headerSize, h.headerSize))]
    case None => InsertSorted(ds, Descriptor(h.group, h.item, h.ty, h.headerSize))
  }

  function Describe(ss: seq<Structure>): seq<Descriptor>
  {
    if ss == [] then [] else Note(Describe(ss[..|ss| - 1]), ss[|ss| - 1])
  }

  predicate Carries(ss: seq<Structure>, id: Id)
  {
    exists s :: s in ss && IdOf(s) == id
  }

  lemma {:induction false} InsertKeeps(ds: seq<Descriptor>, d: Descriptor)
    requires Ascending(ds)
    requires forall x :: x in ds ==> DescriptorId(x) != DescriptorId(d)
    ensures Ascending(InsertSorted(ds, d))
    ensures forall x :: x in InsertSorted(ds, d) <==> x == d || x in ds
  {
    if ds == [] {
    } else if IdLess(DescriptorId(d), DescriptorId(ds[0])) {
      assert forall x :: x in [d] + ds <==> x == d || x in ds;
    } else {
      InsertKeeps(ds[1..], d);
      var r := InsertSorted(ds[1..], d);
      assert forall x :: x in ds <==> x == ds[0] || x in ds[1..];
      forall j | 0 <= j < |r|
        ensures IdLess(DescriptorId(ds[0]), DescriptorId(r[j]))
      {
        assert r[j] in r;
      }
    }
  }

  /** Reading a descriptor table: one entry an id, ascending. */
  ghost predicate Describes(ds: seq<Descriptor>, ss: seq<Structure>)
  {
    && Ascending(ds)
    && (forall s :: s in ss ==> IndexOf(ds, IdOf(s)).Some?)
    && (forall d :: d in ds ==> Carries(ss, DescriptorId(d)))
  }

  lemma {:induction false} FirstWithSnoc(ss: seq<Structure>, s: Structure, id: Id)
    ensures FirstWith(ss + [s], id)
      == if FirstWith(ss, id).Some? then FirstWith(ss, id) else if IdOf(s) == id then Some(s) else None
  {
    if ss != [] {
      FirstWithSnoc(ss[1..], s, id);
      assert (ss + [s])[1..] == ss[1..] + [s];
    }
  }

  /** What a descriptor keeps of the structures of its bank: the type of the first and the largest header. */
  ghost predicate Keeps(d: Descriptor, ss: seq<Structure>)
  {
    && FirstWith(ss, DescriptorId(d)).Some? && d.ty == FirstWith(ss, DescriptorId(d)).value.header.ty
    && (forall s :: s in ss && IdOf(s) == DescriptorId(d) ==> s.header.headerSize <= d.headerSize)
    && exists s :: s in ss && IdOf(s) == DescriptorId(d) && s.header.headerSize == d.headerSize
  }

  lemma {:induction false} DescriptorsKeep(ss: seq<Structure>)
    ensures forall d :: d in Describe(ss) ==> Keeps(d, ss)
  {
    if ss != [] {
      var n := |ss| - 1;
      assert ss == ss[..n] + [ss[n]];
      DescriptorsKeep(ss[..n]);
      DescribeDescribes(ss[..n]);
      forall d | d in Describe(ss)
        ensures Keeps(d, ss)
      {
        NoteKeeps(Describe(ss[..n]), ss[..n], ss[n], d);
      }
    }
  }

  lemma OtherKeeps(d: Descriptor, ss: seq<Structure>, s: Structure)
    requires Keeps(d, ss) && IdOf(s) != DescriptorId(d)
    ensures Keeps(d, ss + [s])
  {
    FirstWithSnoc(ss, s, DescriptorId(d));
    hide FirstWith;
    var t :| t in ss && IdOf(t) == DescriptorId(d) && t.header.headerSize == d.headerSize;
    assert t in ss + [s];
  }

  lemma RaisedKeeps(d: Descriptor, ss: seq<Structure>, s: Structure)
    requires Keeps(d, ss) && IdOf(s) == DescriptorId(d)
    ensures Keeps(d.(headerSize := Max(d.headerSize, s.header.headerSize)), ss + [s])
  {
    FirstWithSnoc(ss, s, DescriptorId(d));
    hide FirstWith;
    var t :| t in ss && IdOf(t) == DescriptorId(d) && t.header.headerSize == d.headerSize;
    assert t in ss + [s] && s in ss + [s];
  }

  lemma JoinedKeeps(ss: seq<Structure>, s: Structure)
    requires forall t :: t in ss ==> IdOf(t) != IdOf(s)
    ensures Keeps(Descriptor(s.header.group, s.header.item, s.header.ty, s.header.headerSize), ss + [s])
  {
    FirstWithSnoc(ss, s, IdOf(s));
    hide FirstWith;
    assert s in ss + [s];
  }

  lemma NoteKeeps(ds: seq<Descriptor>, ss: seq<Structure>, s: Structure, d: Descriptor)
    requires Describes(ds, ss) && (forall x :: x in ds ==> Keeps(x, ss)) && d in Note(ds, s)
    ensures Keeps(d, ss + [s])
  {
    var i := IndexOf(ds, IdOf(s));
    hide Keeps;
    if i.Some? {
      var k :| 0 <= k < |ds| && Note(ds, s)[k] == d;
      assert ds[k] in ds;
      if k == i.value {
        RaisedKeeps(ds[k], ss, s);
      } else {
        OneEach(ds, k, i.value);
        OtherKeeps(d, ss, s);
      }
    } else {
      InsertKeeps(ds, Descriptor(s.header.group, s.header.item, s.header.ty, s.header.headerSize));
      hide InsertSorted;
      if d in ds {
        OtherKeeps(d, ss, s);
      } else {
        JoinedKeeps(ss, s);
      }
    }
  }

  lemma OneEach(ds: seq<Descriptor>, i: nat, j: nat)
    requires Ascending(ds) && i < |ds| && j < |ds| && i != j
    ensures DescriptorId(ds[i]) != DescriptorId(ds[j])
  {
    var lo, hi := if i < j then i else j, if i < j then j else i;
    assert IdLess(DescriptorId(ds[lo]), DescriptorId(ds[hi]));
  }

  lemma {:induction false} DescribeDescribes(ss: seq<Structure>)
    ensures Describes(Describe(ss), ss)
  {
    if ss != [] {
      var n := |ss| - 1;
      DescribeDescribes(ss[..n]);
      NoteDescribes(Describe(ss[..n]), ss[..n], ss[n]);
      assert ss == ss[..n] + [ss[n]];
    }
  }

  lemma NoteDescribes(ds: seq<Descriptor>, ss: seq<Structure>, s: Structure)
    requires Describes(ds, ss)
    ensures Describes(Note(ds, s), ss + [s])
  {
    hide Note, InsertSorted;
    var ds' := Note(ds, s);
    NoteKeepsIds(ds, s);
    forall t | t in ss + [s]
      ensures IndexOf(ds', IdOf(t)).Some?
    {
      if IdOf(t) != IdOf(s) {
        assert ds[IndexOf(ds, IdOf(t)).value] in ds;
      }
    }
    forall d | d in ds'
      ensures Carries(ss + [s], DescriptorId(d))
    {
      if DescriptorId(d) != IdOf(s) {
        assert d in ds && Carries(ss, DescriptorId(d));
        var t :| t in ss && IdOf(t) == DescriptorId(d);
        assert t in ss + [s];
      } else {
        assert s in ss + [s];
      }
    }
  }

  lemma NoteKeepsIds(ds: seq<Descriptor>, s: Structure)
    requires Ascending(ds)
    ensures Ascending(Note(ds, s))
    ensures exists x :: x in Note(ds, s) && DescriptorId(x) == IdOf(s)
    ensures forall x :: x in ds ==> exists y :: y in Note(ds, s) && DescriptorId(y) == DescriptorId(x)
    ensures forall y :: y in Note(ds, s) ==> DescriptorId(y) == IdOf(s) || y in ds
  {
    var ds' := Note(ds, s);
    var h := s.header;
    match IndexOf(ds, IdOf(s)) {
      case Some(i) =>
        assert ds'[i] in ds' && DescriptorId(ds'[i]) == IdOf(s);
        forall x | x in ds
          ensures exists y :: y in ds' && DescriptorId(y) == DescriptorId(x)
        {
          var k :| 0 <= k < |ds| && ds[k] == x;
          assert ds'[k] in ds' && DescriptorId(ds'[k]) == DescriptorId(x);
        }
      case None =>
        var d := Descriptor(h.group, h.item, h.ty, h.headerSize);
        InsertKeeps(ds, d);
        assert d in ds';
    }
  }

  // ---- Bank bytes ---------------------------------------------------------

  /** The data of every structure with the id, in order. A bank carried twice has two copies. */
  function Copies(ss: seq<Structure>, id: Id): seq<seq<byte>>
  {
    if ss == [] then []
    else Copies(ss[..|ss| - 1], id) + if IdOf(ss[|ss| - 1]) == id then [ss[|ss| - 1].data] else []
  }

  /** The size the directory records: that of the last copy. */
  function LastSize(ss: seq<Structure>, id: Id): nat
  {
    var cs := Copies(ss, id);
    if cs == [] then 0 else |cs[|cs| - 1]|
  }

  /** What one event appends to the bank's bytes. */
  function Appended(ss: seq<Structure>, id: Id): seq<byte>
  {
    Flatten(Copies(ss, id))
  }

  function AllAppended(events: seq<seq<Structure>>, id: Id): (r: seq<seq<byte>>)
    ensures |r| == |events|
  {
    seq(|events|, e requires 0 <= e < |events| => Appended(events[e], id))
  }

  function BankBytes(events: seq<seq<Structure>>, id: Id): seq<byte>
  {
    Flatten(AllAppended(events, id))
  }

  function Sizes(events: seq<seq<Structure>>, id: Id): (r: seq<nat>)
    ensures |r| == |events|
  {
    seq(|events|, e requires 0 <= e < |events| => LastSize(events[e], id))
  }

  /** The cumulative table of a size row; it saturates at the u32 ceiling. */
  function Offsets(sizes: seq<nat>): (r: seq<u32>)
    ensures |r| == |sizes| + 1
  {
    seq(|sizes| + 1, e requires 0 <= e <= |sizes| => Min(Sum(sizes[..e]), U32_MAX))
  }

  function DirectoryOf(tags: seq<u32>, events: seq<seq<Structure>>): (d: Directory)
    requires |tags| == |events|
  {
    var ds := Describe(Flatten(events));
    Directory(
      ds,
      tags,
      seq(|ds|, b requires 0 <= b < |ds| => seq(|events|, e requires 0 <= e < |events| => Copies(events[e], DescriptorId(ds[b])) != [])),
      seq(|ds|, b requires 0 <= b < |ds| => Offsets(Sizes(events, DescriptorId(ds[b])))))
  }

  lemma {:induction false} CopiesCarried(ss: seq<Structure>, id: Id)
    ensures Copies(ss, id) != [] <==> Carries(ss, id)
    ensures Copies(ss, id) != [] <==> FirstWith(ss, id).Some?
    decreases |ss|
  {
    if ss != [] {
      var n := |ss| - 1;
      CopiesCarried(ss[..n], id);
      assert ss == ss[..n] + [ss[n]];
    }
  }

  lemma OffsetsGrow(sizes: seq<nat>)
    ensures forall i, j :: 0 <= i <= j <= |sizes| ==> Offsets(sizes)[i] <= Offsets(sizes)[j]
  {
    forall i, j | 0 <= i <= j <= |sizes|
      ensures Offsets(sizes)[i] <= Offsets(sizes)[j]
    {
      SumMonotone(sizes, i, j);
    }
  }

  lemma DirectoryValid(tags: seq<u32>, events: seq<seq<Structure>>)
    requires |tags| == |events|
    ensures DirectoryOf(tags, events).Valid()
  {
    hide Describe, Describes, Sizes, Offsets;
    var d := DirectoryOf(tags, events);
    DescribeAscends(Flatten(events));
    forall b | 0 <= b < |d.descriptors|
      ensures forall i, j :: 0 <= i <= j <= |tags| ==> d.offsets[b][i] <= d.offsets[b][j]
    {
      OffsetsGrow(Sizes(events, DescriptorId(d.descriptors[b])));
    }
  }

  lemma DescribeAscends(ss: seq<Structure>)
    ensures Ascending(Describe(ss))
  {
    DescribeDescribes(ss);
  }

  /** The directory answers presence and tags for every event, whatever the event holds. */
  lemma DirectoryAnswers(tags: seq<u32>, events: seq<seq<Structure>>, e: nat, id: Id)
    requires |tags| == |events| && e < |events|
    ensures DirectoryOf(tags, events).Valid()
    ensures
      var d := DirectoryOf(tags, events);
      d.tags[e] == tags[e]
      && (FirstWith(events[e], id).Some? <==> IndexOf(d.descriptors, id).Some? && d.Has(e, IndexOf(d.descriptors, id).value))
  {
    hide Describe, Sizes, Offsets, Describes;
    DirectoryValid(tags, events);
    CopiesCarried(events[e], id);
    if Carries(events[e], id) {
      var s :| s in events[e] && IdOf(s) == id;
      DescribeFinds(events, e, s);
    }
  }

  lemma DescribeFinds(events: seq<seq<Structure>>, e: nat, s: Structure)
    requires e < |events| && s in events[e]
    ensures IndexOf(Describe(Flatten(events)), IdOf(s)).Some?
  {
    DescribeDescribes(Flatten(events));
    InFlatten(events, e, s);
  }

  lemma {:induction false} InFlatten<T>(ss: seq<seq<T>>, e: nat, x: T)
    requires e < |ss| && x in ss[e]
    ensures x in Flatten(ss)
  {
    if e > 0 {
      InFlatten(ss[1..], e - 1, x);
    }
  }

  // ---- Events that split without loss -------------------------------------

  /** No event carries a bank twice. */
  ghost predicate NoRepeats(ss: seq<Structure>)
  {
    forall i, j :: 0 <= i < j < |ss| ==> IdOf(ss[i]) != IdOf(ss[j])
  }

  lemma {:induction false} CopiesOfOne(ss: seq<Structure>, id: Id)
    requires NoRepeats(ss)
    ensures Copies(ss, id) == match FirstWith(ss, id) case Some(s) => [s.data] case None => []
    decreases |ss|
  {
    if ss != [] {
      var n := |ss| - 1;
      CopiesOfOne(ss[..n], id);
      CopiesSnoc(ss, id);
      FirstOfSnoc(ss[..n], ss[n], id);
      assert ss == ss[..n] + [ss[n]];
      if IdOf(ss[n]) == id {
        NotBefore(ss, n);
      }
    }
  }

  lemma NotBefore(ss: seq<Structure>, n: nat)
    requires NoRepeats(ss) && n < |ss|
    ensures FirstWith(ss[..n], IdOf(ss[n])).None?
  {
    forall s | s in ss[..n]
      ensures IdOf(s) != IdOf(ss[n])
    {
      var k :| 0 <= k < n && ss[..n][k] == s;
      assert s == ss[k];
    }
  }

  lemma CopiesSnoc(ss: seq<Structure>, id: Id)
    requires ss != []
    ensures Copies(ss, id) == Copies(ss[..|ss| - 1], id) + if IdOf(ss[|ss| - 1]) == id then [ss[|ss| - 1].data] else []
  {
  }

  lemma {:induction false} FirstOfSnoc(ss: seq<Structure>, s: Structure, id: Id)
    ensures FirstWith(ss + [s], id)
            == if FirstWith(ss, id).Some? then FirstWith(ss, id) else if IdOf(s) == id then Some(s) else None
  {
    if ss == [] {
      assert ss + [s] == [s];
      assert FirstWith([s], id) == if IdOf(s) == id then Some(s) else FirstWith([s][1..], id);
    } else {
      FirstOfSnoc(ss[1..], s, id);
      assert (ss + [s])[1..] == ss[1..] + [s];
    }
  }

  /** The event's data for a bank; empty when it does not carry it. */
  function DataOf(ss: seq<Structure>, id: Id): seq<byte>
  {
    match FirstWith(ss, id) case Some(s) => s.data case None => []
  }

  lemma OneCopy(ss: seq<Structure>, id: Id)
    requires NoRepeats(ss)
    ensures Appended(ss, id) == DataOf(ss, id)
    ensures LastSize(ss, id) == |DataOf(ss, id)|
  {
    CopiesOfOne(ss, id);
    if FirstWith(ss, id).Some? {
      var s := FirstWith(ss, id).value;
      assert Flatten([s.data]) == s.data + Flatten<byte>([]);
    }
  }

  ghost predicate Lossless(events: seq<seq<Structure>>)
  {
    forall e :: 0 <= e < |events| ==> NoRepeats(events[e])
  }

  /** Every bank of the record stays inside its u32 offset table. */
  ghost predicate Fits(events: seq<seq<Structure>>)
  {
    forall id :: |BankBytes(events, id)| <= U32_MAX
  }

  /** Without repeats the directory's sizes are the lengths of what each event appended. */
  lemma SizesAreLengths(events: seq<seq<Structure>>, id: Id)
    requires Lossless(events)
    ensures Sizes(events, id) == Lengths(AllAppended(events, id))
  {
    hide LastSize, Appended;
    forall e | 0 <= e < |events|
      ensures LastSize(events[e], id) == |Appended(events[e], id)|
    {
      OneCopy(events[e], id);
    }
  }

  /** Event `e`'s extent of the bank's bytes is its own data. */
  lemma ExtentIsData(events: seq<seq<Structure>>, id: Id, e: nat)
    requires Lossless(events) && Fits(events) && e < |events|
    ensures
      var offs := Offsets(Sizes(events, id));
      offs[e] == Sum(Sizes(events, id)[..e]) && offs[e + 1] == offs[e] + |DataOf(events[e], id)|
      && offs[e + 1] <= |BankBytes(events, id)|
      && BankBytes(events, id)[offs[e]..offs[e + 1]] == DataOf(events[e], id)
  {
    hide Appended, DataOf, Sum, Sizes, LastSize;
    var sizes := Sizes(events, id);
    SizesAreLengths(events, id);
    FlattenSlice(AllAppended(events, id), e);
    OneCopy(events[e], id);
    SumTake(sizes, e);
    var whole := |BankBytes(events, id)|;
    assert sizes[e] == |DataOf(events[e], id)|;
    assert Sum(sizes[..e + 1]) <= whole <= U32_MAX;
  }

  // ---- The two records ----------------------------------------------------

  function ByBankOf(tags: seq<u32>, events: seq<seq<Structure>>): (r: ByBankRecord)
    requires |tags| == |events|
  {
    var d := DirectoryOf(tags, events);
    ByBankRecord(d, seq(|d.descriptors|, b requires 0 <= b < |d.descriptors| =>
      Some(BankBytes(events, DescriptorId(d.descriptors[b])))))
  }

  /** The bytes the column splitter takes for event `e`: it advances by the recorded sizes. */
  function Block(events: seq<seq<Structure>>, id: Id, e: nat): seq<byte>
    requires e < |events|
  {
    Window(BankBytes(events, id), Sum(Sizes(events, id)[..e]), Sizes(events, id)[e])
  }

  /** Column `c` of a column-major block. */
  function ColumnPart(s: Schema, block: seq<byte>, c: nat): seq<byte>
    requires c < |s.entries|
  {
    var rows := RowsIn(|block|, s.rowSize);
    Window(block, s.entries[c].Start(rows), s.entries[c].Span(rows))
  }

  function ColumnParts(s: Schema, events: seq<seq<Structure>>, id: Id, c: nat): (r: seq<seq<byte>>)
    requires c < |s.entries|
    ensures |r| == |events|
  {
    seq(|events|, e requires 0 <= e < |events| => ColumnPart(s, Block(events, id, e), c))
  }

  /** A bank is split by column when its schema is known, has bytes, the bank is not composite
      and every event holds whole rows. */
  predicate Columnar(table: Table, d: Descriptor, events: seq<seq<Structure>>)
  {
    var id := DescriptorId(d);
    && id in table && table[id].rowSize > 0 && d.headerSize == 0
    && forall e :: 0 <= e < |events| ==> LastSize(events[e], id) % table[id].rowSize == 0
  }

  function BankStreams(table: Table, d: Descriptor, events: seq<seq<Structure>>): (r: seq<Option<seq<byte>>>)
  {
    var id := DescriptorId(d);
    if Columnar(table, d, events) then
      var s := table[id];
      seq(|s.entries|, c requires 0 <= c < |s.entries| => Some(Flatten(ColumnParts(s, events, id, c))))
    else [Some(BankBytes(events, id))]
  }

  function PerColumnOf(tags: seq<u32>, events: seq<seq<Structure>>, table: Table): (r: PerColumnRecord)
    requires |tags| == |events|
  {
    var d := DirectoryOf(tags, events);
    PerColumnRecord(
      d,
      seq(|d.descriptors|, b requires 0 <= b < |d.descriptors| =>
        if Columnar(table, d.descriptors[b], events) then |table[DescriptorId(d.descriptors[b])].entries| else 0),
      seq(|d.descriptors|, b requires 0 <= b < |d.descriptors| => BankStreams(table, d.descriptors[b], events)))
  }

  lemma RecordsValid(tags: seq<u32>, events: seq<seq<Structure>>, table: Table)
    requires |tags| == |events| && TableOk(table)
    ensures ByBankOf(tags, events).Valid()
    ensures PerColumnOf(tags, events, table).Valid()
  {
    hide DirectoryOf, BankBytes, Exact, LaidOut;
    DirectoryValid(tags, events);
    var d := DirectoryOf(tags, events);
    forall b | 0 <= b < |d.descriptors| && Columnar(table, d.descriptors[b], events)
      ensures |table[DescriptorId(d.descriptors[b])].entries| >= 1
    {
      SomeColumn(table[DescriptorId(d.descriptors[b])]);
    }
  }

  lemma SomeColumn(s: Schema)
    requires Exact(s) && s.rowSize > 0
    ensures |s.entries| >= 1
  {
  }

  lemma CopiesStep(ss: seq<Structure>, id: Id)
    requires ss != []
    ensures
      var n := |ss| - 1;
      if IdOf(ss[n]) == id then
        && LastSize(ss, id) == |ss[n].data|
        && Appended(ss, id) == Appended(ss[..n], id) + ss[n].data
      else LastSize(ss, id) == LastSize(ss[..n], id) && Appended(ss, id) == Appended(ss[..n], id)
  {
    var n := |ss| - 1;
    if IdOf(ss[n]) == id {
      FlattenSnoc(Copies(ss[..n], id), ss[n].data);
      assert Copies(ss, id) == Copies(ss[..n], id) + [ss[n].data];
    } else {
      assert Copies(ss, id) == Copies(ss[..n], id) + [] == Copies(ss[..n], id);
    }
  }
}
