/** The split record layouts after parsing: a directory shared by both, whole-bank streams or
    per-column streams (src/wire/by_bank.rs, src/wire/per_column.rs). */
module Records {
  import opened Bytes
  import opened Events

  /** `ty` and `headerSize` are kept once per bank for the whole record. */
  datatype Descriptor = Descriptor(group: u16, item: byte, ty: byte, headerSize: byte)

  function DescriptorId(d: Descriptor): Id { (d.group, d.item) }

  predicate IdLess(a: Id, b: Id)
  {
    a.0 < b.0 || (a.0 == b.0 && a.1 < b.1)
  }

  predicate Ascending(ds: seq<Descriptor>)
  {
    forall i, j :: 0 <= i < j < |ds| ==> IdLess(DescriptorId(ds[i]), DescriptorId(ds[j]))
  }

  /** Tables indexed `[bank][event]`; `offsets[b]` has one more entry than there are events. */
  datatype Directory = Directory(
    descriptors: seq<Descriptor>,
    tags: seq<u32>,
    present: seq<seq<bool>>,
    offsets: seq<seq<u32>>)
  {
    ghost predicate Valid()
    {
      && Ascending(descriptors)
      && |present| == |offsets| == |descriptors|
      && (forall b :: 0 <= b < |descriptors| ==> |present[b]| == |tags| && |offsets[b]| == |tags| + 1)
      && (forall b, i, j :: 0 <= b < |descriptors| && 0 <= i <= j <= |tags| ==> offsets[b][i] <= offsets[b][j])
    }

    function Banks(): nat { |descriptors| }

    function Events(): nat { |tags| }

    predicate Holds(e: nat, b: nat) { b < Banks() && e < Events() }

    predicate Has(e: nat, b: nat)
      requires Valid() && Holds(e, b)
    {
      present[b][e]
    }

    function Offset(e: nat, b: nat): u32
      requires Valid() && b < Banks() && e <= Events()
    {
      offsets[b][e]
    }

    function Size(e: nat, b: nat): u32
      requires Valid() && Holds(e, b)
    {
      offsets[b][e + 1] - offsets[b][e]
    }
  }

  /** The bank carrying `id`, if the record has one. */
  function IndexOf(ds: seq<Descriptor>, id: Id): (r: Option<nat>)
    ensures r.Some? ==> r.value < |ds| && DescriptorId(ds[r.value]) == id
    ensures r.None? ==> forall i :: 0 <= i < |ds| ==> DescriptorId(ds[i]) != id
  {
    if ds == [] then None
    else if DescriptorId(ds[|ds| - 1]) == id then Some(|ds| - 1)
    else IndexOf(ds[..|ds| - 1], id)
  }

  /** `bank_index`: binary search, sound because the parser refuses an unsorted table. */
  method BankIndex(ds: seq<Descriptor>, id: Id) returns (r: Option<nat>)
    requires Ascending(ds)
    ensures r == IndexOf(ds, id)
  {
    var lo, hi := 0, |ds|;
    while lo < hi
      invariant 0 <= lo <= hi <= |ds|
      invariant forall i :: 0 <= i < lo ==> IdLess(DescriptorId(ds[i]), id)
      invariant forall i :: hi <= i < |ds| ==> IdLess(id, DescriptorId(ds[i]))
    {
      var mid := (lo + hi) / 2;
      var at := DescriptorId(ds[mid]);
      if at == id {
        return Some(mid);
      } else if IdLess(at, id) {
        lo := mid + 1;
      } else {
        hi := mid;
      }
    }
    r := None;
  }

  /** One stream a bank. `None` marks a stream that does not inflate. */
  datatype ByBankRecord = ByBankRecord(dir: Directory, streams: seq<Option<seq<byte>>>) {
    ghost predicate Valid()
    {
      dir.Valid() && |streams| == dir.Banks()
    }

    /** The event's slice of the bank's stream, when the stream inflates and reaches that far. */
    function Extent(e: nat, b: nat): Option<seq<byte>>
      requires Valid() && dir.Holds(e, b)
    {
      var lo, hi := dir.Offset(e, b), dir.Offset(e + 1, b);
      if streams[b].Some? && hi <= |streams[b].value| then Some(streams[b].value[lo..hi]) else None
    }
  }

  /** One stream a column. A bank of no columns is opaque: its one stream is the whole bank. */
  datatype PerColumnRecord = PerColumnRecord(dir: Directory, numCols: seq<nat>, streams: seq<seq<Option<seq<byte>>>>) {
    ghost predicate Valid()
    {
      && dir.Valid() && |numCols| == |streams| == dir.Banks()
      && forall b :: 0 <= b < dir.Banks() ==> |streams[b]| == Max(1, numCols[b])
    }

    predicate Opaque(b: nat)
      requires Valid() && b < dir.Banks()
    {
      numCols[b] == 0
    }

    function Stream(b: nat, c: nat): Option<seq<byte>>
      requires Valid() && b < dir.Banks()
    {
      if c < |streams[b]| then streams[b][c] else None
    }

    function Extent(e: nat, b: nat): Option<seq<byte>>
      requires Valid() && dir.Holds(e, b)
    {
      var lo, hi := dir.Offset(e, b), dir.Offset(e + 1, b);
      if streams[b][0].Some? && hi <= |streams[b][0].value| then Some(streams[b][0].value[lo..hi]) else None
    }
  }
}
