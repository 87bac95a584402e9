/** An event's bank by name, with the locator it remembers between calls (`bank`,
    `resolve_and_cache`, `rebuild`, src/event/owned.rs). */
module BankLookups {
  import opened Bytes
  import opened Events
  import opened Schemas
  import opened Dictionaries
  import opened Records
  import opened Banks
  import opened EventIters
  import opened ColumnReads

  /** Where a bank was found: a byte range of the event, or a bank of the split record. */
  datatype Loc = BytesAt(off: nat, len: nat) | BankAt(index: nat)

  datatype Located = Located(id: Id, loc: Loc)

  /** The byte range of the first structure with the identifier. */
  function DataRange(buf: seq<byte>, pos: nat, end: nat, id: Id): (r: Option<(nat, nat)>)
    requires end <= |buf|
    decreases end - pos
  {
    if pos + BANK_STRUCTURE_SIZE > end then None
    else
      var h := ParseHeader(buf[pos..]).value;
      var next := pos + BANK_STRUCTURE_SIZE + h.size;
      if next > end then None
      else if (h.group, h.item) == id then Some((pos + BANK_STRUCTURE_SIZE, h.size))
      else DataRange(buf, next, end, id)
  }

  /** The range an answer names holds the data of the structure found. */
  predicate RangeOf(buf: seq<byte>, range: Option<(nat, nat)>, found: Option<Structure>)
  {
    match (range, found)
    case (None, None) => true
    case (Some(at), Some(s)) => at.0 + at.1 <= |buf| && buf[at.0..at.0 + at.1] == s.data
    case _ => false
  }

  /** One step of the walk and of the search beside it. */
  lemma WalkOne(buf: seq<byte>, pos: nat, end: nat, id: Id)
    requires pos + BANK_STRUCTURE_SIZE <= end <= |buf|
    ensures ParseHeader(buf[pos..]).Some?
    ensures
      var h := ParseHeader(buf[pos..]).value;
      var next := pos + BANK_STRUCTURE_SIZE + h.size;
      if next > end then Walk(buf, pos, end) == [] && DataRange(buf, pos, end, id) == None
      else
        && Walk(buf, pos, end) == [Structure(h, buf[pos + BANK_STRUCTURE_SIZE..next])] + Walk(buf, next, end)
        && DataRange(buf, pos, end, id)
             == if (h.group, h.item) == id then Some((pos + BANK_STRUCTURE_SIZE, h.size)) else DataRange(buf, next, end, id)
  {
    assert ParseHeader(buf[pos..]).Some?;
    hide ParseHeader;
  }

  lemma FirstWithStep(s: Structure, rest: seq<Structure>, id: Id)
    ensures FirstWith([s] + rest, id) == if IdOf(s) == id then Some(s) else FirstWith(rest, id)
  {
    assert ([s] + rest)[1..] == rest;
  }

  lemma {:induction false} DataRangeIs(buf: seq<byte>, pos: nat, end: nat, id: Id)
    requires end <= |buf|
    ensures RangeOf(buf, DataRange(buf, pos, end, id), FirstWith(Walk(buf, pos, end), id))
    decreases end - pos
  {
    if pos + BANK_STRUCTURE_SIZE <= end {
      WalkOne(buf, pos, end, id);
      var h := ParseHeader(buf[pos..]).value;
      var next := pos + BANK_STRUCTURE_SIZE + h.size;
      hide Walk, ParseHeader, DataRange;
      if next <= end {
        FirstWithStep(Structure(h, buf[pos + BANK_STRUCTURE_SIZE..next]), Walk(buf, next, end), id);
        DataRangeIs(buf, next, end, id);
      }
    }
  }

  function Locate(ev: EventValue, id: Id): (r: Option<Loc>)
    requires ev.SplitEvent? ==> ev.split.Dir().Valid() && ev.e < ev.split.Dir().Events()
  {
    match ev
    case BlobEvent(bytes) =>
      (match DataRange(bytes, EVENT_HEADER_SIZE, WalkEnd(bytes), id)
       case None => None
       case Some(at) => Some(BytesAt(at.0, at.1)))
    case SplitEvent(split, e) =>
      var b := IndexOf(split.Dir().descriptors, id);
      if b.Some? && split.Dir().Has(e, b.value) then Some(BankAt(b.value)) else None
  }

  /** `rebuild`: the bank at a remembered place, read with the schema given. */
  function BankAtLoc(ev: EventValue, s: Schema, loc: Loc): (r: Option<Bank>)
    requires ev.SplitEvent? ==> ev.split.Valid() && ev.split.Dir().Valid() && ev.e < ev.split.Dir().Events()
  {
    match (ev, loc)
    case (BlobEvent(bytes), BytesAt(off, len)) => if off + len <= |bytes| then NewBank(s, bytes[off..off + len]) else None
    case (SplitEvent(split, e), BankAt(b)) =>
      if b >= split.Dir().Banks() then None
      else
        (match split
         case OfBanks(rec) => (match rec.Extent(e, b) case None => None case Some(raw) => NewBank(s, raw))
         case OfColumns(rec) =>
           if rec.Opaque(b) then (match rec.Extent(e, b) case None => None case Some(raw) => NewBank(s, raw))
           else Some(NewPerColumn(s, rec, b, e)))
    case _ => None
  }

  /** Reading at the place of a bank is reading the bank. */
  lemma RebuildIsResolve(ev: EventValue, s: Schema)
    requires Proper(ev)
    ensures match Locate(ev, SchemaId(s)) case None => EventBank(s, ev) == None case Some(loc) => BankAtLoc(ev, s, loc) == EventBank(s, ev)
  {
    hide NewBank, Walk, DataRange, Directory.Valid, EventSize;
    match ev
    case BlobEvent(bytes) => DataRangeIs(bytes, EVENT_HEADER_SIZE, WalkEnd(bytes), SchemaId(s));
    case SplitEvent(_, _) =>
  }

  /** The by-id table answers with the id it was asked for. */
  ghost predicate Faithful(dict: Dict)
    reads dict
    requires dict.Valid()
  {
    forall s, t :: s in dict.schemas && dict.GetById(SchemaId(s)) == Some(t) ==> SchemaId(t) == SchemaId(s)
  }

  /** What a lookup should give: the schema of that name, read out of the event. */
  ghost function Answer(ev: EventValue, dict: Dict, name: string): Option<Bank>
    reads dict
    requires Proper(ev) && dict.Valid()
  {
    match dict.Get(name)
    case None => None
    case Some(s) => EventBank(s, ev)
  }

  class OwnedEvent {
    const ev: EventValue
    const dict: Dict
    var cache: Option<Located>

    ghost predicate Valid()
      reads this, dict
    {
      && Proper(ev) && dict.Valid()
      && (cache.Some? ==>
            && Locate(ev, cache.value.id) == Some(cache.value.loc)
            && exists s :: s in dict.schemas && SchemaId(s) == cache.value.id)
    }

    constructor (ev: EventValue, dict: Dict)
      requires Proper(ev) && dict.Valid()
      ensures Valid() && this.ev == ev && this.dict == dict && cache == None
    {
      this.ev, this.dict, cache := ev, dict, None;
    }

    /** The schema whose bank the remembered place is read as, when it carries the name asked. */
    ghost function Hit(name: string): (r: Option<Schema>)
      requires Valid()
      reads this, dict
    {
      if cache.None? then None
      else
        match dict.GetById(cache.value.id)
        case Some(s) => if s.name == name then Some(s) else None
        case None => None
    }

    /** `bank`: with a faithful dictionary the remembered place never changes an answer, whatever
        was asked before. A hit re-reads the place and keeps it; a miss resolves afresh and
        remembers the place of what it found. */
    method Bank(name: string) returns (r: Option<Bank>)
      requires Valid()
      modifies this`cache
      ensures Valid()
      ensures Faithful(dict) ==> r == Answer(ev, dict, name)
      ensures old(Hit(name)).Some? ==>
        cache == old(cache) && r == BankAtLoc(ev, old(Hit(name)).value, old(cache).value.loc)
      ensures old(Hit(name)).None? ==> r == Answer(ev, dict, name)
      ensures old(Hit(name)).None? && r.None? ==> cache == old(cache)
      ensures old(Hit(name)).None? && r.Some? ==>
        && dict.Get(name).Some? && cache.Some?
        && cache.value.id == SchemaId(dict.Get(name).value)
        && Locate(ev, cache.value.id) == Some(cache.value.loc)
    {
      hide Locate, BankAtLoc, EventBank;
      if cache.Some? {
        var known := dict.GetById(cache.value.id);
        if known.Some? && known.value.name == name {
          RebuildIsResolve(ev, known.value);
          ByNameIsById(dict, known.value, cache.value.id);
          return BankAtLoc(ev, known.value, cache.value.loc);
        }
      }
      var s := dict.Get(name);
      if s.None? {
        return None;
      }
      RebuildIsResolve(ev, s.value);
      var loc := Locate(ev, SchemaId(s.value));
      if loc.None? {
        return None;
      }
      r := BankAtLoc(ev, s.value, loc.value);
      if r.Some? {
        cache := Some(Located(SchemaId(s.value), loc.value));
      }
    }
  }

  lemma ByNameIsById(dict: Dict, s: Schema, id: Id)
    requires dict.Valid() && dict.GetById(id) == Some(s)
    ensures s in dict.schemas && dict.Get(s.name) == Some(s)
  {
    var i := dict.byId.Get(id).value;
    assert dict.schemas[i] == s;
  }

  /** An unfaithful table misleads: after one bank was read, another bank that the event does not
      carry is read out of its bytes. */
  lemma StaleIdMisleads(dict: Dict, s: Schema, t: Schema)
    requires dict.Valid() && s in dict.schemas && dict.GetById(SchemaId(s)) == Some(t) && SchemaId(t) != SchemaId(s)
    ensures exists ev, loc :: Proper(ev) && Locate(ev, SchemaId(s)) == Some(loc) && BankAtLoc(ev, t, loc) != Answer(ev, dict, t.name)
  {
    var ss := [Structure(StructureHeader(s.group, s.item, 11, 0, 0), [])];
    var bytes := EventBytes(0, [0, 0, 0, 0], Encode(ss));
    var ev := BlobEvent(bytes);
    LoneStructure(ss[0]);
    hide Structures, Encode, EventBytes, DataRange, NewBank, Dict.Valid;
    ByNameIsById(dict, t, SchemaId(s));
    DataRangeIs(bytes, EVENT_HEADER_SIZE, WalkEnd(bytes), SchemaId(s));
    assert FirstWith(ss, SchemaId(s)) == Some(ss[0]) && FirstWith(ss, SchemaId(t)) == None;
    var loc := Locate(ev, SchemaId(s)).value;
    assert BankAtLoc(ev, t, loc) == NewBank(t, []);
    assert EventBank(t, ev) == None;
  }

  lemma LoneStructure(s: Structure)
    requires s.header.size == |s.data| == 0
    ensures Structures(EventBytes(0, [0, 0, 0, 0], Encode([s]))) == [s]
  {
    assert Encode([s]) == StructureBytes(s) + Encode([]);
    EventReadsBack(0, [0, 0, 0, 0], [s]);
  }

  /** A name added under the id another bank has: the id leads to the newcomer. */
  method TwoUnderOneId(kept: Schema, first: Schema) returns (d: Dict)
    requires first.name != kept.name && SchemaId(first) == SchemaId(kept)
    ensures fresh(d) && d.Valid() && d.schemas == [kept, first] && d.byId.Get(SchemaId(kept)) == Some(1)
  {
    hide SchemaIndex.Get, SchemaIndex.Insert, IndexedBy, UniqueNames;
    d := new Dict();
    var ok := d.TryAdd(kept);
    ok := d.TryAdd(first);
    assert d.schemas == [kept, first];
  }

  /** Such a table is easily come by: two names under one id, and the second then replaced under an
      id of its own. The first bank's id now leads to the replacement. */
  method ReplacedUnderNewId(kept: Schema, first: Schema, again: Schema) returns (d: Dict)
    requires first.name == again.name != kept.name
    requires SchemaId(first) == SchemaId(kept) && SchemaId(again) != SchemaId(kept)
    ensures fresh(d) && d.Valid() && d.schemas == [kept, again]
    ensures d.GetById(SchemaId(kept)) == Some(again) && !Faithful(d)
  {
    hide SchemaIndex.Get, SchemaIndex.Insert, IndexedBy, UniqueNames;
    d := TwoUnderOneId(kept, first);
    assert d.Get(again.name) == Some(first) by {
      assert d.schemas[1] == first;
    }
    var ok := d.TryAdd(again);
    assert d.schemas == [kept, again];
    assert d.schemas[0] == kept && d.schemas[1] == again;
  }
}
