/** Event bytes: structure headers, the structure walk, `find`, and whole-event encoding
    (src/event/event.rs, src/event/build.rs). */
module Events {
  import opened Bytes

  const EVENT_HEADER_SIZE := 16
  const BANK_STRUCTURE_SIZE := 8
  const EH_SIZE := 4
  const EH_TAG := 8
  const EH_RESERVED := 12

  const EVENT_MAGIC: seq<byte> := [0x45, 0x56, 0x4E, 0x54]  // "EVNT"

  // ---- Structure headers --------------------------------------------------

  /** `size` is a full u32; only its low 24 bits reach the wire. */
  datatype StructureHeader = StructureHeader(group: u16, item: byte, ty: byte, size: u32, headerSize: byte)

  datatype Structure = Structure(header: StructureHeader, data: seq<byte>)

  type Id = (u16, byte)

  function IdOf(s: Structure): Id { (s.header.group, s.header.item) }

  function ParseHeader(buf: seq<byte>): (r: Option<StructureHeader>)
  {
    if |buf| < BANK_STRUCTURE_SIZE then None
    else
      var length := ReadU32(buf, 4);
      Some(StructureHeader(ReadU16(buf, 0), buf[2], buf[3], length % U24_LIMIT, length / U24_LIMIT))
  }

  function HeaderBytes(h: StructureHeader): (r: seq<byte>)
    ensures |r| == BANK_STRUCTURE_SIZE
  {
    U16LE(h.group) + [h.item, h.ty] + U32LE(h.size % U24_LIMIT + h.headerSize * U24_LIMIT as int)
  }

  /** A header survives the wire exactly when its size fits the 24 bits it is given. */
  lemma HeaderRoundTrip(h: StructureHeader, rest: seq<byte>)
    ensures ParseHeader(HeaderBytes(h) + rest) == Some(h.(size := h.size % U24_LIMIT))
    ensures ParseHeader(HeaderBytes(h) + rest) == Some(h) <==> h.size < U24_LIMIT
  {
    var b := HeaderBytes(h) + rest;
    var word := h.size % U24_LIMIT + h.headerSize * U24_LIMIT as int;
    assert b[0..2] == U16LE(h.group);
    assert b[4..8] == U32LE(word);
    ReadU16OfWord(h.group, b, 0);
    ReadU32OfWord(word, b, 4);
  }

  /** What `parse` read, `to_bytes` writes back byte for byte. */
  lemma HeaderReprint(buf: seq<byte>)
    requires BANK_STRUCTURE_SIZE <= |buf|
    ensures HeaderBytes(ParseHeader(buf).value) == buf[..BANK_STRUCTURE_SIZE]
  {
    var h := ParseHeader(buf).value;
    var length := ReadU32(buf, 4);
    assert h.size % U24_LIMIT + h.headerSize * U24_LIMIT as int == length;
    WordOfReadU32(buf, 4);
    assert U16LE(h.group) == buf[0..2];
    assert buf[..8] == buf[0..2] + [buf[2], buf[3]] + buf[4..8];
  }

  // ---- Event header -------------------------------------------------------

  function EventSize(buf: seq<byte>): (r: u32)
  {
    if |buf| < EVENT_HEADER_SIZE then 0 else ReadU32(buf, EH_SIZE)
  }

  function EventTag(buf: seq<byte>): (r: u32)
  {
    if |buf| < EVENT_HEADER_SIZE then 0 else ReadU32(buf, EH_TAG)
  }

  // ---- The structure walk -------------------------------------------------

  /** What the iterator has left to yield from `pos`: it stops at the first structure that does
      not fit, and stays stopped. */
  function Walk(buf: seq<byte>, pos: nat, end: nat): (r: seq<Structure>)
    requires end <= |buf|
    decreases end - pos
  {
    if pos + BANK_STRUCTURE_SIZE > end then []
    else
      var h := ParseHeader(buf[pos..]).value;
      var next := pos + BANK_STRUCTURE_SIZE + h.size;
      if next > end then [] else [Structure(h, buf[pos + BANK_STRUCTURE_SIZE..next])] + Walk(buf, next, end)
  }

  function WalkEnd(buf: seq<byte>): (end: nat)
    ensures end <= |buf|
  {
    Min(EventSize(buf), |buf|)
  }

  function Structures(buf: seq<byte>): (r: seq<Structure>)
  {
    Walk(buf, EVENT_HEADER_SIZE, WalkEnd(buf))
  }

  /** `StructureIter::Bytes`. */
  class StructureIter {
    const buf: seq<byte>
    var pos: nat
    const end: nat

    ghost predicate Valid() reads this { end <= |buf| }

    function Remaining(): (r: seq<Structure>)
      reads this
      requires Valid()
    {
      Walk(buf, pos, end)
    }

    constructor (buf: seq<byte>)
      ensures Valid() && this.buf == buf && Remaining() == Structures(buf)
    {
      this.buf := buf;
      pos := EVENT_HEADER_SIZE;
      end := WalkEnd(buf);
    }

    method Next() returns (r: Option<Structure>)
      requires Valid()
      modifies this
      ensures Valid()
      ensures old(Remaining()) == [] ==> r == None && Remaining() == []
      ensures old(Remaining()) != [] ==> r == Some(old(Remaining())[0]) && Remaining() == old(Remaining())[1..]
    {
      if pos + BANK_STRUCTURE_SIZE > end {
        return None;
      }
      var h := ParseHeader(buf[pos..]).value;
      var dataStart := pos + BANK_STRUCTURE_SIZE;
      var dataEnd := dataStart + h.size;
      if dataEnd > end {
        return None;
      }
      var data := buf[dataStart..dataEnd];
      pos := dataEnd;
      r := Some(Structure(h, data));
    }
  }

  /** The first structure of `ss` with the identifier asked for. */
  function FirstWith(ss: seq<Structure>, id: Id): (r: Option<Structure>)
    ensures r.None? <==> forall s :: s in ss ==> IdOf(s) != id
    ensures r.Some? ==> r.value in ss && IdOf(r.value) == id
  {
    if ss == [] then None
    else if IdOf(ss[0]) == id then Some(ss[0])
    else FirstWith(ss[1..], id)
  }

  /** `Event::find`: walk until the identifier matches. */
  method Find(buf: seq<byte>, id: Id) returns (r: Option<Structure>)
    ensures r == FirstWith(Structures(buf), id)
  {
    var it := new StructureIter(buf);
    while true
      invariant it.Valid() && fresh(it) && it.buf == buf
      invariant FirstWith(Structures(buf), id) == FirstWith(it.Remaining(), id)
      decreases |it.Remaining()|
    {
      var s := it.Next();
      match s
      case None => return None;
      case Some(x) =>
        if IdOf(x) == id {
          return Some(x);
        }
    }
  }

  predicate Has(buf: seq<byte>, id: Id)
  {
    FirstWith(Structures(buf), id).Some?
  }

  // ---- Encoding -----------------------------------------------------------

  /** A structure whose header tells the truth about its data and fits the wire. */
  predicate Encodable(s: Structure)
  {
    s.header.size == |s.data| < U24_LIMIT
  }

  function StructureBytes(s: Structure): (r: seq<byte>)
    ensures |r| == BANK_STRUCTURE_SIZE + |s.data|
  {
    HeaderBytes(s.header) + s.data
  }

  function Encode(ss: seq<Structure>): (r: seq<byte>)
  {
    if ss == [] then [] else StructureBytes(ss[0]) + Encode(ss[1..])
  }

  lemma NothingEncoded()
    ensures Encode([]) == []
  {
  }

  lemma {:induction false} EncodeAppend(a: seq<Structure>, b: seq<Structure>)
    ensures Encode(a + b) == Encode(a) + Encode(b)
  {
    NothingEncoded();
    hide Encode;
    if a == [] {
      assert a + b == b;
    } else {
      var x, y, z := StructureBytes(a[0]), Encode(a[1..]), Encode(b);
      EncodeAppend(a[1..], b);
      EncodeCons(a[0], a[1..]);
      EncodeCons(a[0], a[1..] + b);
      assert a == [a[0]] + a[1..] && a + b == [a[0]] + (a[1..] + b);
      assert x + (y + z) == (x + y) + z;
    }
  }

  lemma EncodeCons(s: Structure, rest: seq<Structure>)
    ensures Encode([s] + rest) == StructureBytes(s) + Encode(rest)
  {
    assert ([s] + rest)[1..] == rest;
  }

  lemma EncodeSnoc(a: seq<Structure>, s: Structure)
    ensures Encode(a + [s]) == Encode(a) + StructureBytes(s)
  {
    EncodeAppend(a, [s]);
    assert Encode([s]) == StructureBytes(s) + Encode([]);
  }

  function EventBytes(tag: u32, reserved: seq<byte>, structures: seq<byte>): (r: seq<byte>)
    requires |reserved| == 4
    ensures |r| == EVENT_HEADER_SIZE + |structures|
    ensures r[..4] == [0x45, 0x56, 0x4e, 0x54] && r[EVENT_HEADER_SIZE..] == structures
  {
    EVENT_MAGIC + U32LE((EVENT_HEADER_SIZE + |structures|) % U32_LIMIT) + U32LE(tag) + reserved + structures
  }

  /** One structure, read and written back. */
  lemma StructureReprint(buf: seq<byte>, pos: nat, next: nat)
    requires pos + BANK_STRUCTURE_SIZE <= next <= |buf|
    requires next == pos + BANK_STRUCTURE_SIZE + ParseHeader(buf[pos..]).value.size
    ensures
      var s := Structure(ParseHeader(buf[pos..]).value, buf[pos + BANK_STRUCTURE_SIZE..next]);
      Encodable(s) && StructureBytes(s) == buf[pos..next]
  {
    HeaderReprint(buf[pos..]);
    assert ParseHeader(buf[pos..]).value.size < U24_LIMIT;
    hide ParseHeader, HeaderBytes;
    assert buf[pos..next] == buf[pos..pos + BANK_STRUCTURE_SIZE] + buf[pos + BANK_STRUCTURE_SIZE..next];
  }

  /** Everything the walk yields is encodable and covers exactly the bytes it was read from. */
  lemma {:induction false} WalkIsEncoded(buf: seq<byte>, pos: nat, end: nat)
    requires end <= |buf|
    ensures forall s :: s in Walk(buf, pos, end) ==> Encodable(s)
    ensures pos <= end ==> pos + |Encode(Walk(buf, pos, end))| <= end
    ensures pos <= end ==> Encode(Walk(buf, pos, end)) == buf[pos..pos + |Encode(Walk(buf, pos, end))|]
    ensures end < pos ==> Walk(buf, pos, end) == []
    decreases end - pos
  {
    NothingEncoded();
    if pos + BANK_STRUCTURE_SIZE <= end {
      var h := ParseHeader(buf[pos..]).value;
      var next := pos + BANK_STRUCTURE_SIZE + h.size;
      if next <= end {
        WalkIsEncoded(buf, next, end);
        StructureReprint(buf, pos, next);
        hide ParseHeader, StructureBytes, Encode;
        var rest := Encode(Walk(buf, next, end));
        EncodeCons(Structure(h, buf[pos + BANK_STRUCTURE_SIZE..next]), Walk(buf, next, end));
        assert buf[pos..next + |rest|] == buf[pos..next] + buf[next..next + |rest|];
      }
    }
  }

  lemma WalkNothing(buf: seq<byte>, pos: nat)
    requires pos <= |buf|
    ensures Walk(buf, pos, pos) == []
  {
  }

  lemma WalkStep(buf: seq<byte>, pos: nat, end: nat, s: Structure)
    requires end <= |buf|
    requires Encodable(s) && pos + |StructureBytes(s)| <= end
    requires buf[pos..pos + |StructureBytes(s)|] == StructureBytes(s)
    ensures Walk(buf, pos, end) == [s] + Walk(buf, pos + |StructureBytes(s)|, end)
  {
    hide HeaderBytes, ParseHeader;
    var next := pos + |StructureBytes(s)|;
    var window := buf[pos..next];
    HeaderRoundTrip(s.header, s.data + buf[next..]);
    assert buf[pos..] == window + buf[next..] == HeaderBytes(s.header) + (s.data + buf[next..]);
    assert buf[pos + BANK_STRUCTURE_SIZE..next] == window[BANK_STRUCTURE_SIZE..] == s.data;
  }

  /** The walk reads back what was encoded, wherever it sits in the buffer. */
  lemma {:induction false} WalkOfEncode(pre: seq<byte>, ss: seq<Structure>, post: seq<byte>)
    requires forall s :: s in ss ==> Encodable(s)
    ensures Walk(pre + Encode(ss) + post, |pre|, |pre| + |Encode(ss)|) == ss
    decreases |ss|
  {
    hide StructureBytes, Walk;
    if ss == [] {
      WalkNothing(pre + Encode(ss) + post, |pre|);
    } else {
      var s, rest := ss[0], Encode(ss[1..]);
      var buf, pre' := pre + Encode(ss) + post, pre + StructureBytes(s);
      assert buf == pre' + rest + post;
      WalkOfEncode(pre', ss[1..], post);
      assert s in ss;
      WalkStep(buf, |pre|, |pre| + |Encode(ss)|, s);
      var end := |pre| + |Encode(ss)|;
      assert end == |pre'| + |rest|;
      assert Walk(buf, |pre'|, end) == ss[1..];
      assert Walk(buf, |pre|, end) == [s] + ss[1..];
      assert ss == [s] + ss[1..];
    }
  }

  /** Stopping the walk early only loses structures from the end. */
  lemma {:induction false} WalkPrefix(pre: seq<byte>, ss: seq<Structure>, end: nat)
    requires forall s :: s in ss ==> Encodable(s)
    requires end <= |pre| + |Encode(ss)|
    ensures Walk(pre + Encode(ss), |pre|, end) <= ss
    decreases |ss|
  {
    hide StructureBytes, Walk;
    if ss == [] {
      WalkShort(pre + Encode(ss), |pre|, end);
    } else {
      var s, rest := ss[0], Encode(ss[1..]);
      var buf, pre' := pre + Encode(ss), pre + StructureBytes(s);
      assert s in ss;
      assert buf == pre' + rest;
      WalkPrefix(pre', ss[1..], end);
      if |pre'| <= end {
        WalkStep(buf, |pre|, end, s);
        assert ss == [s] + ss[1..];
      } else {
        WalkCut(buf, |pre|, end, s);
      }
    }
  }

  lemma WalkShort(buf: seq<byte>, pos: nat, end: nat)
    requires end <= |buf| && end <= pos
    ensures Walk(buf, pos, end) == []
  {
  }

  lemma WalkCut(buf: seq<byte>, pos: nat, end: nat, s: Structure)
    requires end <= |buf| && Encodable(s)
    requires end < pos + |StructureBytes(s)| <= |buf|
    requires buf[pos..pos + |StructureBytes(s)|] == StructureBytes(s)
    ensures Walk(buf, pos, end) == []
  {
    hide HeaderBytes, ParseHeader;
    var next := pos + |StructureBytes(s)|;
    HeaderRoundTrip(s.header, s.data + buf[next..]);
    assert buf[pos..] == buf[pos..next] + buf[next..] == HeaderBytes(s.header) + (s.data + buf[next..]);
  }

  lemma EventWords(tag: u32, reserved: seq<byte>, structures: seq<byte>)
    requires |reserved| == 4
    ensures EventTag(EventBytes(tag, reserved, structures)) == tag
    ensures EventSize(EventBytes(tag, reserved, structures)) == (EVENT_HEADER_SIZE + |structures|) % U32_LIMIT
    ensures EventBytes(tag, reserved, structures)[..4] == EVENT_MAGIC
    ensures EventBytes(tag, reserved, structures)[EH_RESERVED..EVENT_HEADER_SIZE] == reserved
    ensures EventBytes(tag, reserved, structures)[EVENT_HEADER_SIZE..] == structures
  {
    var ev := EventBytes(tag, reserved, structures);
    var size := (EVENT_HEADER_SIZE + |structures|) % U32_LIMIT;
    assert ev[EH_SIZE..EH_SIZE + 4] == U32LE(size);
    assert ev[EH_TAG..EH_TAG + 4] == U32LE(tag);
    ReadU32OfWord(size, ev, EH_SIZE);
    ReadU32OfWord(tag, ev, EH_TAG);
  }

  /** An event that fits its size word reads back as the structures it was built from. */
  lemma EventReadsBack(tag: u32, reserved: seq<byte>, ss: seq<Structure>)
    requires |reserved| == 4
    requires forall s :: s in ss ==> Encodable(s)
    requires EVENT_HEADER_SIZE + |Encode(ss)| < U32_LIMIT
    ensures Structures(EventBytes(tag, reserved, Encode(ss))) == ss
  {
    hide Walk;
    var body := Encode(ss);
    var ev := EventBytes(tag, reserved, body);
    EventWords(tag, reserved, body);
    assert WalkEnd(ev) == |ev|;
    var pre := ev[..EVENT_HEADER_SIZE];
    assert ev == pre + body + [];
    WalkOfEncode(pre, ss, []);
  }

  /** Reading an encoded event gives back its structures, in order, exactly when the total fits
      the 32-bit size word. A longer event is written with a wrapped size and loses structures. */
  lemma EventRoundTrip(tag: u32, reserved: seq<byte>, ss: seq<Structure>)
    requires |reserved| == 4
    requires forall s :: s in ss ==> Encodable(s)
    ensures Structures(EventBytes(tag, reserved, Encode(ss))) == ss
            <==> EVENT_HEADER_SIZE + |Encode(ss)| < U32_LIMIT
  {
    hide Walk;
    var body := Encode(ss);
    if EVENT_HEADER_SIZE + |body| < U32_LIMIT {
      EventReadsBack(tag, reserved, ss);
    } else {
      var ev := EventBytes(tag, reserved, body);
      EventWords(tag, reserved, body);
      var end := WalkEnd(ev);
      assert end < EVENT_HEADER_SIZE + |body|;
      WalkIsEncoded(ev, EVENT_HEADER_SIZE, end);
    }
  }

  /** Whatever the size word says, an encoded event yields a prefix of its structures. */
  lemma EventYieldsPrefix(tag: u32, reserved: seq<byte>, ss: seq<Structure>)
    requires |reserved| == 4
    requires forall s :: s in ss ==> Encodable(s)
    ensures Structures(EventBytes(tag, reserved, Encode(ss))) <= ss
  {
    hide Walk;
    var body := Encode(ss);
    var ev := EventBytes(tag, reserved, body);
    EventWords(tag, reserved, body);
    var pre := ev[..EVENT_HEADER_SIZE];
    assert ev == pre + body;
    WalkPrefix(pre, ss, WalkEnd(ev));
  }
}
