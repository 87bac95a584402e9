/** Copying events with only some of their banks (`skim_banks_with`, src/read/chain.rs). */
module Projections {
  import opened Bytes
  import opened Events

  /** The structures whose bank is kept, in order. */
  function Keep(ss: seq<Structure>, ids: set<Id>): (r: seq<Structure>)
  {
    if ss == [] then []
    else (if IdOf(ss[0]) in ids then [ss[0]] else []) + Keep(ss[1..], ids)
  }

  function Dropped(ss: seq<Structure>, ids: set<Id>): (n: nat)
  {
    if ss == [] then 0 else (if IdOf(ss[0]) in ids then 0 else 1) + Dropped(ss[1..], ids)
  }

  /** The event's own first sixteen bytes with a new size, then the kept structures. */
  function Rebuild(ev: seq<byte>, body: seq<byte>): (r: seq<byte>)
    requires |ev| >= EVENT_HEADER_SIZE && EVENT_HEADER_SIZE + |body| < U32_LIMIT
    ensures |r| == EVENT_HEADER_SIZE + |body|
  {
    ev[..EH_SIZE] + U32LE(EVENT_HEADER_SIZE + |body|) + ev[EH_TAG..EVENT_HEADER_SIZE] + body
  }

  datatype Outcome = Skipped | TooLarge | Projected(bytes: seq<byte>, dropped: nat)

  function Projection(ev: seq<byte>, ids: set<Id>): (r: Outcome)
  {
    if |ev| < EVENT_HEADER_SIZE then Skipped
    else
      var body := Encode(Keep(Structures(ev), ids));
      if EVENT_HEADER_SIZE + |body| >= U32_LIMIT then TooLarge
      else Projected(Rebuild(ev, body), Dropped(Structures(ev), ids))
  }

  lemma KeepStep(s: Structure, rest: seq<Structure>, ids: set<Id>)
    ensures Encode(Keep([s] + rest, ids))
      == (if IdOf(s) in ids then StructureBytes(s) else []) + Encode(Keep(rest, ids))
    ensures Dropped([s] + rest, ids) == (if IdOf(s) in ids then 0 else 1) + Dropped(rest, ids)
  {
    hide StructureBytes;
    var all := [s] + rest;
    assert all[1..] == rest;
    if IdOf(s) in ids {
      assert Keep(all, ids)[1..] == Keep(rest, ids);
    } else {
      assert Keep(all, ids) == Keep(rest, ids);
    }
  }

  /** A structure moves from what is left to what is copied. */
  lemma CopyStep(body: seq<byte>, s: Structure, rest: seq<Structure>, ids: set<Id>)
    ensures body + Encode(Keep([s] + rest, ids))
      == (if IdOf(s) in ids then body + (HeaderBytes(s.header) + s.data) else body) + Encode(Keep(rest, ids))
    ensures Dropped([s] + rest, ids) == (if IdOf(s) in ids then 0 else 1) + Dropped(rest, ids)
  {
    KeepStep(s, rest, ids);
    StructureSplits(s);
    hide StructureBytes, HeaderBytes, Keep, Dropped, Encode;
    var own, later := StructureBytes(s), Encode(Keep(rest, ids));
    assert body + (own + later) == body + own + later && [] + later == later;
  }

  /** Walks the structures, copying the kept and counting the others. */
  method CopyKept(ev: seq<byte>, ids: set<Id>) returns (body: seq<byte>, dropped: nat)
    ensures body == Encode(Keep(Structures(ev), ids)) && dropped == Dropped(Structures(ev), ids)
  {
    hide Walk, Structures, HeaderBytes, Encode, Keep, Dropped;
    body, dropped := [], 0;
    var it := new StructureIter(ev);
    var done := false;
    while !done
      invariant it.Valid() && fresh(it)
      invariant done ==> it.Remaining() == []
      invariant Encode(Keep(Structures(ev), ids)) == body + Encode(Keep(it.Remaining(), ids))
      invariant Dropped(Structures(ev), ids) == dropped + Dropped(it.Remaining(), ids)
      decreases |it.Remaining()| + if done then 0 else 1
    {
      ghost var left := it.Remaining();
      var s := it.Next();
      if s.None? {
        done := true;
      } else {
        var x := s.value;
        assert left == [x] + it.Remaining();
        CopyStep(body, x, it.Remaining(), ids);
        if IdOf(x) in ids {
          body := body + (HeaderBytes(x.header) + x.data);
        } else {
          dropped := dropped + 1;
        }
      }
    }
    NothingLeft(ids);
  }

  /** One event of the skim. */
  method Project(ev: seq<byte>, ids: set<Id>) returns (r: Outcome)
    ensures r == Projection(ev, ids)
  {
    if |ev| < EVENT_HEADER_SIZE {
      return Skipped;
    }
    hide Structures, Encode, Keep, Dropped;
    var body, dropped := CopyKept(ev, ids);
    if EVENT_HEADER_SIZE + |body| >= U32_LIMIT {
      return TooLarge;
    }
    r := Projected(ev[..EH_SIZE] + U32LE(EVENT_HEADER_SIZE + |body|) + ev[EH_TAG..EVENT_HEADER_SIZE] + body, dropped);
  }

  lemma StructureSplits(s: Structure)
    ensures StructureBytes(s) == HeaderBytes(s.header) + s.data
  {
  }

  lemma NothingLeft(ids: set<Id>)
    ensures Encode(Keep([], ids)) == [] && Dropped([], ids) == 0
  {
  }

  // ---- What comes out -----------------------------------------------------------------

  lemma {:induction false} KeepAre(ss: seq<Structure>, ids: set<Id>)
    ensures forall s :: s in Keep(ss, ids) <==> s in ss && IdOf(s) in ids
    ensures |Keep(ss, ids)| + Dropped(ss, ids) == |ss|
    ensures |Encode(Keep(ss, ids))| <= |Encode(ss)|
  {
    hide StructureBytes;
    if ss != [] {
      KeepAre(ss[1..], ids);
      KeepStep(ss[0], ss[1..], ids);
      assert [ss[0]] + ss[1..] == ss;
    }
  }

  lemma {:induction false} KeepTwice(ss: seq<Structure>, k1: set<Id>, k2: set<Id>)
    ensures Keep(Keep(ss, k1), k2) == Keep(ss, k1 * k2)
  {
    if ss != [] {
      KeepTwice(ss[1..], k1, k2);
      if IdOf(ss[0]) in k1 {
        assert Keep(ss, k1)[1..] == Keep(ss[1..], k1);
      } else {
        assert Keep(ss, k1) == Keep(ss[1..], k1);
      }
    }
  }

  lemma {:induction false} KeepFirst(ss: seq<Structure>, ids: set<Id>, id: Id)
    ensures FirstWith(Keep(ss, ids), id) == if id in ids then FirstWith(ss, id) else None
  {
    if ss != [] {
      KeepFirst(ss[1..], ids, id);
      if IdOf(ss[0]) in ids {
        assert Keep(ss, ids)[1..] == Keep(ss[1..], ids);
      } else {
        assert Keep(ss, ids) == Keep(ss[1..], ids);
      }
    }
  }

  /** An event of ordinary length always fits its new size word. */
  lemma NeverTooLarge(ev: seq<byte>, ids: set<Id>)
    requires EVENT_HEADER_SIZE <= |ev| < U32_LIMIT
    ensures Projection(ev, ids).Projected? && |Projection(ev, ids).bytes| <= |ev|
  {
    hide Walk, Encode, Keep, EventSize;
    KeepAre(Structures(ev), ids);
    if WalkEnd(ev) >= EVENT_HEADER_SIZE {
      WalkIsEncoded(ev, EVENT_HEADER_SIZE, WalkEnd(ev));
    } else {
      WalkIsEncoded(ev, EVENT_HEADER_SIZE, WalkEnd(ev));
      NothingEncoded();
    }
  }

  /** The projected event holds exactly the kept structures, in order and verbatim; its tag,
      reserved word and magic are the event's own and its size word is true. */
  lemma ProjectionReads(ev: seq<byte>, ids: set<Id>)
    requires Projection(ev, ids).Projected?
    ensures
      var p := Projection(ev, ids).bytes;
      && Structures(p) == Keep(Structures(ev), ids)
      && EventTag(p) == EventTag(ev) && EventSize(p) == |p|
      && p[..EH_SIZE] == ev[..EH_SIZE] && p[EH_RESERVED..EVENT_HEADER_SIZE] == ev[EH_RESERVED..EVENT_HEADER_SIZE]
      && p[EVENT_HEADER_SIZE..] == Encode(Keep(Structures(ev), ids))
      && |Structures(p)| + Projection(ev, ids).dropped == |Structures(ev)|
  {
    hide Walk, Keep, Encode, U32LE, ReadU32;
    var kept := Keep(Structures(ev), ids);
    var body := Encode(kept);
    var p := Rebuild(ev, body);
    assert p[EH_SIZE..EH_SIZE + 4] == U32LE(|p|);
    ReadU32OfWord(|p|, p, EH_SIZE);
    assert p[EH_TAG..EH_TAG + 4] == ev[EH_TAG..EH_TAG + 4];
    SameWindowSameWord(p, EH_TAG, ev, EH_TAG);
    KeepAre(Structures(ev), ids);
    WalkIsEncoded(ev, EVENT_HEADER_SIZE, WalkEnd(ev));
    var pre := p[..EVENT_HEADER_SIZE];
    assert p == pre + body + [];
    WalkOfEncode(pre, kept, []);
    assert WalkEnd(p) == |p|;
  }

  /** A kept bank is found as before, a dropped one not at all. */
  lemma FindAfterProjection(ev: seq<byte>, ids: set<Id>, id: Id)
    requires Projection(ev, ids).Projected?
    ensures FirstWith(Structures(Projection(ev, ids).bytes), id)
      == if id in ids then FirstWith(Structures(ev), id) else None
  {
    hide Walk, Keep, FirstWith, Encode;
    ProjectionReads(ev, ids);
    KeepFirst(Structures(ev), ids, id);
  }

  /** Projecting twice is projecting once by what both keep. */
  lemma ProjectTwice(ev: seq<byte>, k1: set<Id>, k2: set<Id>)
    requires EVENT_HEADER_SIZE <= |ev| < U32_LIMIT
    ensures
      var once := Projection(ev, k1);
      && once.Projected? && Projection(once.bytes, k2).Projected? && Projection(ev, k1 * k2).Projected?
      && Projection(once.bytes, k2).bytes == Projection(ev, k1 * k2).bytes
      && once.dropped + Projection(once.bytes, k2).dropped == Projection(ev, k1 * k2).dropped
  {
    NeverTooLarge(ev, k1);
    NeverTooLarge(ev, k1 * k2);
    var once := Projection(ev, k1).bytes;
    NeverTooLarge(once, k2);
    ProjectionReads(ev, k1);
    ProjectionReads(ev, k1 * k2);
    ProjectionReads(once, k2);
    KeepTwice(Structures(ev), k1, k2);
    TwoHeads(ev, once, Encode(Keep(Structures(ev), k1 * k2)), Encode(Keep(Structures(ev), k1)));
  }

  lemma TwoHeads(ev: seq<byte>, once: seq<byte>, body: seq<byte>, first: seq<byte>)
    requires |ev| >= EVENT_HEADER_SIZE && EVENT_HEADER_SIZE + |body| < U32_LIMIT
    requires EVENT_HEADER_SIZE + |first| < U32_LIMIT
    requires once == Rebuild(ev, first)
    ensures Rebuild(once, body) == Rebuild(ev, body)
  {
    hide U32LE;
    assert once[..EH_SIZE] == ev[..EH_SIZE];
    assert once[EH_TAG..EVENT_HEADER_SIZE] == ev[EH_TAG..EVENT_HEADER_SIZE];
  }
}
