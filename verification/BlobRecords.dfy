/** Records that keep their events whole: an index of event lengths, then the events end to end
    (src/wire/record.rs, src/write/record.rs). */
module BlobRecords {
  import opened Bytes
  import opened RecordScanning
  import opened EventIters

  // ---- Event offsets --------------------------------------------------------------

  /** Running event offsets; the sums saturate. */
  function EventOffsets(index: seq<byte>, n: nat): (r: seq<nat>)
    requires 4 * n <= |index|
    ensures |r| == n + 1 && r[0] == 0
  {
    if n == 0 then [0]
    else
      var before := EventOffsets(index, n - 1);
      before + [Min(before[n - 1] + ReadU32(index, 4 * (n - 1)), U32_LIMIT - 1)]
  }

  lemma {:induction false} OffsetsNeverFall(index: seq<byte>, n: nat, i: nat, j: nat)
    requires 4 * n <= |index| && i <= j <= n
    ensures EventOffsets(index, n)[i] <= EventOffsets(index, n)[j]
    decreases n
  {
    hide ReadU32;
    if j < n {
      OffsetsNeverFall(index, n - 1, i, j);
    } else if i < n {
      OffsetsNeverFall(index, n - 1, i, n - 1);
      OffsetsBounded(index, n - 1, n - 1);
    }
  }

  lemma {:induction false} OffsetsBounded(index: seq<byte>, n: nat, i: nat)
    requires 4 * n <= |index| && i <= n
    ensures EventOffsets(index, n)[i] <= U32_LIMIT - 1
    decreases n
  {
    hide ReadU32;
    if i < n {
      OffsetsBounded(index, n - 1, i);
    }
  }

  method ReadOffsets(index: seq<byte>, n: nat) returns (offsets: seq<nat>)
    requires 4 * n <= |index|
    ensures offsets == EventOffsets(index, n)
  {
    offsets := [0];
    var acc := 0;
    for i := 0 to n
      invariant offsets == EventOffsets(index, i) && acc == offsets[i]
    {
      acc := Min(acc + ReadU32(index, 4 * i), U32_LIMIT - 1);
      offsets := offsets + [acc];
    }
  }

  // ---- The index as it is written -------------------------------------------------

  /** The length word of an event: `len() as u32`. */
  function LengthWord(ev: seq<byte>): (r: seq<byte>)
    ensures |r| == 4
  {
    U32LE(|ev| % U32_LIMIT)
  }

  function LengthWords(evs: seq<seq<byte>>): (r: seq<byte>)
    ensures |r| == 4 * |evs|
  {
    if evs == [] then [] else LengthWords(evs[..|evs| - 1]) + LengthWord(evs[|evs| - 1])
  }

  lemma {:induction false} LengthWordAt(evs: seq<seq<byte>>, more: seq<byte>, k: nat)
    requires k < |evs|
    ensures ReadU32(LengthWords(evs) + more, 4 * k) == |evs[k]| % U32_LIMIT
  {
    var n := |evs| - 1;
    var w := LengthWords(evs) + more;
    if k < n {
      LengthWordAt(evs[..n], LengthWord(evs[n]) + more, k);
      hide LengthWord, ReadU32;
      assert LengthWords(evs[..n]) + (LengthWord(evs[n]) + more) == w;
    } else {
      hide LengthWord;
      assert w[4 * k..4 * k + 4] == LengthWord(evs[k]);
      ReadU32OfWord(|evs[k]| % U32_LIMIT, w, 4 * k);
    }
  }

  function Starts(evs: seq<seq<byte>>): (r: seq<nat>)
    ensures |r| == |evs| + 1
  {
    seq(|evs| + 1, i requires 0 <= i <= |evs| => Sum(Lengths(evs)[..i]))
  }

  /** Offsets read from a written index are the sums of the earlier lengths, while those fit. */
  lemma {:induction false} OffsetsOfWritten(evs: seq<seq<byte>>, more: seq<byte>, n: nat)
    requires n <= |evs| && Sum(Lengths(evs)) < U32_LIMIT
    ensures 4 * n <= |LengthWords(evs) + more|
    ensures forall i :: 0 <= i <= n ==> EventOffsets(LengthWords(evs) + more, n)[i] == Sum(Lengths(evs)[..i])
    decreases n
  {
    var index := LengthWords(evs) + more;
    if n > 0 {
      OffsetsOfWritten(evs, more, n - 1);
      LengthWordAt(evs, more, n - 1);
      SumTake(Lengths(evs), n - 1);
      SumMonotone(Lengths(evs), n, |evs|);
      assert Lengths(evs)[..|evs|] == Lengths(evs);
      SumMonotone(Lengths(evs), 0, n - 1);
      hide LengthWords, ReadU32, Sum;
      assert |evs[n - 1]| % U32_LIMIT == |evs[n - 1]|;
      forall i | 0 <= i <= n
        ensures EventOffsets(index, n)[i] == Sum(Lengths(evs)[..i])
      {
        assert i < n ==> EventOffsets(index, n)[i] == EventOffsets(index, n - 1)[i];
      }
    }
  }

  lemma StartsRead(evs: seq<seq<byte>>, more: seq<byte>)
    requires Sum(Lengths(evs)) < U32_LIMIT
    ensures EventOffsets(LengthWords(evs) + more, |evs|) == Starts(evs)
  {
    OffsetsOfWritten(evs, more, |evs|);
    hide EventOffsets, LengthWords, Sum;
  }

  // ---- Decoding -------------------------------------------------------------------

  /** A decoded record of whole events, something in front of them and something behind. */
  function Whole(front: seq<byte>, evs: seq<seq<byte>>, rest: seq<byte>): (c: Content)
  {
    Blob(front + Flatten(evs) + rest, Starts(evs), |front|)
  }

  /** `decode_record_into`, once the payload is decompressed. */
  function Decode(h: RecordHeader, payload: seq<byte>): (r: Option<Content>)
  {
    if |payload| < 4 * h.eventCount then None
    else
      var offsets := EventOffsets(payload, h.eventCount);
      var dataStart := h.indexArrayLength + h.userHeaderLength + h.userHeaderPadding;
      if dataStart > U32_LIMIT - 1 || dataStart + offsets[h.eventCount] > |payload| then None
      else Some(Blob(payload, offsets, dataStart))
  }

  method DecodeInto(h: RecordHeader, payload: seq<byte>) returns (r: Option<Content>)
    ensures r == Decode(h, payload)
  {
    if |payload| < 4 * h.eventCount {
      return None;
    }
    var offsets := ReadOffsets(payload, h.eventCount);
    var dataStart := h.indexArrayLength + h.userHeaderLength + h.userHeaderPadding;
    if dataStart > U32_LIMIT - 1 || dataStart + offsets[h.eventCount] > |payload| {
      return None;
    }
    r := Some(Blob(payload, offsets, dataStart));
  }

  /** Whatever the payload, what decodes is safe to read. */
  lemma DecodedIsValid(h: RecordHeader, payload: seq<byte>)
    ensures Decode(h, payload).Some? ==>
      Decode(h, payload).value.Valid() && Decode(h, payload).value.Count() == h.eventCount
  {
    hide EventOffsets;
    if |payload| >= 4 * h.eventCount {
      forall i, j | 0 <= i <= j <= h.eventCount
        ensures EventOffsets(payload, h.eventCount)[i] <= EventOffsets(payload, h.eventCount)[j]
      {
        OffsetsNeverFall(payload, h.eventCount, i, j);
      }
    }
  }

  /** The events of a record, as items of a run. */
  function Items(evs: seq<seq<byte>>): (r: seq<Item>)
    ensures |r| == |evs|
  {
    seq(|evs|, i requires 0 <= i < |evs| => Event(BlobEvent(evs[i])))
  }

  /** The header belongs to a record of these events and this user header, padding included. */
  predicate Heads(h: RecordHeader, evs: seq<seq<byte>>, user: seq<byte>)
  {
    h.eventCount == |evs| && h.indexArrayLength == 4 * |evs| && h.userHeaderLength + h.userHeaderPadding == |user|
  }

  // ---- Writing and reading back -----------------------------------------------------

  lemma StartsRise(evs: seq<seq<byte>>, i: nat, j: nat)
    requires i <= j <= |evs|
    ensures Starts(evs)[i] <= Starts(evs)[j] <= |Flatten(evs)|
    ensures Starts(evs)[|evs|] == |Flatten(evs)|
  {
    SumMonotone(Lengths(evs), i, j);
    SumMonotone(Lengths(evs), j, |evs|);
    assert Lengths(evs)[..|evs|] == Lengths(evs);
    FlattenLength(evs);
  }

  lemma WholeIsValid(front: seq<byte>, evs: seq<seq<byte>>, rest: seq<byte>)
    ensures Whole(front, evs, rest).Valid() && Whole(front, evs, rest).Count() == |evs|
  {
    hide Flatten, Sum;
    forall i, j | 0 <= i <= j <= |evs|
      ensures Starts(evs)[i] <= Starts(evs)[j]
    {
      StartsRise(evs, i, j);
    }
    StartsRise(evs, 0, 0);
  }

  lemma EventOfWhole(front: seq<byte>, evs: seq<seq<byte>>, rest: seq<byte>, i: nat)
    requires i < |evs|
    ensures Whole(front, evs, rest).Valid() && EventAt(Whole(front, evs, rest), i) == BlobEvent(evs[i])
  {
    WholeIsValid(front, evs, rest);
    FlattenSlice(evs, i);
    SumTake(Lengths(evs), i);
    hide Flatten, Sum;
    var at, all := Sum(Lengths(evs)[..i]), front + Flatten(evs) + rest;
    assert all[|front| + at..|front| + at + |evs[i]|] == Flatten(evs)[at..at + |evs[i]|];
  }

  /** Its unfiltered run is its events in order, each with its own bytes. */
  lemma WholeRun(front: seq<byte>, evs: seq<seq<byte>>, rest: seq<byte>)
    ensures Whole(front, evs, rest).Valid() && Survivors(Whole(front, evs, rest), None, 0) == Items(evs)
  {
    WholeIsValid(front, evs, rest);
    var c := Whole(front, evs, rest);
    SurvivorsAll(c, 0);
    hide Whole, Survivors;
    forall i | 0 <= i < |evs|
      ensures Survivors(c, None, 0)[i] == Items(evs)[i]
    {
      EventOfWhole(front, evs, rest, i);
    }
  }

  /** The payload of a record: the index, the user header, the events and what follows them. */
  function Payload(evs: seq<seq<byte>>, user: seq<byte>, rest: seq<byte>): (p: seq<byte>)
  {
    LengthWords(evs) + user + Flatten(evs) + rest
  }

  /** `build_single_block_record_bytes`, the payload: the index is filled in place, then the events
      are appended. */
  method BuildPayload(evs: seq<seq<byte>>) returns (payload: seq<byte>)
    ensures payload == Payload(evs, [], [])
  {
    payload := Zeros(4 * |evs|);
    for i := 0 to |evs|
      invariant |payload| == 4 * |evs| && payload[..4 * i] == LengthWords(evs[..i])
    {
      ghost var was := payload;
      payload := Splice(payload, 4 * i, LengthWord(evs[i]));
      assert evs[..i + 1][..i] == evs[..i];
      assert payload[..4 * i] == was[..4 * i];
      assert payload[..4 * (i + 1)] == payload[..4 * i] + payload[4 * i..4 * i + 4];
    }
    assert evs[..|evs|] == evs;
    assert payload[..4 * |evs|] == payload;
    for i := 0 to |evs|
      invariant payload == LengthWords(evs) + Flatten(evs[..i])
    {
      assert evs[..i + 1] == evs[..i] + [evs[i]];
      FlattenSnoc(evs[..i], evs[i]);
      Associates(LengthWords(evs), Flatten(evs[..i]), evs[i]);
      payload := payload + evs[i];
    }
  }

  lemma PayloadSplits(evs: seq<seq<byte>>, user: seq<byte>, rest: seq<byte>)
    ensures Payload(evs, user, rest) == LengthWords(evs) + (user + Flatten(evs) + rest)
  {
    hide LengthWords, Flatten;
  }

  /** Events of which all lengths together fit a word are decoded where they lie; a record whose
      events start past the reach of a word is refused. */
  lemma DecodeWritten(h: RecordHeader, evs: seq<seq<byte>>, user: seq<byte>, rest: seq<byte>)
    requires Heads(h, evs, user) && |Flatten(evs)| < U32_LIMIT
    ensures Decode(h, Payload(evs, user, rest))
      == if 4 * |evs| + |user| < U32_LIMIT then Some(Whole(LengthWords(evs) + user, evs, rest)) else None
  {
    hide LengthWords, Flatten, Sum, EventOffsets, Starts;
    FlattenLength(evs);
    PayloadSplits(evs, user, rest);
    StartsRead(evs, user + Flatten(evs) + rest);
    StartsRise(evs, 0, |evs|);
    assert |Payload(evs, user, rest)| == 4 * |evs| + |user| + |Flatten(evs)| + |rest|;
  }

  /** A written record always decodes while its events start within the reach of a word, and its run
      is the events that went in exactly when all of them together are shorter than 2^32 bytes. */
  lemma BlobRoundTrip(h: RecordHeader, evs: seq<seq<byte>>, user: seq<byte>, rest: seq<byte>)
    requires Heads(h, evs, user) && 4 * |evs| + |user| < U32_LIMIT
    ensures
      var c := Decode(h, Payload(evs, user, rest));
      && c.Some? && c.value.Valid()
      && (Survivors(c.value, None, 0) == Items(evs) <==> |Flatten(evs)| < U32_LIMIT)
  {
    var c := Decode(h, Payload(evs, user, rest));
    DecodedIsValid(h, Payload(evs, user, rest));
    if |Flatten(evs)| < U32_LIMIT {
      DecodeWritten(h, evs, user, rest);
      WholeRun(LengthWords(evs) + user, evs, rest);
    } else {
      FlattenLength(evs);
      PayloadSplits(evs, user, rest);
      LongDecodes(h, evs, user, rest);
      if Survivors(c.value, None, 0) == Items(evs) {
        assert Lengths(evs)[..|evs|] == Lengths(evs);
        RunFixesOffsets(c.value, evs, |evs|);
        OffsetsBounded(Payload(evs, user, rest), |evs|, |evs|);
      }
    }
  }

  lemma LongDecodes(h: RecordHeader, evs: seq<seq<byte>>, user: seq<byte>, rest: seq<byte>)
    requires Heads(h, evs, user) && 4 * |evs| + |user| < U32_LIMIT <= |Flatten(evs)|
    ensures Decode(h, Payload(evs, user, rest)).Some?
  {
    OffsetsBounded(Payload(evs, user, rest), |evs|, |evs|);
    hide LengthWords, Flatten, EventOffsets;
  }

  /** A run of these very events has its offsets at the sums of their lengths. */
  lemma {:induction false} RunFixesOffsets(c: Content, evs: seq<seq<byte>>, n: nat)
    requires c.Valid() && c.Blob? && |c.offsets| == |evs| + 1 && c.offsets[0] == 0 && n <= |evs|
    requires Survivors(c, None, 0) == Items(evs)
    ensures c.offsets[n] == Sum(Lengths(evs)[..n])
  {
    if n > 0 {
      RunFixesOffsets(c, evs, n - 1);
      SumTake(Lengths(evs), n - 1);
      SurvivorsAll(c, 0);
      hide Survivors, Sum;
      assert Items(evs)[n - 1] == Event(BlobEvent(evs[n - 1]));
    }
  }
}
