/** Requested event numbers grouped by the record that holds them, in record order
    (`read_columns_at`, src/read/columns.rs). */
module EntryGroups {
  import opened Bytes
  import opened ChainIndexes
  import opened RecordScans
  import opened RangeScans
  import RecordCaches

  /** `slots` pairs a position in the caller's list with the event's index in the record. */
  datatype Group = Group(key: (nat, nat), slots: seq<(nat, nat)>)

  function Keys(groups: seq<Group>): (r: seq<(nat, nat)>)
    ensures |r| == |groups|
  {
    seq(|groups|, j requires 0 <= j < |groups| => groups[j].key)
  }

  function SlotsOf(g: Group): (r: seq<nat>)
    ensures |r| == |g.slots|
  {
    seq(|g.slots|, i requires 0 <= i < |g.slots| => g.slots[i].0)
  }

  /** The entries seen so far that lie in the group's record, in the caller's order. */
  ghost predicate GroupOk(spans: Spans, entries: seq<nat>, n: nat, g: Group)
    requires n <= |entries|
  {
    && g.slots != [] && Increasing(SlotsOf(g))
    && forall i :: 0 <= i < |g.slots| ==> g.slots[i].0 < n && IsAt(spans, entries[g.slots[i].0], g.key, g.slots[i].1)
  }

  ghost predicate Filed(groups: seq<Group>, t: (nat, nat), slot: nat, e: nat)
  {
    exists j :: 0 <= j < |groups| && groups[j].key == t && (slot, e) in groups[j].slots
  }

  ghost predicate GroupsOk(spans: Spans, entries: seq<nat>, n: nat, groups: seq<Group>)
    requires n <= |entries|
  {
    && Ordered(Keys(groups))
    && (forall j :: 0 <= j < |groups| ==> GroupOk(spans, entries, n, groups[j]))
    && forall s: nat, t, e :: s < n && IsAt(spans, entries[s], t, e) ==> Filed(groups, t, s, e)
  }

  /** Where the key is or would go. */
  method FindKey(groups: seq<Group>, key: (nat, nat)) returns (at: nat)
    requires Ordered(Keys(groups))
    ensures at <= |groups| && (forall j :: 0 <= j < at ==> Earlier(groups[j].key, key))
    ensures forall j :: at <= j < |groups| ==> groups[j].key == key || Earlier(key, groups[j].key)
    ensures forall j :: at < j < |groups| ==> Earlier(key, groups[j].key)
  {
    at := 0;
    while at < |groups| && Earlier(groups[at].key, key)
      invariant at <= |groups| && forall j :: 0 <= j < at ==> Earlier(groups[j].key, key)
    {
      at := at + 1;
    }
    if at < |groups| {
      forall j | at < j < |groups|
        ensures Earlier(groups[at].key, groups[j].key)
      {
        assert Earlier(Keys(groups)[at], Keys(groups)[j]);
      }
    }
  }

  /** `entry(key).or_default().push(slot)` on the ordered map. */
  method AddSlot(spans: Spans, entries: seq<nat>, n: nat, groups: seq<Group>, key: (nat, nat), e: nat)
    returns (r: seq<Group>)
    requires n < |entries| && IndexesOk(spans) && GroupsOk(spans, entries, n, groups) && IsAt(spans, entries[n], key, e)
    ensures GroupsOk(spans, entries, n + 1, r)
  {
    var at := FindKey(groups, key);
    if at < |groups| && groups[at].key == key {
      r := groups[at := Group(key, groups[at].slots + [(n, e)])];
    } else {
      r := groups[..at] + [Group(key, [(n, e)])] + groups[at..];
    }
    AddedOk(spans, entries, n, groups, key, e, at, r);
  }

  function Added(groups: seq<Group>, key: (nat, nat), slot: (nat, nat), at: nat): seq<Group>
    requires at <= |groups|
  {
    if at < |groups| && groups[at].key == key then groups[at := Group(key, groups[at].slots + [slot])]
    else groups[..at] + [Group(key, [slot])] + groups[at..]
  }

  lemma AddedOrdered(groups: seq<Group>, key: (nat, nat), slot: (nat, nat), at: nat)
    requires Ordered(Keys(groups)) && at <= |groups|
    requires forall j :: 0 <= j < at ==> Earlier(groups[j].key, key)
    requires forall j :: at <= j < |groups| ==> groups[j].key == key || Earlier(key, groups[j].key)
    requires forall j :: at < j < |groups| ==> Earlier(key, groups[j].key)
    ensures Ordered(Keys(Added(groups, key, slot, at)))
  {
    var r := Added(groups, key, slot, at);
    if at < |groups| && groups[at].key == key {
      assert Keys(r) == Keys(groups);
    } else {
      assert Keys(r) == Keys(groups)[..at] + [key] + Keys(groups)[at..];
      OrderedJoin(Keys(groups)[..at], [key]);
      OrderedJoin(Keys(groups)[..at] + [key], Keys(groups)[at..]);
    }
  }

  lemma GrownGroup(spans: Spans, entries: seq<nat>, n: nat, g: Group, e: nat)
    requires n < |entries| && GroupOk(spans, entries, n, g) && IsAt(spans, entries[n], g.key, e)
    ensures GroupOk(spans, entries, n + 1, Group(g.key, g.slots + [(n, e)]))
  {
    hide IsAt;
    var grown := Group(g.key, g.slots + [(n, e)]);
    assert SlotsOf(grown) == SlotsOf(g) + [n];
  }

  lemma AddedGroups(spans: Spans, entries: seq<nat>, n: nat, groups: seq<Group>, key: (nat, nat), e: nat, at: nat)
    requires n < |entries| && at <= |groups| && IsAt(spans, entries[n], key, e)
    requires forall j :: 0 <= j < |groups| ==> GroupOk(spans, entries, n, groups[j])
    ensures forall j :: 0 <= j < |Added(groups, key, (n, e), at)| ==>
      GroupOk(spans, entries, n + 1, Added(groups, key, (n, e), at)[j])
  {
    hide IsAt;
    var r := Added(groups, key, (n, e), at);
    forall j | 0 <= j < |groups|
      ensures GroupOk(spans, entries, n + 1, groups[j])
    {
      assert GroupOk(spans, entries, n, groups[j]);
    }
    if at < |groups| && groups[at].key == key {
      GrownGroup(spans, entries, n, groups[at], e);
    } else {
      assert SlotsOf(Group(key, [(n, e)])) == [n];
    }
  }

  lemma StillFiled(groups: seq<Group>, key: (nat, nat), slot: (nat, nat), at: nat, t: (nat, nat), s: nat, d: nat)
    requires at <= |groups|
    ensures Filed(groups, t, s, d) ==> Filed(Added(groups, key, slot, at), t, s, d)
    ensures Filed(Added(groups, key, slot, at), key, slot.0, slot.1)
  {
    var r := Added(groups, key, slot, at);
    assert r[at].key == key && slot in r[at].slots;
    if j :| 0 <= j < |groups| && groups[j].key == t && (s, d) in groups[j].slots {
      var k := if (at < |groups| && groups[at].key == key) || j < at then j else j + 1;
      assert r[k].key == t && (s, d) in r[k].slots;
    }
  }

  lemma AddedOk(spans: Spans, entries: seq<nat>, n: nat, groups: seq<Group>, key: (nat, nat), e: nat, at: nat,
      r: seq<Group>)
    requires n < |entries| && IndexesOk(spans) && GroupsOk(spans, entries, n, groups) && IsAt(spans, entries[n], key, e)
    requires at <= |groups| && r == Added(groups, key, (n, e), at)
    requires forall j :: 0 <= j < at ==> Earlier(groups[j].key, key)
    requires forall j :: at <= j < |groups| ==> groups[j].key == key || Earlier(key, groups[j].key)
    requires forall j :: at < j < |groups| ==> Earlier(key, groups[j].key)
    ensures GroupsOk(spans, entries, n + 1, r)
  {
    AddedOrdered(groups, key, (n, e), at);
    AddedGroups(spans, entries, n, groups, key, e, at);
    hide IsAt, GroupOk, Added, Ordered, Filed;
    forall s: nat, t, d | s < n + 1 && IsAt(spans, entries[s], t, d)
      ensures Filed(r, t, s, d)
    {
      StillFiled(groups, key, (n, e), at, t, s, d);
      if s == n {
        OneRecord(spans, entries[n], t, d, key, e);
      }
    }
  }

  /** Resolves every entry once and files it under its record. */
  method GroupEntries(spans: Spans, offsets: seq<nat>, entries: seq<nat>) returns (groups: seq<Group>, resolved: nat)
    requires IndexesOk(spans) && IsOffsets(spans, offsets)
    ensures GroupsOk(spans, entries, |entries|, groups)
    ensures resolved <= |entries|
    ensures resolved == |entries| <==> forall s :: 0 <= s < |entries| ==> entries[s] < ChainTotal(spans)
  {
    hide Base, IndexesOk, IsOffsets, GroupsOk;
    groups, resolved := [], 0;
    NoGroups(spans, entries);
    for n := 0 to |entries|
      invariant GroupsOk(spans, entries, n, groups) && resolved <= n
      invariant resolved == n <==> forall s :: 0 <= s < n ==> entries[s] < ChainTotal(spans)
    {
      var place := LocateInChain(spans, offsets, entries[n]);
      if place.None? {
        SkipEntry(spans, entries, n, groups);
      } else {
        resolved := resolved + 1;
        groups := AddSlot(spans, entries, n, groups, place.value.0, place.value.1);
      }
    }
  }

  lemma NoGroups(spans: Spans, entries: seq<nat>)
    ensures GroupsOk(spans, entries, 0, [])
  {
  }

  lemma SkipEntry(spans: Spans, entries: seq<nat>, n: nat, groups: seq<Group>)
    requires n < |entries| && IndexesOk(spans) && GroupsOk(spans, entries, n, groups) && entries[n] >= ChainTotal(spans)
    ensures GroupsOk(spans, entries, n + 1, groups)
  {
    hide Base, Start;
    forall t, e | IsAt(spans, entries[n], t, e)
      ensures false
    {
      RecordsInOrder(spans, t, t);
    }
    forall j | 0 <= j < |groups|
      ensures GroupOk(spans, entries, n + 1, groups[j])
    {
      assert GroupOk(spans, entries, n, groups[j]);
    }
  }

  // ---- Ascending lists --------------------------------------------------------

  function AllSlots(groups: seq<Group>): seq<seq<nat>>
  {
    seq(|groups|, j requires 0 <= j < |groups| => SlotsOf(groups[j]))
  }

  /** Every entry resolves and none is smaller than the one before it. */
  predicate Ascends(spans: Spans, entries: seq<nat>)
  {
    && (forall s :: 0 <= s < |entries| ==> entries[s] < ChainTotal(spans))
    && forall a, b :: 0 <= a < b < |entries| ==> entries[a] <= entries[b]
  }

  lemma TailCounts(s: seq<nat>, lo: nat, hi: nat)
    requires Increasing(s) && lo < hi && forall x: nat :: x in s <==> lo <= x < hi
    ensures s != [] && s[0] == lo
    ensures Increasing(s[1..]) && forall x: nat :: x in s[1..] <==> lo + 1 <= x < hi
  {
    assert lo in s;
    assert s[0] in s;
    var rest := s[1..];
    forall x: nat
      ensures x in rest <==> lo + 1 <= x < hi
    {
      if x in rest {
        var i :| 0 <= i < |rest| && rest[i] == x;
        assert s[i + 1] == x && x in s && s[0] < s[i + 1];
      }
      if lo + 1 <= x < hi {
        assert x in s;
        var i :| 0 <= i < |s| && s[i] == x;
        assert rest[i - 1] == x;
      }
    }
  }

  lemma {:induction false} IncreasingIsCounting(s: seq<nat>, lo: nat, hi: nat)
    requires Increasing(s) && lo <= hi && forall x: nat :: x in s <==> lo <= x < hi
    ensures |s| == hi - lo && forall i :: 0 <= i < |s| ==> s[i] == lo + i
    decreases hi - lo
  {
    assert s != [] ==> s[0] in s;
    if lo < hi {
      TailCounts(s, lo, hi);
      IncreasingIsCounting(s[1..], lo + 1, hi);
      assert forall i :: 1 <= i < |s| ==> s[i] == s[1..][i - 1];
    }
  }

  lemma SlotsApart(spans: Spans, entries: seq<nat>, groups: seq<Group>, i: nat, j: nat, a: nat, b: nat)
    requires IndexesOk(spans) && GroupsOk(spans, entries, |entries|, groups) && Ascends(spans, entries)
    requires i < j < |groups| && a < |groups[i].slots| && b < |groups[j].slots|
    ensures groups[i].slots[a].0 < groups[j].slots[b].0
  {
    hide Base, Start;
    assert Earlier(Keys(groups)[i], Keys(groups)[j]);
    assert GroupOk(spans, entries, |entries|, groups[i]) && GroupOk(spans, entries, |entries|, groups[j]);
    var s, t := groups[i].slots[a], groups[j].slots[b];
    assert IsAt(spans, entries[s.0], groups[i].key, s.1) && IsAt(spans, entries[t.0], groups[j].key, t.1);
    RecordsInOrder(spans, groups[i].key, groups[j].key);
    assert entries[s.0] < entries[t.0];
  }

  lemma {:induction false} JoinApart(parts: seq<seq<nat>>)
    requires forall j :: 0 <= j < |parts| ==> Increasing(parts[j])
    requires forall i, j, a, b :: 0 <= i < j < |parts| && 0 <= a < |parts[i]| && 0 <= b < |parts[j]| ==>
      parts[i][a] < parts[j][b]
    ensures Increasing(Flatten(parts))
  {
    if parts != [] {
      JoinApart(parts[1..]);
      var own, later := parts[0], Flatten(parts[1..]);
      forall a, b | 0 <= a < |own| && 0 <= b < |later|
        ensures own[a] < later[b]
      {
        assert later[b] in later;
        FlattenMember(parts[1..], later[b]);
        var j :| 0 <= j < |parts| - 1 && later[b] in parts[1..][j];
        var c :| 0 <= c < |parts[j + 1]| && parts[j + 1][c] == later[b];
      }
      AppendIncreasing(own, later);
    }
  }

  /** For an ascending list the groups, read in record order, already are the caller's order. */
  lemma GroupsInCallerOrder(spans: Spans, entries: seq<nat>, groups: seq<Group>)
    requires IndexesOk(spans) && GroupsOk(spans, entries, |entries|, groups) && Ascends(spans, entries)
    ensures |Flatten(AllSlots(groups))| == |entries|
    ensures forall k :: 0 <= k < |entries| ==> Flatten(AllSlots(groups))[k] == k
  {
    var parts := AllSlots(groups);
    forall j | 0 <= j < |groups|
      ensures Increasing(parts[j]) && forall s :: s in parts[j] ==> s < |entries|
    {
      assert GroupOk(spans, entries, |entries|, groups[j]);
    }
    forall i, j, a, b | 0 <= i < j < |parts| && 0 <= a < |parts[i]| && 0 <= b < |parts[j]|
      ensures parts[i][a] < parts[j][b]
    {
      SlotsApart(spans, entries, groups, i, j, a, b);
    }
    JoinApart(parts);
    forall s: nat
      ensures s in Flatten(parts) <==> 0 <= s < |entries|
    {
      FlattenMember(parts, s);
      if s < |entries| {
        EntryIsFiled(spans, entries, groups, s);
      }
    }
    IncreasingIsCounting(Flatten(parts), 0, |entries|);
  }

  lemma EntryIsFiled(spans: Spans, entries: seq<nat>, groups: seq<Group>, s: nat)
    requires IndexesOk(spans) && GroupsOk(spans, entries, |entries|, groups) && s < |entries|
    requires entries[s] < ChainTotal(spans)
    ensures exists part :: part in AllSlots(groups) && s in part
  {
    hide Base, Start;
    var t, e := RecordCaches.PlaceOf(spans, entries[s]);
    assert Filed(groups, t, s, e);
    var j :| 0 <= j < |groups| && groups[j].key == t && (s, e) in groups[j].slots;
    var i :| 0 <= i < |groups[j].slots| && groups[j].slots[i] == (s, e);
    assert SlotsOf(groups[j])[i] == s && AllSlots(groups)[j] == SlotsOf(groups[j]);
    assert AllSlots(groups)[j] in AllSlots(groups);
  }
}
