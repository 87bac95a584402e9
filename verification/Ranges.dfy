/** Range scans: clamping, sorting and merging the request, and cutting it to each record by
    binary search (`for_each_ranges`, src/read/chain.rs). */
module Ranges {
  import opened Bytes
  import opened EventIndexes
  import opened RecordScans

  type Pairs = seq<(nat, nat)>

  // ---- The request --------------------------------------------------------

  /** Both ends clamped to the chain, empty and inverted ranges dropped. */
  method Clamp(ranges: Pairs, total: nat) returns (wanted: Pairs)
    ensures forall k :: 0 <= k < |wanted| ==> wanted[k].0 < wanted[k].1 <= total
    ensures forall g: nat :: InRanges(wanted, g) <==> g < total && InRanges(ranges, g)
  {
    wanted := [];
    for k := 0 to |ranges|
      invariant forall i :: 0 <= i < |wanted| ==> wanted[i].0 < wanted[i].1 <= total
      invariant forall g: nat :: InRanges(wanted, g) <==> g < total && InRanges(ranges[..k], g)
    {
      var lo, hi := Min(ranges[k].0, total), Min(ranges[k].1, total);
      RangesSnoc(ranges[..k], ranges[k]);
      assert ranges[..k + 1] == ranges[..k] + [ranges[k]];
      if lo < hi {
        RangesSnoc(wanted, (lo, hi));
        wanted := wanted + [(lo, hi)];
      }
    }
    assert ranges[..|ranges|] == ranges;
  }

  lemma RangesSnoc(ranges: Pairs, r: (nat, nat))
    ensures forall g: nat :: InRanges(ranges + [r], g) <==> InRanges(ranges, g) || r.0 <= g < r.1
  {
    var all := ranges + [r];
    forall g: nat
      ensures InRanges(all, g) <==> InRanges(ranges, g) || r.0 <= g < r.1
    {
      if InRanges(ranges, g) {
        var k :| 0 <= k < |ranges| && ranges[k].0 <= g < ranges[k].1;
        assert all[k] == ranges[k];
      }
      if r.0 <= g < r.1 {
        assert all[|ranges|] == r;
      }
    }
  }

  predicate Below(a: (nat, nat), b: (nat, nat))
  {
    a.0 < b.0 || (a.0 == b.0 && a.1 <= b.1)
  }

  predicate Sorted(s: Pairs)
  {
    forall i, j :: 0 <= i < j < |s| ==> Below(s[i], s[j])
  }

  method Insert(r: Pairs, x: (nat, nat)) returns (s: Pairs)
    requires Sorted(r)
    ensures Sorted(s) && multiset(s) == multiset(r) + multiset{x}
  {
    var at := 0;
    while at < |r| && Below(r[at], x)
      invariant at <= |r| && forall i :: 0 <= i < at ==> Below(r[i], x)
    {
      at := at + 1;
    }
    assert forall i :: at <= i < |r| ==> Below(x, r[i]);
    assert r == r[..at] + r[at..];
    s := r[..at] + [x] + r[at..];
    InsertedSorted(r, x, at);
  }

  lemma InsertedSorted(r: Pairs, x: (nat, nat), at: nat)
    requires Sorted(r) && at <= |r|
    requires forall i :: 0 <= i < at ==> Below(r[i], x)
    requires forall i :: at <= i < |r| ==> Below(x, r[i])
    ensures Sorted(r[..at] + [x] + r[at..])
  {
    hide Below;
    var s := r[..at] + [x] + r[at..];
    forall i, j | 0 <= i < j < |s|
      ensures Below(s[i], s[j])
    {
      assert i < at ==> s[i] == r[i];
      assert j > at ==> s[j] == r[j - 1];
      assert i > at ==> s[i] == r[i - 1];
    }
  }

  /** `sort_unstable` on pairs: their one sorted arrangement. */
  method Sort(s: Pairs) returns (r: Pairs)
    ensures Sorted(r) && multiset(r) == multiset(s)
    ensures forall i, j :: 0 <= i < j < |r| ==> r[i].0 < r[j].0 || (r[i].0 == r[j].0 && r[i].1 <= r[j].1)
  {
    r := [];
    for k := 0 to |s|
      invariant Sorted(r) && multiset(r) == multiset(s[..k])
    {
      assert s[..k + 1] == s[..k] + [s[k]];
      r := Insert(r, s[k]);
    }
    assert s[..|s|] == s;
  }

  lemma SameRanges(a: Pairs, b: Pairs)
    requires multiset(a) == multiset(b)
    ensures forall g: nat :: InRanges(a, g) <==> InRanges(b, g)
  {
    forall g: nat
      ensures InRanges(a, g) <==> InRanges(b, g)
    {
      if k :| 0 <= k < |a| && a[k].0 <= g < a[k].1 {
        assert a[k] in multiset(b);
      }
      if k :| 0 <= k < |b| && b[k].0 <= g < b[k].1 {
        assert b[k] in multiset(a);
      }
    }
  }

  /** Ranges in order with a gap between any two. */
  predicate Separated(s: Pairs)
  {
    && (forall i :: 0 <= i < |s| ==> s[i].0 < s[i].1)
    && forall i, j :: 0 <= i < j < |s| ==> s[i].1 < s[j].0
  }

  /** Joins sorted ranges that touch or overlap. */
  method Merge(wanted: Pairs) returns (merged: Pairs)
    requires Sorted(wanted) && forall k :: 0 <= k < |wanted| ==> wanted[k].0 < wanted[k].1
    ensures Separated(merged)
    ensures forall g: nat :: InRanges(merged, g) <==> InRanges(wanted, g)
  {
    merged := [];
    for k := 0 to |wanted|
      invariant Separated(merged)
      invariant merged != [] ==> forall i :: k <= i < |wanted| ==> merged[|merged| - 1].0 <= wanted[i].0
      invariant forall g: nat :: InRanges(merged, g) <==> InRanges(wanted[..k], g)
    {
      var (lo, hi) := wanted[k];
      assert wanted[..k + 1] == wanted[..k] + [(lo, hi)];
      RangesSnoc(wanted[..k], (lo, hi));
      assert forall i :: k < i < |wanted| ==> Below(wanted[k], wanted[i]);
      var n := |merged|;
      if n > 0 && lo <= merged[n - 1].1 {
        var last := merged[n - 1];
        RangesSnoc(merged[..n - 1], last);
        RangesSnoc(merged[..n - 1], (last.0, Max(last.1, hi)));
        assert merged == merged[..n - 1] + [last];
        merged := merged[..n - 1] + [(last.0, Max(last.1, hi))];
      } else {
        RangesSnoc(merged, (lo, hi));
        merged := merged + [(lo, hi)];
      }
    }
    assert wanted[..|wanted|] == wanted;
  }

  /** The merged request. */
  method Prepare(ranges: Pairs, total: nat) returns (merged: Pairs)
    ensures Separated(merged)
    ensures forall g: nat :: InRanges(merged, g) <==> g < total && InRanges(ranges, g)
  {
    var wanted := Clamp(ranges, total);
    var sorted := Sort(wanted);
    SameRanges(sorted, wanted);
    forall k | 0 <= k < |sorted|
      ensures sorted[k].0 < sorted[k].1
    {
      assert sorted[k] in multiset(wanted);
    }
    merged := Merge(sorted);
  }

  // ---- Cutting it to a record -----------------------------------------------

  predicate EndsBy(x: nat, r: (nat, nat)) { r.1 <= x }

  predicate StartsBefore(x: nat, r: (nat, nat)) { r.0 < x }

  /** `k` is where the ranges that end by `x` stop. */
  predicate EndsCut(s: Pairs, x: nat, k: nat)
  {
    k <= |s| && (forall i :: 0 <= i < k ==> EndsBy(x, s[i])) && forall i :: k <= i < |s| ==> !EndsBy(x, s[i])
  }

  predicate StartsCut(s: Pairs, x: nat, k: nat)
  {
    k <= |s| && (forall i :: 0 <= i < k ==> StartsBefore(x, s[i])) && forall i :: k <= i < |s| ==>
      !StartsBefore(x, s[i])
  }

  /** The slice of the request that touches `[start, end)`. */
  method Cut(merged: Pairs, start: nat, end: nat) returns (first: nat, last: nat)
    requires Separated(merged)
    ensures EndsCut(merged, start, first) && StartsCut(merged, end, last)
  {
    first := PartitionPoint(merged, (r: (nat, nat)) => EndsBy(start, r));
    last := PartitionPoint(merged, (r: (nat, nat)) => StartsBefore(end, r));
  }

  /** The cut loses no event of the record; a record whose cut is empty holds none. */
  lemma CutSuffices(merged: Pairs, start: nat, end: nat, first: nat, last: nat, g: nat)
    requires Separated(merged) && start <= g < end
    requires EndsCut(merged, start, first) && StartsCut(merged, end, last)
    ensures first < last ==> (InRanges(merged[first..last], g) <==> InRanges(merged, g))
    ensures first >= last ==> !InRanges(merged, g)
  {
    if k :| 0 <= k < |merged| && merged[k].0 <= g < merged[k].1 {
      assert !EndsBy(start, merged[k]) && StartsBefore(end, merged[k]);
      assert first <= k < last;
      assert merged[first..last][k - first] == merged[k];
    }
    if first < last {
      if k :| 0 <= k < last - first && merged[first..last][k].0 <= g < merged[first..last][k].1 {
        assert merged[first + k] == merged[first..last][k];
      }
    }
  }

  predicate Within(lo: nat, hi: nat, g: nat)
  {
    lo <= g < hi
  }

  /** The cut is exactly the ranges that share a number with the record: a range that only touches it at
      either end is outside. */
  lemma CutIsShared(merged: Pairs, start: nat, end: nat, first: nat, last: nat, k: nat)
    requires Separated(merged) && start < end && k < |merged|
    requires EndsCut(merged, start, first) && StartsCut(merged, end, last)
    ensures first <= k < last <==> exists g: nat :: Within(start, end, g) && Within(merged[k].0, merged[k].1, g)
  {
    var g := Max(start, merged[k].0);
    if first <= k < last {
      assert Within(start, end, g) && Within(merged[k].0, merged[k].1, g);
    }
  }

  /** Merging is not only an optimisation. Sorted but unmerged ranges can end out of order, and
      then the binary search on their ends looks for a boundary that does not exist. */
  lemma SortingIsNotEnough()
    ensures
      var sorted := [(0, 10), (1, 2)];
      Sorted(sorted) && InRanges(sorted, 5) && forall k: nat :: !EndsCut(sorted, 5, k)
  {
    var sorted: Pairs := [(0, 10), (1, 2)];
    assert sorted[0].0 <= 5 < sorted[0].1;
    assert !EndsBy(5, sorted[0]) && EndsBy(5, sorted[1]);
  }

  /** Merged ranges always end in order, so the search has its boundary, and only one. */
  lemma MergedEndInOrder(merged: Pairs, x: nat)
    requires Separated(merged)
    ensures exists k: nat :: EndsCut(merged, x, k)
    ensures forall j: nat, k: nat :: EndsCut(merged, x, j) && EndsCut(merged, x, k) ==> j == k
  {
    var k := 0;
    while k < |merged| && EndsBy(x, merged[k])
      invariant k <= |merged| && forall i :: 0 <= i < k ==> EndsBy(x, merged[i])
    {
      k := k + 1;
    }
    assert EndsCut(merged, x, k);
    forall i: nat, j: nat | EndsCut(merged, x, i) && EndsCut(merged, x, j)
      ensures i == j
    {
      assert i < |merged| ==> !EndsBy(x, merged[i]);
      assert j < |merged| ==> !EndsBy(x, merged[j]);
    }
  }
}
