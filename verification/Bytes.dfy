/** Bytes, little-endian words and in-place byte copies, shared by every module. */
module Bytes {

  type byte = b: int | 0 <= b < 256

  type u16 = x: int | 0 <= x < 0x1_0000

  type u32 = x: int | 0 <= x < 0x1_0000_0000

  const U16_LIMIT := 0x1_0000
  const U24_LIMIT := 0x100_0000
  const U32_LIMIT := 0x1_0000_0000

  datatype Option<+T> = None | Some(value: T)

  datatype Result<+T, +E> = Ok(value: T) | Err(error: E)

  function Min(a: int, b: int): int { if a <= b then a else b }

  function Max(a: int, b: int): int { if a <= b then b else a }

  // ---- Little-endian words ----------------------------------------------

  function U16LE(v: nat): (s: seq<byte>)
    requires v < U16_LIMIT
    ensures |s| == 2
  {
    [v % 256, v / 256]
  }

  function U32LE(v: nat): (s: seq<byte>)
    requires v < U32_LIMIT
    ensures |s| == 4
  {
    var v1 := v / 256;
    var v2 := v1 / 256;
    [v % 256, v1 % 256, v2 % 256, v2 / 256]
  }

  function ReadU16(s: seq<byte>, off: nat): (v: nat)
    requires off + 2 <= |s|
    ensures v < U16_LIMIT
  {
    s[off] as int + 256 * s[off + 1] as int
  }

  function ReadU32(s: seq<byte>, off: nat): (v: nat)
    requires off + 4 <= |s|
    ensures v < U32_LIMIT
  {
    s[off] as int + 256 * (s[off + 1] as int + 256 * (s[off + 2] as int + 256 * s[off + 3] as int))
  }

  lemma ReadU16OfWord(v: nat, s: seq<byte>, off: nat)
    requires v < U16_LIMIT
    requires off + 2 <= |s| && s[off..off + 2] == U16LE(v)
    ensures ReadU16(s, off) == v
  {
    var w := s[off..off + 2];
    assert s[off] == w[0] && s[off + 1] == w[1];
  }

  lemma ReadU32OfWord(v: nat, s: seq<byte>, off: nat)
    requires v < U32_LIMIT
    requires off + 4 <= |s| && s[off..off + 4] == U32LE(v)
    ensures ReadU32(s, off) == v
  {
    var w := s[off..off + 4];
    assert s[off] == w[0] && s[off + 1] == w[1] && s[off + 2] == w[2] && s[off + 3] == w[3];
  }

  lemma WordOfReadU32(s: seq<byte>, off: nat)
    requires off + 4 <= |s|
    ensures U32LE(ReadU32(s, off)) == s[off..off + 4]
  {
    var v := ReadU32(s, off);
    var v1 := v / 256;
    assert v1 == s[off + 1] as int + 256 * (s[off + 2] as int + 256 * s[off + 3] as int);
    assert v1 / 256 == s[off + 2] as int + 256 * s[off + 3] as int;
  }

  /** Two windows with the same bytes read as the same word. */
  lemma SameWindowSameWord(s: seq<byte>, i: nat, t: seq<byte>, j: nat)
    requires i + 4 <= |s| && j + 4 <= |t|
    requires s[i..i + 4] == t[j..j + 4]
    ensures ReadU32(s, i) == ReadU32(t, j)
  {
    var w := s[i..i + 4];
    assert w[0] == s[i] && w[1] == s[i + 1] && w[2] == s[i + 2] && w[3] == s[i + 3];
    assert w[0] == t[j] && w[1] == t[j + 1] && w[2] == t[j + 2] && w[3] == t[j + 3];
  }

  // ---- Buffers ------------------------------------------------------------

  function Zeros(n: nat): (s: seq<byte>)
    ensures |s| == n && forall i :: 0 <= i < n ==> s[i] == 0
  {
    seq(n, _ => 0)
  }

  /** `buf[at..at + |patch|].copy_from_slice(patch)`. */
  function Splice(buf: seq<byte>, at: nat, patch: seq<byte>): (r: seq<byte>)
    requires at + |patch| <= |buf|
    ensures |r| == |buf|
    ensures r[at..at + |patch|] == patch
    ensures forall i :: 0 <= i < at || at + |patch| <= i < |buf| ==> r[i] == buf[i]
  {
    buf[..at] + patch + buf[at + |patch|..]
  }

  // ---- Lists of lists -----------------------------------------------------

  function Flatten<T>(ss: seq<seq<T>>): (r: seq<T>)
  {
    if ss == [] then [] else ss[0] + Flatten(ss[1..])
  }

  lemma {:induction false} FlattenAppend<T>(a: seq<seq<T>>, b: seq<seq<T>>)
    ensures Flatten(a + b) == Flatten(a) + Flatten(b)
  {
    if a == [] {
      assert a + b == b;
    } else {
      FlattenAppend(a[1..], b);
      HeadAndTail(a, b);
      hide Flatten;
      Associates(a[0], Flatten(a[1..]), Flatten(b));
    }
  }

  lemma HeadAndTail<T>(a: seq<seq<T>>, b: seq<seq<T>>)
    requires a != []
    ensures Flatten(a) == a[0] + Flatten(a[1..])
    ensures Flatten(a + b) == a[0] + Flatten(a[1..] + b)
  {
    assert (a + b)[1..] == a[1..] + b;
  }

  lemma Associates<T>(a: seq<T>, b: seq<T>, c: seq<T>)
    ensures a + (b + c) == a + b + c
  {
  }

  lemma FlattenSnoc<T>(a: seq<seq<T>>, x: seq<T>)
    ensures Flatten(a + [x]) == Flatten(a) + x
  {
    FlattenAppend(a, [x]);
    assert Flatten([x]) == x + Flatten<T>([]);
  }

  function Sum(xs: seq<nat>): (s: nat)
  {
    if xs == [] then 0 else xs[0] + Sum(xs[1..])
  }

  lemma {:induction false} SumAppend(a: seq<nat>, b: seq<nat>)
    ensures Sum(a + b) == Sum(a) + Sum(b)
  {
    if a == [] {
      assert a + b == b;
    } else {
      SumAppend(a[1..], b);
      assert (a + b)[1..] == a[1..] + b;
    }
  }

  lemma SumSnoc(a: seq<nat>, x: nat)
    ensures Sum(a + [x]) == Sum(a) + x
  {
    SumAppend(a, [x]);
    assert [x][1..] == [];
    assert Sum([x]) == x;
  }

  lemma SumTake(a: seq<nat>, i: nat)
    requires i < |a|
    ensures Sum(a[..i + 1]) == Sum(a[..i]) + a[i]
  {
    assert a[..i + 1] == a[..i] + [a[i]];
    SumSnoc(a[..i], a[i]);
  }

  lemma {:induction false} SumMonotone(a: seq<nat>, i: nat, j: nat)
    requires i <= j <= |a|
    ensures Sum(a[..i]) <= Sum(a[..j])
    decreases j - i
  {
    if i < j {
      SumMonotone(a, i, j - 1);
      SumTake(a, j - 1);
    }
  }

  /** Terms bounded one by one whose sums agree, agree one by one. */
  lemma {:induction false} EqualSumsEqualTerms(a: seq<nat>, b: seq<nat>)
    requires |a| == |b| && forall k :: 0 <= k < |a| ==> a[k] <= b[k]
    ensures Sum(a) <= Sum(b)
    ensures Sum(a) == Sum(b) <==> a == b
  {
    if a != [] {
      EqualSumsEqualTerms(a[1..], b[1..]);
      assert a == [a[0]] + a[1..] && b == [b[0]] + b[1..];
    }
  }

  function Lengths<T>(ss: seq<seq<T>>): (r: seq<nat>)
    ensures |r| == |ss|
  {
    seq(|ss|, i requires 0 <= i < |ss| => |ss[i]|)
  }

  lemma {:induction false} FlattenLength<T>(ss: seq<seq<T>>)
    ensures |Flatten(ss)| == Sum(Lengths(ss))
  {
    if ss != [] {
      FlattenLength(ss[1..]);
      assert Lengths(ss)[1..] == Lengths(ss[1..]);
    }
  }

  /** Item `i` of a concatenation sits at the summed lengths of the items before it. */
  lemma {:induction false} FlattenSlice<T>(ss: seq<seq<T>>, i: nat)
    requires i < |ss|
    ensures 0 <= Sum(Lengths(ss)[..i]) <= Sum(Lengths(ss)[..i]) + |ss[i]| <= |Flatten(ss)|
    ensures Flatten(ss)[Sum(Lengths(ss)[..i])..Sum(Lengths(ss)[..i]) + |ss[i]|] == ss[i]
  {
    var ls := Lengths(ss);
    if i == 0 {
      assert ls[..0] == [];
    } else {
      FlattenSlice(ss[1..], i - 1);
      assert Lengths(ss[1..])[..i - 1] == ls[1..i];
      assert ls[..i][0] == ls[0] && ls[..i][1..] == ls[1..i];
      var at := Sum(ls[1..i]);
      assert Flatten(ss) == ss[0] + Flatten(ss[1..]);
      assert Flatten(ss)[|ss[0]| + at..|ss[0]| + at + |ss[i]|] == Flatten(ss[1..])[at..at + |ss[i]|];
    }
  }

  // ---- Bags -------------------------------------------------------------

  lemma {:induction false} FlattenMember<T>(ss: seq<seq<T>>, x: T)
    ensures x in Flatten(ss) <==> exists s :: s in ss && x in s
  {
    if ss != [] {
      FlattenMember(ss[1..], x);
      assert forall s :: s in ss <==> s == ss[0] || s in ss[1..];
    }
  }

  lemma {:induction false} DistinctMultiplicity<T(!new)>(a: seq<T>)
    requires forall i, j :: 0 <= i < j < |a| ==> a[i] != a[j]
    ensures forall x :: multiset(a)[x] == if x in a then 1 else 0
  {
    if a != [] {
      var n := |a| - 1;
      DistinctMultiplicity(a[..n]);
      assert a == a[..n] + [a[n]];
    }
  }

  lemma SameElementsSameMultiset<T(!new)>(a: seq<T>, b: seq<T>)
    requires forall i, j :: 0 <= i < j < |a| ==> a[i] != a[j]
    requires forall i, j :: 0 <= i < j < |b| ==> b[i] != b[j]
    requires forall x :: x in a <==> x in b
    ensures multiset(a) == multiset(b)
  {
    DistinctMultiplicity(a);
    DistinctMultiplicity(b);
  }

  lemma {:induction false} CancelOne<T>(a: multiset<T>, b: multiset<T>, x: T)
    requires a + multiset{x} == b + multiset{x}
    ensures a == b
  {
    assert a == a + multiset{x} - multiset{x};
    assert b == b + multiset{x} - multiset{x};
  }

  /** Two arrangements of one bag: the first item of one has its place in the other, and the rest
      are arrangements of one bag again. */
  lemma {:induction false} PlaceInOther<T>(a: seq<T>, b: seq<T>) returns (k: nat)
    requires a != [] && multiset(a) == multiset(b)
    ensures k < |b| && b[k] == a[0] && multiset(a[1..]) == multiset(b[..k] + b[k + 1..])
  {
    assert a[0] in multiset(b);
    k :| 0 <= k < |b| && b[k] == a[0];
    var before, after := b[..k], b[k + 1..];
    BagSplit(before, [b[k]], after);
    BagSplit([], [a[0]], a[1..]);
    assert a == [] + [a[0]] + a[1..];
    assert b == before + [b[k]] + after;
    CancelOne(multiset(a[1..]), multiset(before + after), a[0]);
  }

  lemma BagSplit<T>(x: seq<T>, y: seq<T>, z: seq<T>)
    ensures multiset(x + y + z) == multiset(x + z) + multiset(y)
  {
  }

  lemma EmptyBag<T>(b: seq<T>)
    requires multiset(b) == multiset{}
    ensures b == []
  {
    assert |b| == |multiset(b)|;
  }

  /** What goes along with the items of two arrangements of one bag is one bag too. */
  lemma {:induction false} ShuffleAlong<A, B>(a: seq<A>, b: seq<A>, x: seq<B>, y: seq<B>)
    requires multiset(a) == multiset(b) && |x| == |a| && |y| == |b|
    requires forall i, j :: 0 <= i < |a| && 0 <= j < |b| && a[i] == b[j] ==> x[i] == y[j]
    ensures multiset(x) == multiset(y)
    decreases |a|
  {
    if a == [] {
      EmptyBag(b);
    } else {
      var j := PlaceInOther(a, b);
      ShuffleAlong(a[1..], b[..j] + b[j + 1..], x[1..], y[..j] + y[j + 1..]);
      assert x == [x[0]] + x[1..] && y == y[..j] + ([y[j]] + y[j + 1..]);
    }
  }
}
