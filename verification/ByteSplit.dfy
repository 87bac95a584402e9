/** The byte-stream-split transform and its inverse (src/compress.rs). */
module ByteSplit {
  import opened Bytes

  // ---- Index arithmetic ---------------------------------------------------

  /** Element `i` of run `k`, the runs being `n` long. */
  function Cell(k: nat, n: nat, i: nat): nat { k * n + i }

  lemma MultipleGap(d: int, n: int)
    requires 0 <= n
    ensures d >= 1 ==> d * n >= n
    ensures d <= -1 ==> d * n <= -n
  {
    assert d * n == (d - 1) * n + n;
    assert d * n == (d + 1) * n - n;
  }

  lemma DivModOf(k: nat, n: nat, i: nat)
    requires i < n
    ensures Cell(k, n, i) / n == k && Cell(k, n, i) % n == i
  {
    var j := Cell(k, n, i);
    var q, r := j / n, j % n;
    assert j == q * n + r;
    MultipleGap(q - k, n);
    assert (q - k) * n == q * n - k * n;
  }

  lemma DivModBounds(j: nat, n: nat, width: nat)
    requires j < n * width
    ensures 0 < n && 0 < width
    ensures j / n < width && j % n < n && j == Cell(j / n, n, j % n)
  {
    assert n != 0 && width != 0;
    assert (j / n) * n <= j;
    assert (width - j / n) * n > 0;
  }

  lemma CellBounds(k: nat, n: nat, width: nat, i: nat)
    requires k < width && i < n
    ensures Cell(k, n, i) < n * width && Cell(i, width, k) < n * width
  {
    assert k * n + n == (k + 1) * n;
    assert (k + 1) * n <= width * n;
    assert i * width + width == (i + 1) * width;
    assert (i + 1) * width <= n * width;
  }

  /** Where byte `j` of the split stream comes from: plane `j / n`, element `j % n`. */
  function Source(j: nat, n: nat, width: nat): (i: nat)
    requires j < n * width
    ensures i < n * width
  {
    DivModBounds(j, n, width);
    CellBounds(j / n, n, width, j % n);
    Cell(j % n, width, j / n)
  }

  lemma SourceOfCell(k: nat, n: nat, width: nat, i: nat)
    requires k < width && i < n
    ensures Cell(k, n, i) < n * width && Source(Cell(k, n, i), n, width) == Cell(i, width, k)
  {
    CellBounds(k, n, width, i);
    DivModOf(k, n, i);
  }

  /** Reading the element-major order of a plane-major order is the identity. */
  lemma SourceInverse(j: nat, n: nat, width: nat)
    requires j < n * width
    ensures Source(j, n, width) < width * n && Source(Source(j, n, width), width, n) == j
  {
    DivModBounds(j, n, width);
    SourceOfCell(j % n, width, n, j / n);
  }

  lemma SourceInjective(n: nat, width: nat)
    ensures forall i: nat, j: nat :: i < j < n * width ==> Source(i, n, width) != Source(j, n, width)
  {
    forall i: nat, j: nat | i < j < n * width
      ensures Source(i, n, width) != Source(j, n, width)
    {
      SourceInverse(i, n, width);
      SourceInverse(j, n, width);
    }
  }

  lemma Swap(n: nat, width: nat)
    ensures n * width == width * n
  {
  }

  // ---- The transform ------------------------------------------------------

  /** Byte `j` of the planes, with the trailing partial element copied through. */
  function Split(src: seq<byte>, width: nat): (dst: seq<byte>)
  {
    if width <= 1 then src
    else
      var n := |src| / width;
      seq(|src|, j requires 0 <= j < |src| =>
        if j < n * width then src[Source(j, n, width)] else src[j])
  }

  function Unsplit(src: seq<byte>, width: nat): (dst: seq<byte>)
  {
    if width <= 1 then src
    else
      var n := |src| / width;
      seq(|src|, j requires 0 <= j < |src| =>
        if j < width * n then src[Source(j, width, n)] else src[j])
  }

  /** The planes really are planes: byte `k` of every element is one contiguous run. */
  lemma SplitAt(src: seq<byte>, width: nat, n: nat, k: nat, i: nat)
    requires 1 < width && n == |src| / width && k < width && i < n
    ensures |Split(src, width)| == |src|
    ensures Cell(k, n, i) < |src| && Cell(i, width, k) < |src|
    ensures Split(src, width)[Cell(k, n, i)] == src[Cell(i, width, k)]
  {
    hide Source, Cell;
    CellBounds(k, n, width, i);
    SourceOfCell(k, n, width, i);
  }

  lemma UnsplitAt(src: seq<byte>, width: nat, n: nat, k: nat, i: nat)
    requires 1 < width && n == |src| / width && k < width && i < n
    ensures |Unsplit(src, width)| == |src|
    ensures Cell(k, n, i) < |src| && Cell(i, width, k) < |src|
    ensures Unsplit(src, width)[Cell(i, width, k)] == src[Cell(k, n, i)]
  {
    hide Source, Cell;
    CellBounds(k, n, width, i);
    SourceOfCell(i, width, n, k);
    Swap(n, width);
  }

  lemma Tails(src: seq<byte>, width: nat)
    requires 1 < width
    ensures (|src| / width) * width <= |src| == |Split(src, width)| == |Unsplit(src, width)|
    ensures Split(src, width)[(|src| / width) * width..] == src[(|src| / width) * width..]
    ensures Unsplit(src, width)[(|src| / width) * width..] == src[(|src| / width) * width..]
  {
    Swap(|src| / width, width);
  }

  /** The nested push loops of `byte_split`. */
  method SplitInto(src: seq<byte>, width: nat) returns (dst: seq<byte>)
    ensures dst == Split(src, width)
  {
    hide Split, Cell;
    if width <= 1 {
      PlainWidth(src, width);
      return src;
    }
    dst := [];
    var n := |src| / width;
    var k := 0;
    RunStart(0, n);
    while k < width
      invariant k <= width
      invariant |dst| == Cell(k, n, 0)
      invariant dst <= Split(src, width)
    {
      var i := 0;
      while i < n
        invariant i <= n
        invariant |dst| == Cell(k, n, i)
        invariant dst <= Split(src, width)
      {
        SplitAt(src, width, n, k, i);
        ghost var grown := dst + [src[Cell(i, width, k)]];
        assert grown == Split(src, width)[..|dst| + 1];
        dst := dst + [src[Cell(i, width, k)]];
        CellStep(k, n, i);
        i := i + 1;
      }
      RunStart(k, n);
      k := k + 1;
    }
    RunStart(width, n);
    Tails(src, width);
    dst := dst + src[n * width..];
  }

  lemma PlainWidth(src: seq<byte>, width: nat)
    requires width <= 1
    ensures Split(src, width) == src
  {
  }

  lemma CellStep(k: nat, n: nat, i: nat)
    ensures Cell(k, n, i + 1) == Cell(k, n, i) + 1
  {
  }

  lemma RunStart(k: nat, n: nat)
    ensures Cell(k, n, 0) == k * n == n * k
    ensures Cell(k + 1, n, 0) == Cell(k, n, n)
    ensures Cell(0, n, 0) == 0
  {
  }

  /** The cells `byte_unsplit` has written after `i` elements of plane `k`. */
  predicate Written(j: nat, width: nat, k: nat, i: nat)
    requires 0 < width
  {
    j % width < k || (j % width == k && j / width < i)
  }

  lemma WrittenSteps(width: nat, k: nat, i: nat, whole: nat)
    requires k < width
    ensures forall j: nat :: j < whole && Written(j, width, k, i + 1) ==>
      Written(j, width, k, i) || j == Cell(i, width, k)
  {
    forall j: nat | j < whole && Written(j, width, k, i + 1)
      ensures Written(j, width, k, i) || j == Cell(i, width, k)
    {
      assert j == (j / width) * width + j % width;
    }
  }

  lemma PlaneWritten(width: nat, k: nat, n: nat)
    requires k < width
    ensures forall j: nat :: j < n * width && Written(j, width, k + 1, 0) ==> Written(j, width, k, n)
  {
    forall j: nat | j < n * width && Written(j, width, k + 1, 0)
      ensures Written(j, width, k, n)
    {
      DivModBounds(j, width, n);
    }
  }

  lemma AllWritten(width: nat, whole: nat)
    requires 0 < width
    ensures forall j: nat :: j < whole ==> Written(j, width, width, 0)
  {
  }

  /** One plane of `byte_unsplit`: its inner loop over the elements. */
  method UnsplitPlane(src: seq<byte>, width: nat, n: nat, k: nat, dst: array<byte>, ghost whole: nat)
    requires 1 < width && k < width && n == |src| / width && whole == n * width
    requires dst.Length == |src| == |Unsplit(src, width)| && whole <= |src|
    requires forall j :: 0 <= j < whole && Written(j, width, k, 0) ==> dst[j] == Unsplit(src, width)[j]
    modifies dst
    ensures forall j :: 0 <= j < whole && Written(j, width, k + 1, 0) ==> dst[j] == Unsplit(src, width)[j]
  {
    hide Unsplit, Cell, Written;
    ghost var target := Unsplit(src, width);
    var i := 0;
    PlaneWritten(width, k, n);
    while i < n
      invariant i <= n
      invariant forall j :: 0 <= j < whole && Written(j, width, k, i) ==> dst[j] == target[j]
    {
      UnsplitAt(src, width, n, k, i);
      WrittenSteps(width, k, i, whole);
      var at := Cell(i, width, k);
      assert target[at] == src[Cell(k, n, i)];
      dst[at] := src[Cell(k, n, i)];
      i := i + 1;
    }
  }

  /** Its outer loop over the planes; `tail` is where the left-over bytes begin. */
  method UnsplitPlanes(src: seq<byte>, width: nat, dst: array<byte>) returns (tail: nat)
    requires 1 < width && dst.Length == |src|
    modifies dst
    ensures tail == |src| / width * width <= |src| == |Unsplit(src, width)|
    ensures dst[..tail] == Unsplit(src, width)[..tail]
  {
    hide Unsplit, Cell, Written;
    var n := |src| / width;
    tail := n * width;
    ghost var target := Unsplit(src, width);
    Tails(src, width);
    var k := 0;
    NothingWritten(width);
    while k < width
      invariant k <= width
      invariant forall j :: 0 <= j < tail && Written(j, width, k, 0) ==> dst[j] == target[j]
    {
      UnsplitPlane(src, width, n, k, dst, tail);
      k := k + 1;
    }
    AllWritten(width, tail);
  }

  /** `byte_unsplit` writes into a caller's buffer. Two lengths that differ fall back to a
      copy, which panics when the destination is the longer one; the caller must not ask. */
  method UnsplitInto(src: seq<byte>, width: nat, dst: array<byte>)
    requires dst.Length <= |src|
    modifies dst
    ensures dst.Length == |src| ==> dst[..] == Unsplit(src, width)
    ensures dst.Length < |src| ==> dst[..] == src[..dst.Length]
  {
    if width <= 1 || |src| != dst.Length {
      forall i | 0 <= i < dst.Length {
        dst[i] := src[i];
      }
      return;
    }
    var tail := UnsplitPlanes(src, width, dst);
    Tails(src, width);
    hide Unsplit;
    ghost var target := Unsplit(src, width);
    forall i | tail <= i < |src| {
      dst[i] := src[i];
    }
    assert dst[..] == dst[..tail] + dst[tail..];
    assert target == target[..tail] + target[tail..];
  }

  lemma NothingWritten(width: nat)
    requires 0 < width
    ensures forall j: nat :: !Written(j, width, 0, 0)
  {
  }

  // ---- What the source promises -------------------------------------------

  /** The inverse law, for every width and every length, partial element included. */
  lemma UnsplitInvertsSplit(src: seq<byte>, width: nat)
    ensures Unsplit(Split(src, width), width) == src
  {
    if width > 1 {
      hide Source;
      var n := |src| / width;
      var mid := Split(src, width);
      Swap(n, width);
      forall j | 0 <= j < |src|
        ensures Unsplit(mid, width)[j] == src[j]
      {
        if j < width * n {
          SourceInverse(j, width, n);
        }
      }
    }
  }

  /** The other composition: no stream is lost by un-splitting either. */
  lemma SplitInvertsUnsplit(src: seq<byte>, width: nat)
    ensures Split(Unsplit(src, width), width) == src
  {
    if width > 1 {
      hide Source;
      var n := |src| / width;
      var mid := Unsplit(src, width);
      Swap(n, width);
      forall j | 0 <= j < |src|
        ensures Split(mid, width)[j] == src[j]
      {
        if j < n * width {
          SourceInverse(j, n, width);
        }
      }
    }
  }

  /** A list read through an injective index map is a permutation of the original. */
  lemma {:induction false} InjectiveReadPermutes<T>(a: seq<T>, b: seq<T>, from: seq<nat>)
    requires |a| == |b| == |from|
    requires forall j :: 0 <= j < |b| ==> from[j] < |a| && b[j] == a[from[j]]
    requires forall i, j :: 0 <= i < j < |from| ==> from[i] != from[j]
    ensures multiset(a) == multiset(b)
  {
    if |a| > 0 {
      var last := |a| - 1;
      var p := from[last];
      var rest := a[..p] + a[p + 1..];
      var from' := seq(last, j requires 0 <= j < last => if from[j] < p then from[j] else from[j] - 1);
      InjectiveReadPermutes(rest, b[..last], from');
      assert a == a[..p] + [a[p]] + a[p + 1..];
      assert b == b[..last] + [b[last]];
    }
  }

  /** `byte_split` only reorders: same length, same bytes with the same multiplicities. */
  lemma SplitPermutes(src: seq<byte>, width: nat)
    ensures |Split(src, width)| == |src|
    ensures multiset(Split(src, width)) == multiset(src)
  {
    if width > 1 {
      hide Source;
      var n := |src| / width;
      var whole := n * width;
      var from := seq(|src|, j requires 0 <= j < |src| => if j < whole then Source(j, n, width) else j);
      SourceInjective(n, width);
      InjectiveReadPermutes(src, Split(src, width), from);
    }
  }
}
