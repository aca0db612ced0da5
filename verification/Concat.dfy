/**
  Concatenation along an axis: interleaved block copies into one buffer, what the result holds at
  every multi-index, and that slicing and concatenating undo each other.
 */
module Concat {
  import opened Indexing
  import opened Lines
  import opened Slice

  // ---------- blocks ----------

  /** The total of the first `j` widths. */
  function Width(w: seq<nat>, j: nat): nat
    requires j <= |w|
  {
    if j == 0 then 0 else Width(w, j - 1) + w[j - 1]
  }

  /** Every buffer holds `m` blocks of its width. */
  predicate Blocks<T>(x: seq<seq<T>>, w: seq<nat>, m: nat) {
    |x| == |w| && forall j :: 0 <= j < |x| ==> |x[j]| == m * w[j]
  }

  /** The `i`-th blocks of the first `j` buffers, one after the other. */
  function Row<T>(x: seq<seq<T>>, w: seq<nat>, m: nat, i: nat, j: nat): (r: seq<T>)
    requires Blocks(x, w, m) && i < m && j <= |x|
    ensures |r| == Width(w, j)
  {
    if j == 0 then [] else Row(x, w, m, i, j - 1) + Block(x[j - 1], w[j - 1], m, i)
  }

  /** The first `i` rows. */
  function Rows<T>(x: seq<seq<T>>, w: seq<nat>, m: nat, i: nat): (r: seq<T>)
    requires Blocks(x, w, m) && i <= m
    ensures |r| == i * Width(w, |w|)
  {
    if i == 0 then []
    else
      NextBlock(i - 1, Width(w, |w|));
      Rows(x, w, m, i - 1) + Row(x, w, m, i - 1, |x|)
  }

  lemma {:induction false} WidthMonotone(w: seq<nat>, j: nat, k: nat)
    requires j <= k <= |w|
    ensures Width(w, j) <= Width(w, k)
  {
    if j < k {
      WidthMonotone(w, j, k - 1);
    }
  }

  lemma {:induction false} RowAt<T>(x: seq<seq<T>>, w: seq<nat>, m: nat, i: nat, n: nat, j: nat, t: nat)
    requires Blocks(x, w, m) && i < m && j < n <= |x| && t < w[j]
    ensures Width(w, j) + t < Width(w, n)
    ensures Row(x, w, m, i, n)[Width(w, j) + t] == Block(x[j], w[j], m, i)[t]
  {
    if j < n - 1 {
      RowAt(x, w, m, i, n - 1, j, t);
    }
  }

  lemma {:induction false} RowsAt<T>(x: seq<seq<T>>, w: seq<nat>, m: nat, n: nat, i: nat, o: nat)
    requires Blocks(x, w, m) && i < n <= m && o < Width(w, |w|)
    ensures i * Width(w, |w|) + o < n * Width(w, |w|)
    ensures Rows(x, w, m, n)[i * Width(w, |w|) + o] == Row(x, w, m, i, |x|)[o]
  {
    PosBound(i, o, n, Width(w, |w|));
    NextBlock(n - 1, Width(w, |w|));
    if i < n - 1 {
      RowsAt(x, w, m, n - 1, i, o);
    }
  }

  // ---------- shapes ----------

  predicate HaveAxis(dims: seq<seq<nat>>, axis: nat) {
    forall j :: 0 <= j < |dims| ==> axis < |dims[j]|
  }

  /** At least one shape, and all alike except along the axis. */
  predicate Compatible(dims: seq<seq<nat>>, axis: nat) {
    |dims| > 0 && HaveAxis(dims, axis) && forall j :: 0 <= j < |dims| ==> AgreesOff(dims[j], dims[0], axis)
  }

  predicate Concatenable<T>(x: seq<seq<T>>, dims: seq<seq<nat>>, axis: nat) {
    && |x| == |dims| && Compatible(dims, axis)
    && forall j :: 0 <= j < |dims| ==> |x[j]| == Product(dims[j])
  }

  predicate AgreesOff(a: seq<nat>, b: seq<nat>, axis: nat) {
    |a| == |b| && axis < |a| && a == b[axis := a[axis]]
  }

  /** Where input `j` starts along the axis. */
  function Start(dims: seq<seq<nat>>, axis: nat, j: nat): nat
    requires j <= |dims| && HaveAxis(dims, axis)
  {
    if j == 0 then 0 else Start(dims, axis, j - 1) + dims[j - 1][axis]
  }

  /** Each input starts where the one before it ends, the first at zero, and the last ends with the result. */
  lemma StartsFollow(dims: seq<seq<nat>>, axis: nat, j: nat)
    requires Compatible(dims, axis) && j < |dims|
    ensures Start(dims, axis, 0) == 0 && Start(dims, axis, j + 1) == Start(dims, axis, j) + dims[j][axis]
    ensures ConcatDims(dims, axis) == dims[0][axis := Start(dims, axis, |dims|)]
  {
  }

  function ConcatDims(dims: seq<seq<nat>>, axis: nat): (d: seq<nat>)
    requires Compatible(dims, axis)
    ensures |d| == |dims[0]|
  {
    dims[0][axis := Start(dims, axis, |dims|)]
  }

  /** The width of each input's blocks. */
  function Widths(dims: seq<seq<nat>>, axis: nat, n: nat): (w: seq<nat>)
    requires HaveAxis(dims, axis)
    ensures |w| == |dims|
  {
    seq(|dims|, j requires 0 <= j < |dims| => n * dims[j][axis])
  }

  lemma InputBlocks<T>(x: seq<seq<T>>, dims: seq<seq<nat>>, axis: nat)
    requires Concatenable(x, dims, axis)
    ensures Blocks(x, Widths(dims, axis, Inner(dims[0], axis)), Outer(dims[0], axis))
  {
    forall j | 0 <= j < |x|
      ensures |x[j]| == Outer(dims[0], axis) * Widths(dims, axis, Inner(dims[0], axis))[j]
    {
      BlockSize(dims[j], axis);
      assert dims[j][..axis] == dims[0][..axis] && dims[j][axis + 1..] == dims[0][axis + 1..];
    }
  }

  lemma {:induction false} WidthIsStart(dims: seq<seq<nat>>, axis: nat, n: nat, j: nat)
    requires j <= |dims| && HaveAxis(dims, axis)
    ensures Width(Widths(dims, axis, n), j) == n * Start(dims, axis, j)
  {
    if j > 0 {
      WidthIsStart(dims, axis, n, j - 1);
      Distribute(n, Start(dims, axis, j - 1), dims[j - 1][axis]);
    }
  }

  lemma Distribute(n: nat, a: nat, b: nat)
    ensures n * (a + b) == n * a + n * b
  {
  }

  // ---------- the kernel ----------

  /** The concatenated buffer. */
  function Concatenated<T>(x: seq<seq<T>>, dims: seq<seq<nat>>, axis: nat): (r: seq<T>)
    requires Concatenable(x, dims, axis)
    ensures |r| == Product(ConcatDims(dims, axis))
  {
    var n, m := Inner(dims[0], axis), Outer(dims[0], axis);
    InputBlocks(x, dims, axis);
    ConcatSize(dims, axis);
    Rows(x, Widths(dims, axis, n), m, m)
  }

  lemma ConcatSize(dims: seq<seq<nat>>, axis: nat)
    requires Compatible(dims, axis)
    ensures var d := ConcatDims(dims, axis);
      && Outer(d, axis) == Outer(dims[0], axis) && Inner(d, axis) == Inner(dims[0], axis)
      && Product(d) == Outer(d, axis) * Width(Widths(dims, axis, Inner(d, axis)), |dims|)
  {
    var d := ConcatDims(dims, axis);
    assert d[..axis] == dims[0][..axis] && d[axis + 1..] == dims[0][axis + 1..];
    BlockSize(d, axis);
    WidthIsStart(dims, axis, Inner(d, axis), |dims|);
  }

  /** The kernel's loops over the shapes. */
  method OutDims(dims: seq<seq<nat>>, axis: nat) returns (outDims: seq<nat>)
    requires Compatible(dims, axis)
    ensures outDims == ConcatDims(dims, axis)
  {
    outDims := seq(|dims[0]|, _ => 0);
    for i := 0 to |dims[0]|
      invariant |outDims| == |dims[0]|
      invariant forall k :: 0 <= k < |outDims| ==> outDims[k] == if k < i then ConcatDims(dims, axis)[k] else 0
    {
      if axis == i {
        for j := 0 to |dims|
          invariant |outDims| == |dims[0]| && outDims[i] == Start(dims, axis, j)
          invariant forall k :: 0 <= k < |outDims| && k != i ==>
            outDims[k] == if k < i then ConcatDims(dims, axis)[k] else 0
        {
          outDims := outDims[i := outDims[i] + dims[j][i]];
        }
      } else {
        outDims := outDims[i := dims[0][i]];
      }
    }
  }

  /** The `memcpy` of one block. */
  method CopyBlock<T>(s: seq<T>, w: nat, m: nat, i: nat, out: array<T>, offset: nat)
    requires |s| == m * w && i < m && offset + w <= out.Length
    modifies out
    ensures out[..offset + w] == old(out[..offset]) + Block(s, w, m, i)
  {
    BlockBounds(m, w, i);
    var src := i * w;
    for t := 0 to w
      invariant out[..offset + t] == old(out[..offset]) + s[src..src + t]
    {
      out[offset + t] := s[src + t];
    }
  }

  /** The kernel's inner loop: one block of every input. */
  method CopyRow<T>(x: seq<seq<T>>, dims: seq<seq<nat>>, axis: nat, n: nat, m: nat, i: nat, out: array<T>, offset: nat)
    returns (outOffset: nat)
    requires |x| == |dims| && HaveAxis(dims, axis) && Blocks(x, Widths(dims, axis, n), m) && i < m
    requires offset + Width(Widths(dims, axis, n), |x|) <= out.Length
    modifies out
    ensures outOffset == offset + Width(Widths(dims, axis, n), |x|)
    ensures out[..outOffset] == old(out[..offset]) + Row(x, Widths(dims, axis, n), m, i, |x|)
  {
    ghost var w := Widths(dims, axis, n);
    ghost var before := out[..offset];
    outOffset := offset;
    for j := 0 to |x|
      invariant outOffset == offset + Width(w, j) <= out.Length
      invariant out[..outOffset] == before + Row(x, w, m, i, j)
    {
      WidthMonotone(w, j + 1, |w|);
      CopyBlock(x[j], n * dims[j][axis], m, i, out, outOffset);
      outOffset := outOffset + n * dims[j][axis];
      assert before + Row(x, w, m, i, j + 1) == before + Row(x, w, m, i, j) + Block(x[j], w[j], m, i);
    }
  }

  /** `ConcatKernel`. Every copy extends the part written, which ends as the whole buffer. */
  method ConcatKernel<T(0, !new)>(x: seq<seq<T>>, dims: seq<seq<nat>>, axisScalar: int, ghost a: nat)
    returns (out: array<T>, outDims: seq<nat>, outOffset: nat)
    requires |dims| > 0 && a < |dims[0]| && (axisScalar == a || axisScalar == a - |dims[0]|)
    requires Concatenable(x, dims, a)
    ensures fresh(out) && outOffset == out.Length
    ensures outDims == ConcatDims(dims, a) && out[..] == Concatenated(x, dims, a)
    ensures HoldsParts(x, dims, a, out[..], outDims)
  {
    var axis := axisScalar;
    if axis < 0 { axis := axis + |dims[0]|; }
    outDims := OutDims(dims, axis);
    ConcatSize(dims, axis);
    InputBlocks(x, dims, axis);
    out := new T[Product(outDims)];
    var m := ProductLoop(outDims[..axis]);
    var n := ProductLoop(outDims[axis + 1..]);
    outOffset := CopyRows(x, dims, axis, n, m, out);
    assert out[..outOffset] == out[..];
    PartsHeld(x, dims, a);
  }

  /** The kernel's outer loop. */
  method CopyRows<T>(x: seq<seq<T>>, dims: seq<seq<nat>>, axis: nat, n: nat, m: nat, out: array<T>)
    returns (outOffset: nat)
    requires |x| == |dims| && HaveAxis(dims, axis) && Blocks(x, Widths(dims, axis, n), m)
    requires out.Length == m * Width(Widths(dims, axis, n), |x|)
    modifies out
    ensures outOffset == out.Length
    ensures out[..outOffset] == Rows(x, Widths(dims, axis, n), m, m)
  {
    ghost var w := Widths(dims, axis, n);
    ghost var row := Width(w, |w|);
    outOffset := 0;
    for i := 0 to m
      invariant outOffset == i * row <= out.Length
      invariant out[..outOffset] == Rows(x, w, m, i)
    {
      BlockBounds(m, row, i);
      NextBlock(i, row);
      outOffset := CopyRow(x, dims, axis, n, m, i, out, outOffset);
    }
  }

  // ---------- what the result holds ----------

  /** A multi-index of input `j` seen in the result. */
  function Moved(idx: seq<nat>, axis: nat, start: nat): (m: seq<nat>)
    requires axis < |idx|
    ensures |m| == |idx|
  {
    idx[axis := start + idx[axis]]
  }

  lemma {:induction false} StartMonotone(dims: seq<seq<nat>>, axis: nat, j: nat, k: nat)
    requires j <= k <= |dims| && HaveAxis(dims, axis)
    ensures Start(dims, axis, j) <= Start(dims, axis, k)
  {
    if j < k {
      StartMonotone(dims, axis, j, k - 1);
    }
  }

  lemma MovedInBounds(dims: seq<seq<nat>>, axis: nat, j: nat, idx: seq<nat>)
    requires Compatible(dims, axis) && j < |dims| && InBounds(idx, dims[j])
    ensures InBounds(Moved(idx, axis, Start(dims, axis, j)), ConcatDims(dims, axis))
  {
    StartMonotone(dims, axis, j + 1, |dims|);
    assert AgreesOff(dims[j], dims[0], axis);
  }

  /** Positions of the result and of the input, in blocks of their widths. */
  lemma MovedPosition(dims: seq<seq<nat>>, axis: nat, j: nat, idx: seq<nat>) returns (i: nat, t: nat)
    requires Compatible(dims, axis) && j < |dims| && InBounds(idx, dims[j])
    ensures var d, n := ConcatDims(dims, axis), Inner(dims[0], axis);
      var w := Widths(dims, axis, n);
      && i < Outer(dims[0], axis) && t < w[j]
      && Encode(dims[j], idx) == i * w[j] + t
      && Encode(d, Moved(idx, axis, Start(dims, axis, j))) == i * Width(w, |w|) + (Width(w, j) + t)
  {
    var d, n := ConcatDims(dims, axis), Inner(dims[0], axis);
    var w, m := Widths(dims, axis, n), Moved(idx, axis, Start(dims, axis, j));
    assert AgreesOff(dims[j], dims[0], axis);
    assert dims[j][..axis] == dims[0][..axis] == d[..axis];
    assert dims[j][axis + 1..] == dims[0][axis + 1..] == d[axis + 1..];
    assert m[..axis] == idx[..axis] && m[axis + 1..] == idx[axis + 1..];
    i := Encode(dims[j][..axis], idx[..axis]);
    var e := Encode(dims[j][axis + 1..], idx[axis + 1..]);
    t := idx[axis] * n + e;
    MovedInBounds(dims, axis, j, idx);
    EncodeAround(dims[j], axis, idx);
    EncodeAround(d, axis, m);
    PosBound(idx[axis], e, dims[j][axis], n);
    WidthIsStart(dims, axis, n, j);
    WidthIsStart(dims, axis, n, |dims|);
    Commute(dims[j][axis], n);
    Commute(d[axis], n);
    LayerArithmetic(Start(dims, axis, j), idx[axis], n, e);
  }

  lemma LayerArithmetic(start: nat, b: nat, n: nat, e: nat)
    ensures (start + b) * n + e == n * start + (b * n + e)
  {
  }

  /** Each input's cell is in the result, moved along the axis by what comes before it. */
  lemma ConcatAt<T>(x: seq<seq<T>>, dims: seq<seq<nat>>, axis: nat, j: nat, idx: seq<nat>)
    requires Concatenable(x, dims, axis) && j < |x| && InBounds(idx, dims[j])
    ensures InBounds(Moved(idx, axis, Start(dims, axis, j)), ConcatDims(dims, axis))
    ensures At(Concatenated(x, dims, axis), ConcatDims(dims, axis), Moved(idx, axis, Start(dims, axis, j)))
         == At(x[j], dims[j], idx)
  {
    var n, m := Inner(dims[0], axis), Outer(dims[0], axis);
    var w := Widths(dims, axis, n);
    MovedInBounds(dims, axis, j, idx);
    InputBlocks(x, dims, axis);
    var i, t := MovedPosition(dims, axis, j, idx);
    RowAt(x, w, m, i, |x|, j, t);
    RowsAt(x, w, m, m, i, Width(w, j) + t);
    BlockAt(x[j], w[j], m, i, t, Encode(dims[j], idx));
  }

  /** The inputs stand one after the other along the axis. */
  ghost predicate HoldsParts<T(!new)>(x: seq<seq<T>>, dims: seq<seq<nat>>, a: nat, out: seq<T>, outDims: seq<nat>)
    requires Concatenable(x, dims, a) && |out| == Product(outDims)
  {
    forall j, idx :: 0 <= j < |x| && InBounds(idx, dims[j]) ==> HoldsPart(x, dims, a, j, idx, out, outDims)
  }

  ghost predicate HoldsPart<T>(x: seq<seq<T>>, dims: seq<seq<nat>>, a: nat, j: nat, idx: seq<nat>,
                               out: seq<T>, outDims: seq<nat>)
    requires Concatenable(x, dims, a) && j < |x| && InBounds(idx, dims[j]) && |out| == Product(outDims)
  {
    var there := idx[a := Start(dims, a, j) + idx[a]];
    InBounds(there, outDims) && At(out, outDims, there) == At(x[j], dims[j], idx)
  }

  lemma PartsHeld<T(!new)>(x: seq<seq<T>>, dims: seq<seq<nat>>, a: nat)
    requires Concatenable(x, dims, a)
    ensures HoldsParts(x, dims, a, Concatenated(x, dims, a), ConcatDims(dims, a))
  {
    forall j, idx | 0 <= j < |x| && InBounds(idx, dims[j])
      ensures HoldsPart(x, dims, a, j, idx, Concatenated(x, dims, a), ConcatDims(dims, a))
    {
      ConcatAt(x, dims, a, j, idx);
    }
  }

  /** Every coordinate along the axis belongs to exactly one input. */
  lemma {:induction false} Owner(dims: seq<seq<nat>>, axis: nat, n: nat, b: nat) returns (j: nat)
    requires HaveAxis(dims, axis) && n <= |dims| && b < Start(dims, axis, n)
    ensures j < n && Start(dims, axis, j) <= b < Start(dims, axis, j + 1)
    ensures forall k: nat :: k < |dims| && Start(dims, axis, k) <= b < Start(dims, axis, k + 1) ==> k == j
  {
    if b >= Start(dims, axis, n - 1) {
      j := n - 1;
      forall k: nat | k < |dims| && Start(dims, axis, k) <= b < Start(dims, axis, k + 1) ensures k == j {
        if k < j { StartMonotone(dims, axis, k + 1, j); }
        if k > j { StartMonotone(dims, axis, n, k); }
      }
    } else {
      j := Owner(dims, axis, n - 1, b);
    }
  }

  // ---------- slicing undoes concatenating ----------

  /** The offsets of the window that holds input `j`. */
  function PartOffsets(dims: seq<seq<nat>>, axis: nat, j: nat): (o: seq<nat>)
    requires Compatible(dims, axis) && j < |dims|
    ensures |o| == |dims[j]|
  {
    assert AgreesOff(dims[j], dims[0], axis);
    seq(|dims[j]|, k => if k == axis then Start(dims, axis, j) else 0)
  }

  lemma PartFits(dims: seq<seq<nat>>, axis: nat, j: nat)
    requires Compatible(dims, axis) && j < |dims|
    ensures WindowFits(ConcatDims(dims, axis), PartOffsets(dims, axis, j), dims[j])
  {
    StartMonotone(dims, axis, j + 1, |dims|);
    assert AgreesOff(dims[j], dims[0], axis);
  }

  lemma SliceUndoesConcat<T>(x: seq<seq<T>>, dims: seq<seq<nat>>, axis: nat, j: nat)
    requires Concatenable(x, dims, axis) && j < |x|
    ensures WindowFits(ConcatDims(dims, axis), PartOffsets(dims, axis, j), dims[j])
    ensures Window(Concatenated(x, dims, axis), ConcatDims(dims, axis), PartOffsets(dims, axis, j), dims[j]) == x[j]
  {
    PartFits(dims, axis, j);
    var c, d, o := Concatenated(x, dims, axis), ConcatDims(dims, axis), PartOffsets(dims, axis, j);
    forall idx | InBounds(idx, dims[j]) ensures At(Window(c, d, o, dims[j]), dims[j], idx) == At(x[j], dims[j], idx) {
      PartAt(x, dims, axis, j, idx);
    }
    SameBuffer(Window(c, d, o, dims[j]), x[j], dims[j]);
  }

  lemma PartAt<T>(x: seq<seq<T>>, dims: seq<seq<nat>>, axis: nat, j: nat, idx: seq<nat>)
    requires Concatenable(x, dims, axis) && j < |x| && InBounds(idx, dims[j])
    requires WindowFits(ConcatDims(dims, axis), PartOffsets(dims, axis, j), dims[j])
    ensures At(Window(Concatenated(x, dims, axis), ConcatDims(dims, axis), PartOffsets(dims, axis, j), dims[j]),
      dims[j], idx)
         == At(x[j], dims[j], idx)
  {
    WindowAt(Concatenated(x, dims, axis), ConcatDims(dims, axis), PartOffsets(dims, axis, j), dims[j], idx);
    ConcatAt(x, dims, axis, j, idx);
    ShiftIsMove(dims, axis, j, idx);
  }

  lemma ShiftIsMove(dims: seq<seq<nat>>, axis: nat, j: nat, idx: seq<nat>)
    requires Compatible(dims, axis) && j < |dims| && |idx| == |dims[j]|
    ensures axis < |idx| && Shift(PartOffsets(dims, axis, j), idx) == Moved(idx, axis, Start(dims, axis, j))
  {
    assert AgreesOff(dims[j], dims[0], axis);
  }

  /** The pieces of a tensor cut along the axis. */
  ghost predicate Pieces<T(!new)>(y: seq<T>, x: seq<seq<T>>, dims: seq<seq<nat>>, axis: nat)
    requires Compatible(dims, axis) && |y| == Product(ConcatDims(dims, axis)) && |x| == |dims|
  {
    forall j :: 0 <= j < |x| ==> IsPiece(y, x[j], dims, axis, j)
  }

  ghost predicate IsPiece<T>(y: seq<T>, piece: seq<T>, dims: seq<seq<nat>>, axis: nat, j: nat)
    requires Compatible(dims, axis) && |y| == Product(ConcatDims(dims, axis)) && j < |dims|
  {
    PartFits(dims, axis, j);
    piece == Window(y, ConcatDims(dims, axis), PartOffsets(dims, axis, j), dims[j])
  }

  /** Concatenating the slices of a tensor gives it back, and nothing else has these slices. */
  lemma ConcatUndoesSlice<T(!new)>(y: seq<T>, x: seq<seq<T>>, dims: seq<seq<nat>>, axis: nat)
    requires Concatenable(x, dims, axis) && |y| == Product(ConcatDims(dims, axis))
    ensures Pieces(y, x, dims, axis) <==> y == Concatenated(x, dims, axis)
  {
    var c, d := Concatenated(x, dims, axis), ConcatDims(dims, axis);
    if y == c {
      forall j | 0 <= j < |x| ensures IsPiece(y, x[j], dims, axis, j) { SliceUndoesConcat(x, dims, axis, j); }
    }
    if Pieces(y, x, dims, axis) {
      forall idx | InBounds(idx, d) ensures At(c, d, idx) == At(y, d, idx) {
        SameAtOwner(y, x, dims, axis, idx);
      }
      SameBuffer(c, y, d);
    }
  }

  /** A multi-index of the result belongs to one input. */
  lemma OwnIndex(dims: seq<seq<nat>>, axis: nat, idx: seq<nat>) returns (j: nat, own: seq<nat>)
    requires Compatible(dims, axis) && InBounds(idx, ConcatDims(dims, axis))
    ensures j < |dims| && InBounds(own, dims[j])
    ensures Moved(own, axis, Start(dims, axis, j)) == idx == Shift(PartOffsets(dims, axis, j), own)
  {
    j := Owner(dims, axis, |dims|, idx[axis]);
    own := idx[axis := idx[axis] - Start(dims, axis, j)];
    assert AgreesOff(dims[j], dims[0], axis);
  }

  lemma SameAtOwner<T(!new)>(y: seq<T>, x: seq<seq<T>>, dims: seq<seq<nat>>, axis: nat, idx: seq<nat>)
    requires Concatenable(x, dims, axis) && |y| == Product(ConcatDims(dims, axis)) && Pieces(y, x, dims, axis)
    requires InBounds(idx, ConcatDims(dims, axis))
    ensures At(Concatenated(x, dims, axis), ConcatDims(dims, axis), idx) == At(y, ConcatDims(dims, axis), idx)
  {
    var j, own := OwnIndex(dims, axis, idx);
    ConcatAt(x, dims, axis, j, own);
    PartFits(dims, axis, j);
    assert IsPiece(y, x[j], dims, axis, j);
    WindowAt(y, ConcatDims(dims, axis), PartOffsets(dims, axis, j), dims[j], own);
  }

  /** The slice kernel on the concat kernel's output, over the range of input `j`, returns that input. */
  method SliceOfConcat<T(0, !new)>(x: seq<seq<T>>, dims: seq<seq<nat>>, axis: nat, j: nat)
    returns (part: SliceResult<T>)
    requires Concatenable(x, dims, axis) && j < |x| && |dims[0]| >= 2
    ensures part == Sliced(x[j], dims[j])
  {
    var start := StartOf(dims, axis, j);
    var out, outDims, _ := ConcatKernel(x, dims, axis, axis);
    SliceUndoesConcat(x, dims, axis, j);
    PartShape(dims, axis, j);
    part := SliceAxis(out[..], outDims, axis, start, start + dims[j][axis]);
  }

  /** An input's shape and offsets are those of a slice along one axis. */
  lemma PartShape(dims: seq<seq<nat>>, axis: nat, j: nat)
    requires Compatible(dims, axis) && j < |dims|
    ensures var d := ConcatDims(dims, axis);
      && Start(dims, axis, j) + dims[j][axis] <= d[axis]
      && PartOffsets(dims, axis, j) == AxisOffset(|d|, axis, Start(dims, axis, j))
      && dims[j] == d[axis := dims[j][axis]]
  {
    StartMonotone(dims, axis, j + 1, |dims|);
    assert AgreesOff(dims[j], dims[0], axis);
  }

  method StartOf(dims: seq<seq<nat>>, axis: nat, j: nat) returns (start: nat)
    requires HaveAxis(dims, axis) && j <= |dims|
    ensures start == Start(dims, axis, j)
  {
    start := 0;
    for k := 0 to j
      invariant start == Start(dims, axis, k)
    {
      start := start + dims[k][axis];
    }
  }
}
