/**
  Slicing: normalising the starts and ends of a slice, counting its terms, and the kernel that
  copies a window of a tensor row by row with an odometer that runs between the window's bounds.
 */
module Slice {
  import opened Indexing

  // ---------- one axis ----------

  datatype Range = Range(start: int, end: int)
  datatype Normalized = Normal(range: Range) | Rejected

  /** The body of `CheckAndUpdateSliceAttrs` for an axis of the given extent. */
  function NormalizeRange(dim: nat, start: int, end: int, step: int): Normalized {
    if dim == 0 then Normal(Range(0, 0))
    else if step == 0 then Rejected
    else
      var s := Max(if start < 0 then start + dim else start, 0);
      var e := Min(if 0 < step && end < 0 then end + dim else end, dim);
      if step > 0 then
        var s', e' := Min(s, dim), Max(e, 0);
        if e' >= s' then Normal(Range(s', e')) else Rejected
      else
        var s', e' := Min(s, dim - 1), Max(e, -1);
        if s' >= e' then Normal(Range(s', e')) else Rejected
  }

  /** The extent `GetSliceDims` gives a sliced axis. */
  function TermCount(r: Range, step: int): int
    requires step != 0
  {
    if step > 0 then TruncDiv(r.end - r.start + step - 1, step) else TruncDiv(r.end - r.start + step + 1, step)
  }

  lemma NormalizeIdempotent(dim: nat, start: int, end: int, step: int)
    requires NormalizeRange(dim, start, end, step).Normal?
    ensures var r := NormalizeRange(dim, start, end, step).range;
      NormalizeRange(dim, r.start, r.end, step) == Normal(r)
  {
  }

  /** An index counted from the end of the axis when negative. */
  function Wrapped(i: int, dim: nat): int {
    if i < 0 then i + dim else i
  }

  /** Index `j` lies between the bounds in the direction of `step`; the start is included. */
  predicate InRange(j: int, start: int, end: int, step: int) {
    if step > 0 then start <= j < end else end < j <= start
  }

  /** The normalised range holds the same indices of the axis; backwards, only the start counts from the end. */
  predicate KeepsIndices(dim: nat, start: int, end: int, step: int, r: Range) {
    forall j: nat :: j < dim ==>
      (InRange(j, r.start, r.end, step) <==>
       InRange(j, Wrapped(start, dim), if step > 0 then Wrapped(end, dim) else end, step))
  }

  /**
    Forwards, normalising does not change which indices of the axis lie in the range. Backwards it
    does exactly when the start lies before the axis and the end as well: raising the start to 0 and
    the end to -1 then lets index 0 in.
   */
  lemma NormalizeKeepsIndices(dim: nat, start: int, end: int, step: int)
    requires NormalizeRange(dim, start, end, step).Normal?
    ensures KeepsIndices(dim, start, end, step, NormalizeRange(dim, start, end, step).range)
       <==> step > 0 || dim == 0 || Wrapped(start, dim) >= 0 || end >= 0
  {
    var r := NormalizeRange(dim, start, end, step).range;
    if dim > 0 && step < 0 && Wrapped(start, dim) < 0 && end < 0 {
      assert InRange(0, r.start, r.end, step) && !InRange(0, Wrapped(start, dim), end, step);
    }
  }

  /**
    The arguments a range is made from. On an empty axis any will do. Forwards the start may lie past
    the end only where clamping brings them together, and backwards the end past the start likewise.
   */
  predicate Accepts(dim: nat, start: int, end: int, step: int) {
    var s, e := if start < 0 then start + dim else start, if end < 0 then end + dim else end;
    || dim == 0
    || (step > 0 && !(s > e && s > 0 && e < dim))
    || (step < 0 && !(end >= dim || (end > 0 && end > s)))
  }

  /** Just those are accepted; a step of zero is not. */
  lemma AcceptedIff(dim: nat, start: int, end: int, step: int)
    ensures NormalizeRange(dim, start, end, step).Normal? <==> Accepts(dim, start, end, step)
  {
  }

  /** The nearest to `v` of the integers from `lo` to `hi`. */
  function Clamp(v: int, lo: int, hi: int): (c: int)
    requires lo <= hi
    ensures lo <= c <= hi && (c != v ==> v < lo == c || hi == c < v)
  {
    if v < lo then lo else if v > hi then hi else v
  }

  /** The bounds themselves: both clamped to the axis, backwards one place further down. */
  lemma NormalizedBounds(dim: nat, start: int, end: int, step: int)
    requires NormalizeRange(dim, start, end, step).Normal?
    ensures var r := NormalizeRange(dim, start, end, step).range;
      if dim == 0 then r == Range(0, 0)
      else if step > 0 then r == Range(Clamp(Wrapped(start, dim), 0, dim), Clamp(Wrapped(end, dim), 0, dim))
      else r == Range(Clamp(Wrapped(start, dim), 0, dim - 1), Clamp(end, -1, dim - 1))
  {
  }

  /** From -9 back to -3 on an axis of five: nothing lies in that range, yet index 0 is taken. */
  lemma BackwardStartBeforeAxis()
    ensures NormalizeRange(5, -9, -3, -1) == Normal(Range(0, -1)) && TermCount(Range(0, -1), -1) == 1
    ensures forall j: nat :: j < 5 ==> !InRange(j, Wrapped(-9, 5), -3, -1)
    ensures !KeepsIndices(5, -9, -3, -1, Range(0, -1))
  {
    NormalizeKeepsIndices(5, -9, -3, -1);
  }

  /** The quotient rounded up counts the multiples of `p` below `n`. */
  lemma CountMultiples(n: nat, p: nat, k: nat)
    requires p > 0
    ensures k < (n + p - 1) / p <==> k * p < n
  {
    var q := (n + p - 1) / p;
    DivModExact(n + p - 1, p);
    if k < q {
      MulMono(k, q - 1, p);
    } else {
      MulMono(q, k, p);
    }
  }

  lemma AscendingCount(r: Range, dim: nat, step: int, k: nat)
    requires step > 0 && 0 <= r.start <= r.end <= dim
    ensures k < TermCount(r, step) <==> k * step < r.end - r.start
  {
    CountMultiples(r.end - r.start, step, k);
  }

  lemma DescendingCount(r: Range, dim: nat, step: int, k: nat)
    requires step < 0 && -1 <= r.end <= r.start < dim
    ensures k < TermCount(r, step) <==> k * -step < r.start - r.end
  {
    CountMultiples(r.start - r.end, -step, k);
    assert -(r.end - r.start + step + 1) == r.start - r.end + -step - 1;
    if r.end - r.start + step + 1 == 0 {
      assert r.start - r.end + -step - 1 == 0;
    }
  }

  lemma NegateProduct(k: nat, step: int)
    ensures k * -step == -(k * step)
  {
  }

  /**
    After normalisation the extent is exactly the number of terms before the end, and all of them
    are indices of the axis.
   */
  lemma TermCountExact(dim: nat, start: int, end: int, step: int, k: nat)
    requires step != 0 && NormalizeRange(dim, start, end, step).Normal?
    ensures var r := NormalizeRange(dim, start, end, step).range;
      && (k < TermCount(r, step) <==> if step > 0 then r.start + k * step < r.end else r.start + k * step > r.end)
      && (k < TermCount(r, step) ==> 0 <= r.start + k * step < dim)
  {
    var r := NormalizeRange(dim, start, end, step).range;
    NegateProduct(k, step);
    PosProduct(k, step);
    if step > 0 {
      AscendingCount(r, dim, step, k);
    } else if dim == 0 {
      DescendingEmpty(step, k);
    } else {
      DescendingCount(r, dim, step, k);
    }
  }

  /** A normalised range never has a negative extent. */
  lemma TermCountNonNegative(dim: nat, start: int, end: int, step: int)
    requires step != 0 && NormalizeRange(dim, start, end, step).Normal?
    ensures TermCount(NormalizeRange(dim, start, end, step).range, step) >= 0
  {
    var r := NormalizeRange(dim, start, end, step).range;
    if step > 0 {
      QuotientNonNegative(r.end - r.start + step - 1, step);
    } else if dim == 0 {
      DescendingEmpty(step, 0);
    } else {
      QuotientNonNegative(-(r.end - r.start + step + 1), -step);
    }
  }

  lemma QuotientNonNegative(n: nat, p: nat)
    requires p > 0
    ensures n / p >= 0
  {
  }

  lemma PosProduct(k: nat, step: int)
    ensures step > 0 ==> k * step >= 0
    ensures step < 0 ==> k * step <= 0
  {
  }

  lemma DescendingEmpty(step: int, k: nat)
    requires step < 0
    ensures TermCount(Range(0, 0), step) == 0
  {
  }

  // ---------- all axes ----------

  /** What the checks of `CheckAndUpdateSliceAttrs` decide for entry `i`. */
  function NormalizeEntry(inDims: seq<nat>, axes: seq<int>, starts: seq<int>, ends: seq<int>, steps: seq<int>,
                          i: nat): Normalized
    requires i < |axes| == |starts| == |ends| == |steps|
  {
    if 0 <= axes[i] < |inDims| then NormalizeRange(inDims[axes[i]], starts[i], ends[i], steps[i]) else Rejected
  }

  predicate AllNormal(inDims: seq<nat>, axes: seq<int>, starts: seq<int>, ends: seq<int>, steps: seq<int>)
    requires |axes| == |starts| == |ends| == |steps|
  {
    forall i :: 0 <= i < |axes| ==> NormalizeEntry(inDims, axes, starts, ends, steps, i).Normal?
  }

  /** The entries that pass name an axis of the input and have arguments that are accepted. */
  lemma AllAccepted(inDims: seq<nat>, axes: seq<int>, starts: seq<int>, ends: seq<int>, steps: seq<int>)
    requires |axes| == |starts| == |ends| == |steps|
    ensures AllNormal(inDims, axes, starts, ends, steps) <==> forall i :: 0 <= i < |axes| ==>
      0 <= axes[i] < |inDims| && Accepts(inDims[axes[i]], starts[i], ends[i], steps[i])
  {
    forall i | 0 <= i < |axes|
      ensures NormalizeEntry(inDims, axes, starts, ends, steps, i).Normal?
         <==> 0 <= axes[i] < |inDims| && Accepts(inDims[axes[i]], starts[i], ends[i], steps[i])
    {
      if 0 <= axes[i] < |inDims| { AcceptedIff(inDims[axes[i]], starts[i], ends[i], steps[i]); }
    }
  }

  /**
    `CheckAndUpdateSliceAttrs`: rewrites the starts and ends in place, and fails at the first entry
    whose axis, step or order is not acceptable. A null `steps` is a vector of ones.
   */
  method CheckAndUpdateSliceAttrs(inDims: seq<nat>, axes: seq<int>, starts: array<int>, ends: array<int>,
                                  steps: seq<int>)
    returns (ok: bool)
    requires starts != ends && |axes| == starts.Length == ends.Length == |steps|
    modifies starts, ends
    ensures ok <==> AllNormal(inDims, axes, old(starts[..]), old(ends[..]), steps)
    ensures ok <==> forall i :: 0 <= i < |axes| ==>
      0 <= axes[i] < |inDims| && Accepts(inDims[axes[i]], old(starts[i]), old(ends[i]), steps[i])
    ensures ok ==> forall i :: 0 <= i < |axes| ==>
      NormalizeEntry(inDims, axes, old(starts[..]), old(ends[..]), steps, i) == Normal(Range(starts[i], ends[i]))
  {
    ghost var s0, e0 := starts[..], ends[..];
    AllAccepted(inDims, axes, s0, e0, steps);
    for i := 0 to |axes|
      invariant forall k :: 0 <= k < i ==>
        NormalizeEntry(inDims, axes, s0, e0, steps, k) == Normal(Range(starts[k], ends[k]))
      invariant forall k :: i <= k < |axes| ==> starts[k] == s0[k] && ends[k] == e0[k]
    {
      var axis := axes[i];
      if !(0 <= axis < |inDims|) {
        assert NormalizeEntry(inDims, axes, s0, e0, steps, i).Rejected?;
        return false;
      }
      var dim := inDims[axis];
      if dim > 0 {
        var step := steps[i];
        if step == 0 {
          assert NormalizeEntry(inDims, axes, s0, e0, steps, i).Rejected?;
          return false;
        }
        var start := if starts[i] < 0 then starts[i] + dim else starts[i];
        start := Max(start, 0);
        var end := if 0 < step && ends[i] < 0 then ends[i] + dim else ends[i];
        end := Min(end, dim);
        if step > 0 {
          start := Min(start, dim);
          end := Max(end, 0);
          if end < start {
            assert NormalizeEntry(inDims, axes, s0, e0, steps, i).Rejected?;
            return false;
          }
        } else {
          start := Min(start, dim - 1);
          end := Max(end, -1);
          if start < end {
            assert NormalizeEntry(inDims, axes, s0, e0, steps, i).Rejected?;
            return false;
          }
        }
        starts[i], ends[i] := start, end;
      } else {
        starts[i], ends[i] := 0, 0;
      }
    }
    return true;
  }

  /** The last of the first `n` entries for axis `j`, or -1. */
  function LastEntry(axes: seq<int>, n: nat, j: nat): (i: int)
    requires n <= |axes|
    ensures -1 <= i < n && (i >= 0 ==> axes[i] == j)
    ensures forall k :: i < k < n ==> axes[k] != j
  {
    if n == 0 then -1 else if axes[n - 1] == j then n - 1 else LastEntry(axes, n - 1, j)
  }

  /** The extent of axis `j` after the first `n` entries. */
  function SliceDim(inDims: seq<nat>, axes: seq<int>, starts: seq<int>, ends: seq<int>, steps: seq<int>, n: nat,
                    j: nat): int
    requires n <= |axes| == |starts| == |ends| == |steps| && j < |inDims| && forall k :: 0 <= k < n ==> steps[k] != 0
  {
    var i := LastEntry(axes, n, j);
    if i < 0 then inDims[j] else TermCount(Range(starts[i], ends[i]), steps[i])
  }

  /** `GetSliceDims`. */
  method GetSliceDims(inDims: seq<nat>, axes: seq<int>, starts: seq<int>, ends: seq<int>, steps: seq<int>)
    returns (sliceDims: seq<int>)
    requires |axes| == |starts| == |ends| == |steps|
    requires forall i :: 0 <= i < |axes| ==> 0 <= axes[i] < |inDims| && steps[i] != 0
    ensures |sliceDims| == |inDims|
    ensures forall j :: 0 <= j < |inDims| ==> sliceDims[j] == SliceDim(inDims, axes, starts, ends, steps, |axes|, j)
  {
    sliceDims := seq(|inDims|, j requires 0 <= j < |inDims| => inDims[j]);
    for i := 0 to |axes|
      invariant |sliceDims| == |inDims|
      invariant forall j :: 0 <= j < |inDims| ==> sliceDims[j] == SliceDim(inDims, axes, starts, ends, steps, i, j)
    {
      var start, end, step := starts[i], ends[i], steps[i];
      if step > 0 {
        sliceDims := sliceDims[axes[i] := TruncDiv(end - start + step - 1, step)];
      } else {
        sliceDims := sliceDims[axes[i] := TruncDiv(end - start + step + 1, step)];
      }
    }
  }

  /** The extents kept when the listed axes are dropped. */
  function Undropped(dims: seq<nat>, axes: seq<int>): (r: seq<nat>)
    ensures |r| <= |dims|
  {
    if dims == [] then []
    else
      var last := |dims| - 1;
      Undropped(dims[..last], axes) + if last in axes then [] else [dims[last]]
  }

  /** The shape once the listed axes are dropped; rank zero is written as [1]. */
  function DecreasedDims(dims: seq<nat>, axes: seq<int>): (r: seq<nat>) {
    if axes != [] && Undropped(dims, axes) == [] then [1] else Undropped(dims, axes)
  }

  /** How many of the first `j` axes are not listed. */
  function KeptBefore(axes: seq<int>, j: nat): nat {
    if j == 0 then 0 else KeptBefore(axes, j - 1) + if j - 1 in axes then 0 else 1
  }

  /** The axes that are not listed keep their extents and their order. */
  lemma {:induction false} UndroppedAt(dims: seq<nat>, axes: seq<int>, j: nat)
    requires j <= |dims|
    ensures |Undropped(dims, axes)| == KeptBefore(axes, |dims|)
    ensures j < |dims| && j !in axes ==>
      KeptBefore(axes, j) < |Undropped(dims, axes)| && Undropped(dims, axes)[KeptBefore(axes, j)] == dims[j]
  {
    if dims != [] {
      var last := |dims| - 1;
      UndroppedAt(dims[..last], axes, if j < last then j else last);
    }
  }

  /** Rank zero is written as [1], and otherwise the axes kept are the shape. */
  lemma DecreasedMeans(dims: seq<nat>, axes: seq<int>)
    ensures axes != [] && KeptBefore(axes, |dims|) == 0 ==> DecreasedDims(dims, axes) == [1]
    ensures axes == [] || KeptBefore(axes, |dims|) > 0 ==>
      && |DecreasedDims(dims, axes)| == KeptBefore(axes, |dims|)
      && forall j :: 0 <= j < |dims| && j !in axes ==>
        KeptBefore(axes, j) < KeptBefore(axes, |dims|) && DecreasedDims(dims, axes)[KeptBefore(axes, j)] == dims[j]
  {
    UndroppedAt(dims, axes, |dims|);
    forall j: nat | j < |dims| && j !in axes
      ensures KeptBefore(axes, j) < |Undropped(dims, axes)| && Undropped(dims, axes)[KeptBefore(axes, j)] == dims[j]
    {
      UndroppedAt(dims, axes, j);
    }
  }

  /** `GetDecreasedDims`, without inference flags. */
  method GetDecreasedDims(sliceDims: seq<nat>, decreaseAxes: seq<int>) returns (decreased: seq<nat>)
    requires forall i :: 0 <= i < |decreaseAxes| ==> 0 <= decreaseAxes[i] < |sliceDims|
    ensures decreased == DecreasedDims(sliceDims, decreaseAxes)
  {
    decreased := sliceDims;
    if |decreaseAxes| > 0 {
      var flag := seq(|sliceDims|, _ => false);
      for i := 0 to |decreaseAxes|
        invariant |flag| == |sliceDims|
        invariant forall j :: 0 <= j < |flag| ==> flag[j] == (j in decreaseAxes[..i])
      {
        flag := flag[decreaseAxes[i] := true];
      }
      assert decreaseAxes[..|decreaseAxes|] == decreaseAxes;
      var newShape := [];
      for i := 0 to |sliceDims|
        invariant newShape == Undropped(sliceDims[..i], decreaseAxes)
      {
        assert sliceDims[..i + 1][..i] == sliceDims[..i];
        if !flag[i] {
          newShape := newShape + [sliceDims[i]];
        }
      }
      assert sliceDims[..|sliceDims|] == sliceDims;
      if |newShape| == 0 {
        newShape := newShape + [1];
      }
      decreased := newShape;
    } else {
      NothingDropped(sliceDims);
    }
  }

  lemma {:induction false} NothingDropped(dims: seq<nat>)
    ensures Undropped(dims, []) == dims
  {
    if dims != [] {
      NothingDropped(dims[..|dims| - 1]);
    }
  }

  // ---------- windows ----------

  /** The multi-index of the whole tensor for one of the window. */
  function Shift(offsets: seq<nat>, idx: seq<nat>): (s: seq<nat>)
    requires |idx| == |offsets|
    ensures |s| == |idx| && forall j :: 0 <= j < |s| ==> s[j] == offsets[j] + idx[j]
  {
    seq(|idx|, j requires 0 <= j < |idx| => offsets[j] + idx[j])
  }

  predicate WindowFits(inDims: seq<nat>, offsets: seq<nat>, extents: seq<nat>) {
    |inDims| == |offsets| == |extents|
    && forall j :: 0 <= j < |inDims| ==> offsets[j] + extents[j] <= inDims[j]
  }

  lemma ShiftInBounds(inDims: seq<nat>, offsets: seq<nat>, extents: seq<nat>, idx: seq<nat>)
    requires WindowFits(inDims, offsets, extents) && InBounds(idx, extents)
    ensures InBounds(Shift(offsets, idx), inDims)
  {
    forall j | 0 <= j < |inDims| ensures Shift(offsets, idx)[j] < inDims[j] {
      assert idx[j] < extents[j];
    }
  }

  /** The window of a tensor that starts at `offsets`. */
  ghost function Window<T>(x: seq<T>, inDims: seq<nat>, offsets: seq<nat>, extents: seq<nat>): (w: seq<T>)
    requires |x| == Product(inDims) && WindowFits(inDims, offsets, extents)
    ensures |w| == Product(extents)
  {
    seq(Product(extents), k requires 0 <= k < Product(extents) => WindowCell(x, inDims, offsets, extents, k))
  }

  ghost function WindowCell<T>(x: seq<T>, inDims: seq<nat>, offsets: seq<nat>, extents: seq<nat>, k: nat): T
    requires |x| == Product(inDims) && WindowFits(inDims, offsets, extents) && k < Product(extents)
  {
    DecodeInverse(extents, k);
    ShiftInBounds(inDims, offsets, extents, Decode(extents, k));
    At(x, inDims, Shift(offsets, Decode(extents, k)))
  }

  lemma WindowAt<T>(x: seq<T>, inDims: seq<nat>, offsets: seq<nat>, extents: seq<nat>, idx: seq<nat>)
    requires |x| == Product(inDims) && WindowFits(inDims, offsets, extents) && InBounds(idx, extents)
    ensures InBounds(Shift(offsets, idx), inDims)
    ensures At(Window(x, inDims, offsets, extents), extents, idx) == At(x, inDims, Shift(offsets, idx))
  {
    ShiftInBounds(inDims, offsets, extents, idx);
    EncodeBound(extents, idx);
    DecodeUnique(extents, idx);
  }

  // ---------- rows ----------

  /** Cell `c` of row `r` is at digit `c` of the row's multi-index. */
  lemma DecodeRow(rows: seq<nat>, w: nat, r: nat, c: nat)
    requires Product(rows) > 0 && c < w && (rows != [] || r == 0)
    ensures Product(rows + [w]) > 0
    ensures Decode(rows + [w], r * w + c) == Decode(rows, r) + [c]
  {
    ProductConcat(rows, [w]);
    DecodeInverse(rows, r);
    EncodeAppend(rows, Decode(rows, r), w, c);
    DecodeUnique(rows + [w], Decode(rows, r) + [c]);
  }

  /** The last coordinate moves along the buffer one cell at a time. */
  lemma LastDigit(dims: seq<nat>, idx: seq<nat>, c: nat)
    requires |idx| == |dims| > 0
    ensures Encode(dims, idx[|idx| - 1 := idx[|idx| - 1] + c]) == Encode(dims, idx) + c
  {
    var last := |dims| - 1;
    DotUpdate(idx, Strides(dims), last, idx[last] + c);
    StridesAt(dims, last);
  }

  /** The odometer over the rows of the window: the row's index shifted, and the offset of the last axis. */
  function RowIndex(offsets: seq<nat>, row: seq<nat>): (idx: seq<nat>)
    requires |offsets| == |row| + 1
    ensures |idx| == |offsets|
  {
    Shift(offsets, row + [0])
  }

  /** Carrying in the row carries in the index. */
  lemma CarryRow(offsets: seq<nat>, row: seq<nat>, j: nat)
    requires |offsets| == |row| + 1 && 0 < j < |row|
    ensures var next := RowIndex(offsets, row);
      RowIndex(offsets, row[j := 0][j - 1 := row[j - 1] + 1]) == next[j := offsets[j]][j - 1 := next[j - 1] + 1]
  {
    SetRowDigit(offsets, row, j, 0);
    SetRowDigit(offsets, row[j := 0], j - 1, row[j - 1] + 1);
  }

  lemma SetRowDigit(offsets: seq<nat>, row: seq<nat>, j: nat, v: nat)
    requires |offsets| == |row| + 1 && j < |row|
    ensures RowIndex(offsets, row[j := v]) == RowIndex(offsets, row)[j := offsets[j] + v]
  {
  }

  /** The carry loop of the slice kernel, from one row of the window to the next. */
  method AdvanceWindow(offsets: seq<nat>, extents: seq<nat>, index: seq<nat>, ghost rows: seq<nat>, ghost r: nat)
    returns (next: seq<nat>)
    requires |offsets| == |extents| >= 2 && rows == extents[..|extents| - 1] && Product(rows) > 0
    requires index == RowIndex(offsets, Decode(rows, r))
    ensures next == RowIndex(offsets, Decode(rows, r + 1))
  {
    CarryStart(rows, r);
    var j := |index| - 2;
    ghost var row := Decode(rows, r);
    SetRowDigit(offsets, row, j, row[j] + 1);
    row := row[j := row[j] + 1];
    next := index[j := index[j] + 1];
    while j > 0
      invariant |row| + 1 == |offsets| && next == RowIndex(offsets, row)
      invariant Carrying(rows, row, j, r + 1)
    {
      if next[j] >= offsets[j] + extents[j] {
        CarryStep(rows, row, j, r + 1);
        CarryRow(offsets, row, j);
        row := row[j := 0][j - 1 := row[j - 1] + 1];
        next := next[j := offsets[j]];
        next := next[j - 1 := next[j - 1] + 1];
        j := j - 1;
      } else {
        break;
      }
    }
    CarryDone(rows, row, j, r + 1);
  }

  /** The first `n` rows of the window have been copied. */
  ghost predicate RowsCopied<T>(x: seq<T>, inDims: seq<nat>, offsets: seq<nat>, extents: seq<nat>, out: seq<T>, n: nat)
    requires |x| == Product(inDims) && WindowFits(inDims, offsets, extents)
  {
    |out| == Product(extents) && n <= |out|
    && forall k :: 0 <= k < n ==> out[k] == WindowCell(x, inDims, offsets, extents, k)
  }

  lemma RowPosition(extents: seq<nat>, rows: seq<nat>, w: nat, r: nat, c: nat)
    requires extents == rows + [w] && r < Product(rows) && c < w && rows != []
    ensures r * w + c < Product(extents)
    ensures InBounds(Decode(rows, r) + [c], extents)
    ensures Decode(extents, r * w + c) == Decode(rows, r) + [c]
  {
    ProductConcat(rows, [w]);
    PosBound(r, c, Product(rows), w);
    DecodeRow(rows, w, r, c);
    DecodeInverse(rows, r);
  }

  /** Along a row the source position grows by one a cell. */
  lemma RowOffset(inDims: seq<nat>, offsets: seq<nat>, row: seq<nat>, c: nat)
    requires |inDims| == |offsets| == |row| + 1
    ensures Encode(inDims, Shift(offsets, row + [c])) == Encode(inDims, RowIndex(offsets, row)) + c
  {
    var start := RowIndex(offsets, row);
    LastDigit(inDims, start, c);
    assert Shift(offsets, row + [c]) == start[|start| - 1 := start[|start| - 1] + c];
  }

  /** Where a row of the window lies in the tensor. */
  lemma RowSource<T>(x: seq<T>, inDims: seq<nat>, offsets: seq<nat>, extents: seq<nat>, rows: seq<nat>, w: nat, r: nat,
                     c: nat, k: nat, src: nat)
    requires |x| == Product(inDims) && WindowFits(inDims, offsets, extents)
    requires extents == rows + [w] && rows != [] && r < Product(rows) && c < w
    requires k == r * w + c && src == Encode(inDims, RowIndex(offsets, Decode(rows, r)))
    ensures k < Product(extents) && src + c < |x|
    ensures x[src + c] == WindowCell(x, inDims, offsets, extents, k)
  {
    RowPosition(extents, rows, w, r, c);
    RowOffset(inDims, offsets, Decode(rows, r), c);
    ShiftInBounds(inDims, offsets, extents, Decode(rows, r) + [c]);
    EncodeBound(inDims, Shift(offsets, Decode(rows, r) + [c]));
  }

  /** The copy loop of `SliceRawKernel`. */
  method CopyWindow<T>(x: seq<T>, inDims: seq<nat>, offsets: seq<nat>, extents: seq<nat>, out: array<T>)
    requires |x| == Product(inDims) && WindowFits(inDims, offsets, extents) && |inDims| >= 2
    requires out.Length == Product(extents)
    modifies out
    ensures out[..] == Window(x, inDims, offsets, extents)
  {
    var w := extents[|extents| - 1];
    ghost var rows := extents[..|extents| - 1];
    assert extents == rows + [w];
    ProductConcat(rows, [w]);
    var inStep := ComputeSteps(inDims);
    if out.Length == 0 { return; }
    var index := offsets;
    ZeroIndex(rows);
    assert index == RowIndex(offsets, Decode(rows, 0));
    var i := 0;
    ghost var r := 0;
    while i < out.Length
      invariant i == r * w && r <= Product(rows)
      invariant index == RowIndex(offsets, Decode(rows, r))
      invariant RowsCopied(x, inDims, offsets, extents, out[..], i)
    {
      RowsRemain(r, Product(rows), w);
      NextBlock(r, w);
      MulMono(r + 1, Product(rows), w);
      var src := VecProduct(index, inStep);
      CopyRow(x, inDims, offsets, extents, out, rows, i, src, w, r);
      index := AdvanceWindow(offsets, extents, index, rows, r);
      i := i + w;
      r := r + 1;
    }
  }

  lemma RowsRemain(r: nat, m: nat, w: nat)
    requires r * w < m * w
    ensures r < m
  {
    if r >= m { MulMono(m, r, w); }
  }

  /** The `memcpy` of one row. */
  method CopyRow<T>(x: seq<T>, ghost inDims: seq<nat>, ghost offsets: seq<nat>, ghost extents: seq<nat>, out: array<T>,
                    ghost rows: seq<nat>, i: nat, src: nat, w: nat, ghost r: nat)
    requires |x| == Product(inDims) && WindowFits(inDims, offsets, extents)
    requires extents == rows + [w] && rows != [] && r < Product(rows) && i == r * w
    requires src == Encode(inDims, RowIndex(offsets, Decode(rows, r)))
    requires i + w <= out.Length && RowsCopied(x, inDims, offsets, extents, out[..], i)
    modifies out
    ensures RowsCopied(x, inDims, offsets, extents, out[..], i + w)
  {
    for c := 0 to w
      invariant RowsCopied(x, inDims, offsets, extents, out[..], i + c)
    {
      RowSource(x, inDims, offsets, extents, rows, w, r, c, i + c, src);
      out[i + c] := x[src + c];
    }
  }

  // ---------- the kernel ----------

  datatype SliceResult<T> = Sliced(data: seq<T>, dims: seq<nat>) | SliceError

  function Ones(n: nat): (s: seq<int>)
    ensures |s| == n && forall i :: 0 <= i < n ==> s[i] == 1
  {
    seq(n, _ => 1)
  }

  /** A start of -1 with end 0 on an axis that is to be dropped means the last element. */
  function AdjustedEnds(inDims: seq<nat>, axes: seq<int>, starts: seq<int>, ends: seq<int>, inferFlags: seq<int>,
                        decreaseAxis: seq<int>): (e: seq<int>)
    requires |axes| == |starts| == |ends| == |inferFlags|
    requires forall i :: 0 <= i < |decreaseAxis| ==> 0 <= decreaseAxis[i] < |inDims|
    ensures |e| == |ends|
  {
    seq(|ends|, i requires 0 <= i < |ends| =>
      if starts[i] == -1 && ends[i] == 0 && inferFlags[i] == -1 && axes[i] in decreaseAxis then inDims[axes[i]]
      else ends[i])
  }

  /** The normalised range of axis `j`: that of its last entry, or the whole axis. */
  function AxisRange(inDims: seq<nat>, axes: seq<int>, starts: seq<int>, ends: seq<int>, j: nat): (r: Range)
    requires |axes| == |starts| == |ends| && AllNormal(inDims, axes, starts, ends, Ones(|axes|)) && j < |inDims|
    ensures 0 <= r.start <= r.end <= inDims[j]
  {
    var i := LastEntry(axes, |axes|, j);
    if i < 0 then Range(0, inDims[j])
    else
      assert NormalizeEntry(inDims, axes, starts, ends, Ones(|axes|), i).Normal?;
      NormalizeEntry(inDims, axes, starts, ends, Ones(|axes|), i).range
  }

  function SliceOffsets(inDims: seq<nat>, axes: seq<int>, starts: seq<int>, ends: seq<int>): (o: seq<nat>)
    requires |axes| == |starts| == |ends| && AllNormal(inDims, axes, starts, ends, Ones(|axes|))
    ensures |o| == |inDims|
  {
    seq(|inDims|, j requires 0 <= j < |inDims| => AxisRange(inDims, axes, starts, ends, j).start)
  }

  function SliceExtents(inDims: seq<nat>, axes: seq<int>, starts: seq<int>, ends: seq<int>): (e: seq<nat>)
    requires |axes| == |starts| == |ends| && AllNormal(inDims, axes, starts, ends, Ones(|axes|))
    ensures |e| == |inDims|
    ensures WindowFits(inDims, SliceOffsets(inDims, axes, starts, ends), e)
  {
    seq(|inDims|, j requires 0 <= j < |inDims| =>
      AxisRange(inDims, axes, starts, ends, j).end - AxisRange(inDims, axes, starts, ends, j).start)
  }

  /** An entry that asks for the last element of an axis that is to be dropped. */
  predicate AsksForLast(axes: seq<int>, starts: seq<int>, ends: seq<int>, inferFlags: seq<int>,
                        decreaseAxis: seq<int>, i: nat)
    requires i < |axes| == |starts| == |ends| == |inferFlags|
  {
    starts[i] == -1 && ends[i] == 0 && inferFlags[i] == -1 && axes[i] in decreaseAxis
  }

  /** Index `k` of axis `j` is in the slice: the last entry for the axis decides, and without one all are. */
  predicate InSlice(inDims: seq<nat>, axes: seq<int>, starts: seq<int>, ends: seq<int>, inferFlags: seq<int>,
                    decreaseAxis: seq<int>, j: nat, k: nat)
    requires |axes| == |starts| == |ends| == |inferFlags| && j < |inDims|
  {
    var i := LastEntry(axes, |axes|, j);
    if i < 0 then true
    else if AsksForLast(axes, starts, ends, inferFlags, decreaseAxis, i) then k + 1 == inDims[j]
    else Wrapped(starts[i], inDims[j]) <= k < Wrapped(ends[i], inDims[j])
  }

  /** The window holds just the indices in the slice. */
  predicate Selects(inDims: seq<nat>, axes: seq<int>, starts: seq<int>, ends: seq<int>, inferFlags: seq<int>,
                    decreaseAxis: seq<int>, offsets: seq<nat>, extents: seq<nat>)
    requires |axes| == |starts| == |ends| == |inferFlags| && |offsets| == |extents| == |inDims|
  {
    forall j, k :: 0 <= j < |inDims| && 0 <= k < inDims[j] ==>
      (offsets[j] <= k < offsets[j] + extents[j] <==>
       InSlice(inDims, axes, starts, ends, inferFlags, decreaseAxis, j, k))
  }

  lemma SelectsAt(inDims: seq<nat>, axes: seq<int>, starts: seq<int>, ends: seq<int>, inferFlags: seq<int>,
                  decreaseAxis: seq<int>, j: nat, k: nat)
    requires |axes| == |starts| == |ends| == |inferFlags| && j < |inDims| && k < inDims[j]
    requires forall i :: 0 <= i < |decreaseAxis| ==> 0 <= decreaseAxis[i] < |inDims|
    requires AllNormal(inDims, axes, starts, AdjustedEnds(inDims, axes, starts, ends, inferFlags, decreaseAxis),
                       Ones(|axes|))
    ensures var wanted := AdjustedEnds(inDims, axes, starts, ends, inferFlags, decreaseAxis);
      var o := SliceOffsets(inDims, axes, starts, wanted)[j];
      o <= k < o + SliceExtents(inDims, axes, starts, wanted)[j]
      <==> InSlice(inDims, axes, starts, ends, inferFlags, decreaseAxis, j, k)
  {
    var i := LastEntry(axes, |axes|, j);
    if i >= 0 {
      var wanted := AdjustedEnds(inDims, axes, starts, ends, inferFlags, decreaseAxis);
      assert NormalizeEntry(inDims, axes, starts, wanted, Ones(|axes|), i).Normal?;
      NormalizeKeepsIndices(inDims[j], starts[i], wanted[i], 1);
      assert InRange(k, Wrapped(starts[i], inDims[j]), Wrapped(wanted[i], inDims[j]), 1)
        <==> Wrapped(starts[i], inDims[j]) <= k < Wrapped(wanted[i], inDims[j]);
    }
  }

  lemma SelectsAll(inDims: seq<nat>, axes: seq<int>, starts: seq<int>, ends: seq<int>, inferFlags: seq<int>,
                   decreaseAxis: seq<int>)
    requires |axes| == |starts| == |ends| == |inferFlags|
    requires forall i :: 0 <= i < |decreaseAxis| ==> 0 <= decreaseAxis[i] < |inDims|
    requires AllNormal(inDims, axes, starts, AdjustedEnds(inDims, axes, starts, ends, inferFlags, decreaseAxis),
                       Ones(|axes|))
    ensures var wanted := AdjustedEnds(inDims, axes, starts, ends, inferFlags, decreaseAxis);
      Selects(inDims, axes, starts, ends, inferFlags, decreaseAxis,
              SliceOffsets(inDims, axes, starts, wanted), SliceExtents(inDims, axes, starts, wanted))
  {
    var wanted := AdjustedEnds(inDims, axes, starts, ends, inferFlags, decreaseAxis);
    var o, e := SliceOffsets(inDims, axes, starts, wanted), SliceExtents(inDims, axes, starts, wanted);
    forall j, k | 0 <= j < |inDims| && 0 <= k < inDims[j]
      ensures o[j] <= k < o[j] + e[j] <==> InSlice(inDims, axes, starts, ends, inferFlags, decreaseAxis, j, k)
    {
      SelectsAt(inDims, axes, starts, ends, inferFlags, decreaseAxis, j, k);
    }
  }

  /** The entry names an axis, and asks for the last element or has a range that is accepted. */
  predicate EntryAccepted(inDims: seq<nat>, axes: seq<int>, starts: seq<int>, ends: seq<int>, inferFlags: seq<int>,
                          decreaseAxis: seq<int>, i: nat)
    requires i < |axes| == |starts| == |ends| == |inferFlags|
  {
    && 0 <= axes[i] < |inDims|
    && (AsksForLast(axes, starts, ends, inferFlags, decreaseAxis, i) || Accepts(inDims[axes[i]], starts[i], ends[i], 1))
  }

  lemma AdjustedAccepted(inDims: seq<nat>, axes: seq<int>, starts: seq<int>, ends: seq<int>, inferFlags: seq<int>,
                         decreaseAxis: seq<int>)
    requires |axes| == |starts| == |ends| == |inferFlags|
    requires forall i :: 0 <= i < |decreaseAxis| ==> 0 <= decreaseAxis[i] < |inDims|
    ensures AllNormal(inDims, axes, starts, AdjustedEnds(inDims, axes, starts, ends, inferFlags, decreaseAxis),
                      Ones(|axes|))
       <==> forall i :: 0 <= i < |axes| ==> EntryAccepted(inDims, axes, starts, ends, inferFlags, decreaseAxis, i)
  {
    var wanted := AdjustedEnds(inDims, axes, starts, ends, inferFlags, decreaseAxis);
    forall i | 0 <= i < |axes|
      ensures NormalizeEntry(inDims, axes, starts, wanted, Ones(|axes|), i).Normal?
         <==> EntryAccepted(inDims, axes, starts, ends, inferFlags, decreaseAxis, i)
    {
      if 0 <= axes[i] < |inDims| { AcceptedIff(inDims[axes[i]], starts[i], wanted[i], 1); }
    }
  }

  /** `SliceRawKernel`, for tensors of rank at least two. */
  method SliceRawKernel<T(0)>(input: seq<T>, inDims: seq<nat>, axes: seq<int>, startsArr: seq<int>, endsArr: seq<int>,
                              inferFlags: seq<int>, decreaseAxis: seq<int>)
    returns (r: SliceResult<T>)
    requires |input| == Product(inDims) && |inDims| >= 2 && |inferFlags| == |axes|
    requires forall i :: 0 <= i < |decreaseAxis| ==> 0 <= decreaseAxis[i] < |inDims|
    ensures r.Sliced? <==> (
      && |startsArr| == |axes| == |endsArr|
      && forall i :: 0 <= i < |axes| ==>
        EntryAccepted(inDims, axes, startsArr, endsArr, inferFlags, decreaseAxis, i))
    ensures r.Sliced? ==>
      var ends := AdjustedEnds(inDims, axes, startsArr, endsArr, inferFlags, decreaseAxis);
      && AllNormal(inDims, axes, startsArr, ends, Ones(|axes|))
      && var offsets := SliceOffsets(inDims, axes, startsArr, ends);
      var extents := SliceExtents(inDims, axes, startsArr, ends);
      && r.data == Window(input, inDims, offsets, extents)
      && Selects(inDims, axes, startsArr, endsArr, inferFlags, decreaseAxis, offsets, extents)
      && r.dims == DecreasedDims(extents, decreaseAxis)
      && (|r.data| == Product(r.dims) <==> DropsOnes(extents, decreaseAxis) || KeepsEmpty(extents, decreaseAxis))
  {
    if |startsArr| != |axes| || |endsArr| != |axes| {
      return SliceError;
    }
    ghost var wanted := AdjustedEnds(inDims, axes, startsArr, endsArr, inferFlags, decreaseAxis);
    AdjustedAccepted(inDims, axes, startsArr, endsArr, inferFlags, decreaseAxis);
    var starts := new int[|axes|](i requires 0 <= i < |axes| => startsArr[i]);
    var ends := new int[|axes|](i requires 0 <= i < |axes| => endsArr[i]);
    for i := 0 to |axes|
      invariant starts[..] == startsArr
      invariant forall k :: 0 <= k < |axes| ==> ends[k] == if k < i then wanted[k] else endsArr[k]
    {
      if starts[i] == -1 && ends[i] == 0 && inferFlags[i] == -1 && axes[i] in decreaseAxis {
        ends[i] := inDims[axes[i]];
      }
    }
    assert ends[..] == wanted;
    var ok := CheckAndUpdateSliceAttrs(inDims, axes, starts, ends, Ones(|axes|));
    if !ok {
      return SliceError;
    }
    ReadRanges(inDims, axes, startsArr, wanted, starts[..], ends[..]);
    var sliceDims := GetSliceDims(inDims, axes, starts[..], ends[..], Ones(|axes|));
    var offsets, extents := WindowBounds(sliceDims, axes, starts[..]);
    var outDims := GetDecreasedDims(extents, decreaseAxis);
    DroppingKeepsElements(extents, decreaseAxis);
    assert extents == SliceExtents(inDims, axes, startsArr, wanted);
    SelectsAll(inDims, axes, startsArr, endsArr, inferFlags, decreaseAxis);
    assert offsets == SliceOffsets(inDims, axes, startsArr, wanted);
    var out := new T[Product(extents)];
    CopyWindow(input, inDims, offsets, extents, out);
    return Sliced(out[..], outDims);
  }

  /** The normalised vectors hold the range of every sliced axis. */
  lemma ReadRanges(inDims: seq<nat>, axes: seq<int>, starts: seq<int>, ends: seq<int>, s: seq<int>, e: seq<int>)
    requires |axes| == |starts| == |ends| == |s| == |e| && AllNormal(inDims, axes, starts, ends, Ones(|axes|))
    requires forall i :: 0 <= i < |axes| ==>
      NormalizeEntry(inDims, axes, starts, ends, Ones(|axes|), i) == Normal(Range(s[i], e[i]))
    ensures forall i :: 0 <= i < |axes| ==> 0 <= axes[i] < |inDims| && 0 <= s[i] <= e[i]
    ensures forall j :: 0 <= j < |inDims| ==>
      var i := LastEntry(axes, |axes|, j);
      && SliceDim(inDims, axes, s, e, Ones(|axes|), |axes|, j) == SliceExtents(inDims, axes, starts, ends)[j]
      && (if i < 0 then 0 else s[i]) == SliceOffsets(inDims, axes, starts, ends)[j]
  {
    forall i | 0 <= i < |axes| ensures 0 <= axes[i] < |inDims| && 0 <= s[i] <= e[i] {
      assert NormalizeEntry(inDims, axes, starts, ends, Ones(|axes|), i) == Normal(Range(s[i], e[i]));
    }
  }

  /** The kernel's `offsets` and `extents`. */
  method WindowBounds(sliceDims: seq<int>, axes: seq<int>, starts: seq<int>)
    returns (offsets: seq<nat>, extents: seq<nat>)
    requires forall j :: 0 <= j < |sliceDims| ==> sliceDims[j] >= 0
    requires |axes| == |starts| && forall i :: 0 <= i < |axes| ==> 0 <= axes[i] < |sliceDims| && starts[i] >= 0
    ensures extents == sliceDims && |offsets| == |sliceDims|
    ensures forall j :: 0 <= j < |offsets| ==>
      offsets[j] == if LastEntry(axes, |axes|, j) < 0 then 0 else starts[LastEntry(axes, |axes|, j)]
  {
    offsets, extents := [], [];
    for j := 0 to |sliceDims|
      invariant |offsets| == |extents| == j
      invariant forall k :: 0 <= k < j ==> offsets[k] == 0 && extents[k] == sliceDims[k]
    {
      offsets, extents := offsets + [0], extents + [sliceDims[j]];
    }
    for i := 0 to |axes|
      invariant |offsets| == |sliceDims|
      invariant forall j :: 0 <= j < |offsets| ==>
        offsets[j] == if LastEntry(axes, i, j) < 0 then 0 else starts[LastEntry(axes, i, j)]
    {
      offsets := offsets[axes[i] := starts[i]];
    }
  }

  /** Every axis dropped has extent one. */
  predicate DropsOnes(dims: seq<nat>, axes: seq<int>) {
    forall j :: 0 <= j < |dims| && j in axes ==> dims[j] == 1
  }

  /** Some axis that stays is empty. */
  predicate KeepsEmpty(dims: seq<nat>, axes: seq<int>) {
    exists j :: 0 <= j < |dims| && j !in axes && dims[j] == 0
  }

  /**
    The decreased shape has as many elements as the tensor exactly when only axes of extent one are
    dropped, or there are no elements anyway. The kernel checks neither.
   */
  lemma DroppingKeepsElements(dims: seq<nat>, axes: seq<int>)
    ensures Product(DecreasedDims(dims, axes)) == Product(dims) <==> DropsOnes(dims, axes) || KeepsEmpty(dims, axes)
  {
    DropSplit(dims, axes);
    DroppedOnes(dims, axes);
    KeptEmpty(dims, axes);
    FactorOne(Product(Undropped(dims, axes)), DroppedProduct(dims, axes));
  }

  /** Dropping an axis of extent two leaves a shape for half of the six elements. */
  lemma DroppingLosesElements()
    ensures DecreasedDims([2, 3], [0]) == [3] && Product([3]) == 3 && Product([2, 3]) == 6
  {
    assert [2, 3][..1] == [2] && [2][..0] == [];
    assert Undropped([2], [0]) == [];
    assert [2, 3][1..] == [3] && [3][1..] == [];
  }

  function DroppedProduct(dims: seq<nat>, axes: seq<int>): nat {
    if dims == [] then 1
    else
      var last := |dims| - 1;
      DroppedProduct(dims[..last], axes) * if last in axes then dims[last] else 1
  }

  lemma {:induction false} DropSplit(dims: seq<nat>, axes: seq<int>)
    ensures Product(dims) == Product(Undropped(dims, axes)) * DroppedProduct(dims, axes)
  {
    if dims != [] {
      var last := |dims| - 1;
      var kept, dropped := Product(Undropped(dims[..last], axes)), DroppedProduct(dims[..last], axes);
      DropSplit(dims[..last], axes);
      assert dims[..last] + [dims[last]] == dims;
      ProductAppend(dims[..last], dims[last]);
      OneMoreFactor(Product(dims[..last]), kept, dropped, dims[last]);
      if last in axes {
        assert DroppedProduct(dims, axes) == dropped * dims[last]
          && Undropped(dims, axes) == Undropped(dims[..last], axes);
      } else {
        assert DroppedProduct(dims, axes) == dropped;
        ProductAppend(Undropped(dims[..last], axes), dims[last]);
      }
    }
  }

  lemma OneMoreFactor(p: nat, a: nat, b: nat, c: nat)
    requires p == a * b
    ensures p * c == a * (b * c) && p * c == a * c * b
  {
    MulAssoc(a, b, c);
    MulAssoc(a, c, b);
    assert b * c == c * b;
  }

  lemma {:induction false} DroppedOnes(dims: seq<nat>, axes: seq<int>)
    ensures DroppedProduct(dims, axes) == 1 <==> DropsOnes(dims, axes)
  {
    if dims != [] {
      var last := |dims| - 1;
      DroppedOnes(dims[..last], axes);
      BothOne(DroppedProduct(dims[..last], axes), if last in axes then dims[last] else 1);
      assert DropsOnes(dims, axes) <==> DropsOnes(dims[..last], axes) && (last in axes ==> dims[last] == 1);
    }
  }

  lemma {:induction false} KeptEmpty(dims: seq<nat>, axes: seq<int>)
    ensures Product(Undropped(dims, axes)) == 0 <==> KeepsEmpty(dims, axes)
  {
    if dims != [] {
      var last := |dims| - 1;
      KeptEmpty(dims[..last], axes);
      if last in axes {
        assert Undropped(dims, axes) == Undropped(dims[..last], axes);
      } else {
        ProductAppend(Undropped(dims[..last], axes), dims[last]);
        EitherZero(Product(Undropped(dims[..last], axes)), dims[last]);
      }
      OneMoreAxis(dims, axes);
    }
  }

  lemma OneMoreAxis(dims: seq<nat>, axes: seq<int>)
    requires dims != []
    ensures var last := |dims| - 1;
      KeepsEmpty(dims, axes) <==> KeepsEmpty(dims[..last], axes) || (last !in axes && dims[last] == 0)
  {
    var last := |dims| - 1;
    assert forall j :: 0 <= j < last ==> dims[..last][j] == dims[j];
    if KeepsEmpty(dims[..last], axes) {
      var j :| 0 <= j < last && j !in axes && dims[..last][j] == 0;
      assert dims[j] == 0;
    }
  }

  lemma BothOne(a: nat, b: nat)
    ensures a * b == 1 <==> a == 1 && b == 1
  {
    if a > 1 && b > 0 {
      assert a * b >= a;
    }
  }

  lemma EitherZero(a: nat, b: nat)
    ensures a * b == 0 <==> a == 0 || b == 0
  {
  }

  lemma FactorOne(p: nat, d: nat)
    ensures p == p * d <==> p == 0 || d == 1
  {
    if p > 0 && d > 1 {
      assert p * d >= p * 2;
    }
  }

  // ---------- a slice along one axis ----------

  /** The offsets of a window that starts at `start` along one axis. */
  function AxisOffset(rank: nat, axis: nat, start: nat): (o: seq<nat>)
    ensures |o| == rank && forall k :: 0 <= k < rank ==> o[k] == if k == axis then start else 0
  {
    seq(rank, k => if k == axis then start else 0)
  }

  /** A single entry within the axis is taken as it is, and the other axes are whole. */
  lemma OneEntry(d: seq<nat>, axis: nat, start: nat, end: nat)
    requires axis < |d| && start <= end <= d[axis]
    ensures AllNormal(d, [axis], [start], [end], Ones(1))
    ensures SliceOffsets(d, [axis], [start], [end]) == AxisOffset(|d|, axis, start)
    ensures SliceExtents(d, [axis], [start], [end]) == d[axis := end - start]
  {
    assert NormalizeEntry(d, [axis], [start], [end], Ones(1), 0) == Normal(Range(start, end));
    forall k | 0 <= k < |d|
      ensures AxisRange(d, [axis], [start], [end], k) == if k == axis then Range(start, end) else Range(0, d[k])
    {
      assert LastEntry([axis], 1, k) == if k == axis then 0 else LastEntry([axis], 0, k);
    }
  }

  /** The kernel called for one axis, with bounds already in range. */
  method SliceAxis<T(0)>(input: seq<T>, d: seq<nat>, axis: nat, start: nat, end: nat) returns (r: SliceResult<T>)
    requires |input| == Product(d) && |d| >= 2 && axis < |d| && start <= end <= d[axis]
    ensures WindowFits(d, AxisOffset(|d|, axis, start), d[axis := end - start])
    ensures r == Sliced(Window(input, d, AxisOffset(|d|, axis, start), d[axis := end - start]), d[axis := end - start])
  {
    OneEntry(d, axis, start, end);
    assert AdjustedEnds(d, [axis], [start], [end], [1], []) == [end];
    NothingDropped(d[axis := end - start]);
    r := SliceRawKernel(input, d, [axis], [start], [end], [1], []);
  }
}
