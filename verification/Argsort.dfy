/**
  The argsort kernel: rows sorted in place for the last axis, and for any other axis a transpose
  that swaps it with the last, the row sort, and the same transpose back.
 */
module Argsort {
  import opened Indexing
  import opened Lines
  import opened Permutations
  import opened Transpose
  import opened Sorting

  // ---------- sorting rows ----------

  /** What the kernel promises of one line, its sorted values and their indices. */
  predicate LineResult(line: seq<Elem>, out: seq<Elem>, ind: seq<nat>, descending: bool, stable: bool) {
    SortedLine(line, out, ind, descending) && (stable ==> KeepsTies(out, ind))
  }

  /** The sort of `col_vec`, whose pairs carry the values of a line and their places. */
  method SortPairs(col: seq<Pair>, ghost line: seq<Elem>, descending: bool, stable: bool) returns (s: seq<Pair>)
    requires |col| == |line| && forall j :: 0 <= j < |col| ==> col[j] == Pair(line[j], j)
    ensures LineResult(line, Firsts(s), Seconds(s), descending, stable)
  {
    ghost var perm;
    if stable {
      s, perm := StableSort(col, descending);
    } else {
      s, perm := UnstableSort(col, descending);
    }
    assert Seconds(s) == perm && Firsts(s) == Gather(line, perm);
    if stable {
      forall j, k | 0 <= j < k < |s| && Firsts(s)[j] == Firsts(s)[k] ensures perm[j] < perm[k] {
        assert ComesFirst(Firsts(col), perm[j], perm[k], descending);
      }
      assert forall j, k :: 0 <= j < k < |s| ==> ComesFirst(Firsts(col), perm[j], perm[k], descending);
    }
  }

  function Seconds(s: seq<Pair>): (v: seq<nat>)
    ensures |v| == |s| && forall j :: 0 <= j < |s| ==> v[j] == s[j].second
  {
    seq(|s|, j requires 0 <= j < |s| => s[j].second)
  }

  /** The first `n` rows are sorted. */
  ghost predicate RowsSorted(input: seq<Elem>, out: seq<Elem>, ind: seq<nat>, w: nat, m: nat, n: nat, descending: bool,
                             stable: bool) {
    && n <= m && |input| == |out| == |ind| == m * w
    && forall i :: 0 <= i < n ==> RowSorted(input, out, ind, w, m, i, descending, stable)
  }

  ghost predicate RowSorted(input: seq<Elem>, out: seq<Elem>, ind: seq<nat>, w: nat, m: nat, i: nat, descending: bool,
                            stable: bool)
    requires |input| == |out| == |ind| == m * w && i < m
  {
    LineResult(Block(input, w, m, i), Block(out, w, m, i), Block(ind, w, m, i), descending, stable)
  }

  /** The loop that fills `col_vec` from one row. */
  method GatherRow(input: seq<Elem>, w: nat, m: nat, i: nat, inputDim: nat) returns (col: seq<Pair>)
    requires |input| == m * w && i < m && (inputDim == 1 ==> m == 1)
    ensures |col| == w && forall j :: 0 <= j < w ==> col[j] == Pair(Block(input, w, m, i)[j], j)
  {
    BlockBounds(m, w, i);
    var src := i * w;
    assert inputDim == 1 ==> src == 0;
    col := [];
    for j := 0 to w
      invariant |col| == j && forall k :: 0 <= k < j ==> col[k] == Pair(input[src + k], k)
    {
      if inputDim == 1 {
        col := col + [Pair(input[j], j)];
      } else {
        col := col + [Pair(input[src + j], j)];
      }
    }
  }

  /** The loop that writes the sorted row and its indices. */
  method WriteRow(s: seq<Pair>, tOut: array<Elem>, tIndices: array<nat>, w: nat, m: nat, i: nat)
    requires |s| == w && i < m && tOut.Length == tIndices.Length == m * w
    modifies tOut, tIndices
    ensures Block(tOut[..], w, m, i) == Firsts(s) && Block(tIndices[..], w, m, i) == Seconds(s)
    ensures i * w <= m * w && tOut[..i * w] == old(tOut[..i * w]) && tIndices[..i * w] == old(tIndices[..i * w])
  {
    BlockBounds(m, w, i);
    var dst := i * w;
    ghost var o, n := tOut[..dst], tIndices[..dst];
    for j := 0 to w
      invariant tOut[..dst] == o && tIndices[..dst] == n
      invariant forall k :: 0 <= k < j ==> tOut[dst + k] == s[k].first && tIndices[dst + k] == s[k].second
    {
      tOut[dst + j] := s[j].first;
      tIndices[dst + j] := s[j].second;
    }
  }

  /** Rows before the one written are untouched. */
  lemma RowsKept(input: seq<Elem>, out: seq<Elem>, ind: seq<nat>, out': seq<Elem>, ind': seq<nat>, w: nat, m: nat,
                 n: nat, d: bool, stable: bool)
    requires RowsSorted(input, out, ind, w, m, n, d, stable)
    requires |out'| == |ind'| == m * w && n * w <= m * w && out'[..n * w] == out[..n * w]
      && ind'[..n * w] == ind[..n * w]
    ensures RowsSorted(input, out', ind', w, m, n, d, stable)
  {
    forall i | 0 <= i < n ensures RowSorted(input, out', ind', w, m, i, d, stable) {
      BlockBounds(n, w, i);
      SameBlock(out, out', n * w, w, m, i);
      SameBlock(ind, ind', n * w, w, m, i);
      assert RowSorted(input, out, ind, w, m, i, d, stable);
    }
  }

  lemma SameBlock<T>(a: seq<T>, b: seq<T>, bound: nat, w: nat, m: nat, i: nat)
    requires |a| == |b| == m * w && i < m && i * w + w <= bound <= m * w && a[..bound] == b[..bound]
    ensures Block(a, w, m, i) == Block(b, w, m, i)
  {
    var lo := i * w;
    assert a[lo..lo + w] == a[..bound][lo..lo + w] && b[lo..lo + w] == b[..bound][lo..lo + w];
  }

  /** `FullSort`. */
  method FullSort(inputHeight: nat, inputWidth: nat, inputDim: nat, input: seq<Elem>, tOut: array<Elem>,
                  tIndices: array<nat>, descending: bool, stable: bool)
    requires |input| == tOut.Length == tIndices.Length == inputHeight * inputWidth
    requires inputDim == 1 ==> inputHeight == 1
    modifies tOut, tIndices
    ensures RowsSorted(input, tOut[..], tIndices[..], inputWidth, inputHeight, inputHeight, descending, stable)
  {
    for i := 0 to inputHeight
      invariant RowsSorted(input, tOut[..], tIndices[..], inputWidth, inputHeight, i, descending, stable)
    {
      var col := GatherRow(input, inputWidth, inputHeight, i, inputDim);
      var sorted := SortPairs(col, Block(input, inputWidth, inputHeight, i), descending, stable);
      ghost var o, n := tOut[..], tIndices[..];
      WriteRow(sorted, tOut, tIndices, inputWidth, inputHeight, i);
      RowsKept(input, o, n, tOut[..], tIndices[..], inputWidth, inputHeight, i, descending, stable);
    }
  }

  // ---------- lines along an axis ----------

  /** Every line along the axis is sorted. */
  ghost predicate LinesSorted(x: seq<Elem>, dims: seq<nat>, axis: nat, out: seq<Elem>, ind: seq<nat>, descending: bool,
                              stable: bool)
    requires |x| == |out| == |ind| == Product(dims) && axis < |dims|
  {
    forall idx :: InBounds(idx, dims) ==> LineSorted(x, dims, axis, out, ind, idx, descending, stable)
  }

  ghost predicate LineSorted(x: seq<Elem>, dims: seq<nat>, axis: nat, out: seq<Elem>, ind: seq<nat>, idx: seq<nat>,
                             descending: bool, stable: bool)
    requires |x| == |out| == |ind| == Product(dims) && axis < |dims| && InBounds(idx, dims)
  {
    LineResult(Line(x, dims, axis, idx), Line(out, dims, axis, idx), Line(ind, dims, axis, idx), descending, stable)
  }

  /** A line along the last axis is a row of the buffer. */
  lemma LineIsRow<T>(x: seq<T>, dims: seq<nat>, rows: seq<nat>, w: nat, idx: seq<nat>) returns (i: nat)
    requires dims == rows + [w] && |x| == Product(dims) && InBounds(idx, dims)
    ensures i < Product(rows) && Product(dims) == Product(rows) * w
    ensures i == Encode(rows, idx[..|rows|])
    ensures Line(x, dims, |rows|, idx) == Block(x, w, Product(rows), i)
  {
    var row := idx[..|rows|];
    i := Encode(rows, row);
    assert InBounds(row, rows);
    EncodeBound(rows, row);
    ProductAppend(rows, w);
    forall t | 0 <= t < w ensures Line(x, dims, |rows|, idx)[t] == Block(x, w, Product(rows), i)[t] {
      assert idx[|rows| := t] == row + [t];
      EncodeAppend(rows, row, w, t);
      BlockAt(x, w, Product(rows), i, t, Encode(dims, idx[|rows| := t]));
    }
  }

  /** Sorted rows are sorted lines along the last axis. */
  lemma RowsAreLines(x: seq<Elem>, dims: seq<nat>, rows: seq<nat>, w: nat, out: seq<Elem>, ind: seq<nat>, d: bool,
                     stable: bool)
    requires dims == rows + [w] && |x| == Product(dims)
    requires RowsSorted(x, out, ind, w, Product(rows), Product(rows), d, stable)
    ensures |out| == |ind| == Product(dims) && LinesSorted(x, dims, |rows|, out, ind, d, stable)
  {
    ProductAppend(rows, w);
    forall idx | InBounds(idx, dims) ensures LineSorted(x, dims, |rows|, out, ind, idx, d, stable) {
      var i := LineIsRow(x, dims, rows, w, idx);
      var i1 := LineIsRow(out, dims, rows, w, idx);
      var i2 := LineIsRow(ind, dims, rows, w, idx);
      assert RowSorted(x, out, ind, w, Product(rows), i, d, stable);
    }
  }

  // ---------- any axis ----------

  /** The permutation that exchanges two axes. */
  function Swap(rank: nat, a: nat, b: nat): (p: seq<nat>)
    requires a < rank && b < rank
    ensures IsPermutation(p, rank)
    ensures forall j :: 0 <= j < rank ==> p[j] == if j == a then b else if j == b then a else j
  {
    seq(rank, j => if j == a then b else if j == b then a else j)
  }

  /** Exchanging twice changes nothing. */
  lemma SwapSelfInverse<T>(s: seq<T>, a: nat, b: nat)
    requires a < |s| && b < |s|
    ensures Gather(Gather(s, Swap(|s|, a, b)), Swap(|s|, a, b)) == s
  {
  }

  lemma CellTransposed<T>(x: seq<T>, dims: seq<nat>, p: seq<nat>, a: nat, b: nat, idx: seq<nat>, t: nat)
    requires a < |dims| && b < |dims| && p == Swap(|dims|, a, b)
    requires |x| == Product(dims) && InBounds(idx, dims) && t < dims[a]
    ensures InBounds(Gather(idx, p)[b := t], Gather(dims, p))
    ensures At(Transposed(x, dims, p), Gather(dims, p), Gather(idx, p)[b := t]) == At(x, dims, idx[a := t])
  {
    SwapUpdate(idx, p, a, b, t);
    var moved := idx[a := t];
    assert InBounds(moved, dims);
    TransposedAt(x, dims, p, moved);
  }

  lemma SwapUpdate(idx: seq<nat>, p: seq<nat>, a: nat, b: nat, t: nat)
    requires a < |idx| && b < |idx| && p == Swap(|idx|, a, b)
    ensures Gather(idx[a := t], p) == Gather(idx, p)[b := t]
  {
  }

  /** Exchanging axes takes the lines of one to the lines of the other. */
  lemma LineTransposed<T>(x: seq<T>, dims: seq<nat>, p: seq<nat>, a: nat, b: nat, idx: seq<nat>)
    requires a < |dims| && b < |dims| && p == Swap(|dims|, a, b)
    requires |x| == Product(dims) && InBounds(idx, dims)
    ensures InBounds(Gather(idx, p), Gather(dims, p))
    ensures Line(Transposed(x, dims, p), Gather(dims, p), b, Gather(idx, p)) == Line(x, dims, a, idx)
  {
    GatherInBounds(idx, dims, p);
    var l1, l2 := Line(Transposed(x, dims, p), Gather(dims, p), b, Gather(idx, p)), Line(x, dims, a, idx);
    forall t: nat | t < |l1| ensures l1[t] == l2[t] {
      CellTransposed(x, dims, p, a, b, idx, t);
    }
  }

  /** Sorting the last axis between two exchanges sorts the given axis. */
  lemma SortedThroughSwap(x: seq<Elem>, dims: seq<nat>, p: seq<nat>, axis: nat, last: nat,
                          tOut: seq<Elem>, tInd: seq<nat>, d: bool, stable: bool)
    requires axis < |dims| && last < |dims| && p == Swap(|dims|, axis, last)
    requires |x| == Product(dims) && |tOut| == |tInd| == Product(Gather(dims, p)) == Product(dims)
    requires LinesSorted(Transposed(x, dims, p), Gather(dims, p), last, tOut, tInd, d, stable)
    ensures Gather(Gather(dims, p), p) == dims
    ensures LinesSorted(x, dims, axis, Transposed(tOut, Gather(dims, p), p), Transposed(tInd, Gather(dims, p), p), d,
      stable)
  {
    var od := Gather(dims, p);
    SwapSelfInverse(dims, axis, last);
    var out, ind := Transposed(tOut, od, p), Transposed(tInd, od, p);
    forall idx | InBounds(idx, dims) ensures LineSorted(x, dims, axis, out, ind, idx, d, stable) {
      LineTransposed(x, dims, p, axis, last, idx);
      LineBack(tOut, dims, p, axis, last, idx);
      LineBack(tInd, dims, p, axis, last, idx);
      assert LineSorted(Transposed(x, dims, p), od, last, tOut, tInd, Gather(idx, p), d, stable);
    }
  }

  /** The second exchange returns the lines to their axis. */
  lemma LineBack<T>(y: seq<T>, dims: seq<nat>, p: seq<nat>, axis: nat, last: nat, idx: seq<nat>)
    requires axis < |dims| && last < |dims| && p == Swap(|dims|, axis, last) && InBounds(idx, dims)
    requires |y| == Product(Gather(dims, p)) && Gather(Gather(dims, p), p) == dims
    ensures |Transposed(y, Gather(dims, p), p)| == Product(dims) && InBounds(Gather(idx, p), Gather(dims, p))
    ensures Line(Transposed(y, Gather(dims, p), p), dims, axis, idx) == Line(y, Gather(dims, p), last, Gather(idx, p))
  {
    assert p == Swap(|dims|, last, axis);
    GatherInBounds(idx, dims, p);
    SwapSelfInverse(idx, axis, last);
    LineTransposed(y, Gather(dims, p), p, last, axis, Gather(idx, p));
  }

  /** The kernel's loops that build `trans`. */
  method BuildTrans(rank: nat, axis: nat) returns (trans: seq<nat>)
    requires axis + 1 < rank
    ensures trans == Swap(rank, axis, rank - 1)
  {
    trans := [];
    for i := 0 to axis
      invariant |trans| == i && forall j :: 0 <= j < i ==> trans[j] == j
    {
      trans := trans + [i];
    }
    trans := trans + [rank - 1];
    for i := axis + 1 to rank - 1
      invariant |trans| == i && forall j :: 0 <= j < i ==> trans[j] == if j == axis then rank - 1 else j
    {
      trans := trans + [i];
    }
    trans := trans + [axis];
  }

  /** The row sort along the last axis. */
  method SortLast(input: seq<Elem>, dims: seq<nat>, out: array<Elem>, indices: array<nat>, descending: bool,
                  stable: bool)
    requires |dims| > 0 && |input| == out.Length == indices.Length == Product(dims)
    modifies out, indices
    ensures LinesSorted(input, dims, |dims| - 1, out[..], indices[..], descending, stable)
  {
    ghost var rows, w := dims[..|dims| - 1], dims[|dims| - 1];
    assert dims == rows + [w];
    ProductAppend(rows, w);
    var inputHeight := ProductLoop(dims[..|dims| - 1]);
    var inputWidth := dims[|dims| - 1];
    FullSort(inputHeight, inputWidth, |dims|, input, out, indices, descending, stable);
    RowsAreLines(input, dims, rows, w, out[..], indices[..], descending, stable);
  }

  /** `ArgsortKernel`. */
  method ArgsortKernel(input: seq<Elem>, inDims: seq<nat>, axisArg: int, ghost a: nat, descending: bool, stable: bool,
                       output: array<Elem>, indices: array<nat>)
    requires |input| == output.Length == indices.Length == Product(inDims)
    requires inDims != [] ==> a < |inDims| && (axisArg == a || axisArg == a - |inDims|)
    modifies output, indices
    ensures inDims == [] ==> output[..] == input && indices[..] == [0]
    ensures inDims != [] ==> LinesSorted(input, inDims, a, output[..], indices[..], descending, stable)
    ensures inDims != [] ==>
      forall idx :: InBounds(idx, inDims) ==>
        && InOrder(Line(output[..], inDims, a, idx), descending)
        && Gathered(Line(input, inDims, a, idx), Line(output[..], inDims, a, idx), Line(indices[..], inDims, a, idx))
  {
    var rank := |inDims|;
    var axis := if axisArg < 0 then rank + axisArg else axisArg;
    if rank == 0 {
      output[0] := input[0];
      indices[0] := 0;
      assert output[..] == [output[0]] && indices[..] == [indices[0]];
      return;
    }
    if axis == -1 || axis + 1 == rank {
      SortLast(input, inDims, output, indices, descending, stable);
    } else {
      SortSwapped(input, inDims, axis, descending, stable, output, indices);
    }
    SortedMeans(input, inDims, a, output[..], indices[..], descending, stable);
  }

  /** Sorted lines are in order and hold what their indices say. */
  lemma SortedMeans(x: seq<Elem>, dims: seq<nat>, axis: nat, out: seq<Elem>, ind: seq<nat>, descending: bool,
                    stable: bool)
    requires |x| == |out| == |ind| == Product(dims) && axis < |dims|
    requires LinesSorted(x, dims, axis, out, ind, descending, stable)
    ensures forall idx :: InBounds(idx, dims) ==>
      && InOrder(Line(out, dims, axis, idx), descending)
      && Gathered(Line(x, dims, axis, idx), Line(out, dims, axis, idx), Line(ind, dims, axis, idx))
  {
    forall idx | InBounds(idx, dims)
      ensures InOrder(Line(out, dims, axis, idx), descending)
      ensures Gathered(Line(x, dims, axis, idx), Line(out, dims, axis, idx), Line(ind, dims, axis, idx))
    {
      assert LineSorted(x, dims, axis, out, ind, idx, descending, stable);
      SortedLineMeans(Line(x, dims, axis, idx), Line(out, dims, axis, idx), Line(ind, dims, axis, idx), descending);
    }
  }

  /** The branch for an axis other than the last. */
  method SortSwapped(input: seq<Elem>, inDims: seq<nat>, axis: nat, descending: bool, stable: bool,
                     output: array<Elem>, indices: array<nat>)
    requires |input| == output.Length == indices.Length == Product(inDims) && axis + 1 < |inDims|
    modifies output, indices
    ensures LinesSorted(input, inDims, axis, output[..], indices[..], descending, stable)
  {
    var trans := BuildTrans(|inDims|, axis);
    var transDims := Gather(inDims, trans);
    ProductPermuted(inDims, trans);
    SwapSelfInverse(inDims, axis, |inDims| - 1);
    var transInp, tOut, tInd := new Elem[|input|], new Elem[|input|], new nat[|input|];
    var _ := TransposeKernel(input, inDims, trans, transDims, transInp);
    SortLast(transInp[..], transDims, tOut, tInd, descending, stable);
    SortedThroughSwap(input, inDims, trans, axis, |inDims| - 1, tOut[..], tInd[..], descending, stable);
    var _ := TransposeKernel(tInd[..], transDims, trans, inDims, indices);
    var _ := TransposeKernel(tOut[..], transDims, trans, inDims, output);
  }
}
