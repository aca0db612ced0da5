/**
  Strided views, the contiguous kernel that copies one out by div/mod decoding, and the
  transpose kernel that scatters with an odometer. The two are proved to agree.
 */
module Transpose {
  import opened Indexing
  import opened Permutations

  /** Every multi-index of the view lands inside a buffer of `n` cells. */
  ghost predicate ViewFits(n: nat, dims: seq<nat>, strides: seq<nat>) {
    |strides| == |dims|
    && forall idx :: InBounds(idx, dims) ==> Dot(idx, strides) < n
  }

  /** What a strided view of a buffer reads, in row-major order of the view's shape. */
  ghost function StridedView<T>(x: seq<T>, dims: seq<nat>, strides: seq<nat>): (v: seq<T>)
    requires ViewFits(|x|, dims, strides)
    ensures |v| == Product(dims)
    ensures forall idx :: InBounds(idx, dims) ==> At(v, dims, idx) == x[Dot(idx, strides)]
  {
    var v := seq(Product(dims), i requires 0 <= i < Product(dims) => Viewed(x, dims, strides, i));
    assert forall idx :: InBounds(idx, dims) ==> At(v, dims, idx) == x[Dot(idx, strides)] by {
      forall idx | InBounds(idx, dims) ensures At(v, dims, idx) == x[Dot(idx, strides)] {
        EncodeBound(dims, idx);
        DecodeUnique(dims, idx);
      }
    }
    v
  }

  ghost function Viewed<T>(x: seq<T>, dims: seq<nat>, strides: seq<nat>, i: nat): T
    requires ViewFits(|x|, dims, strides) && i < Product(dims)
  {
    DecodeInverse(dims, i);
    x[Dot(Decode(dims, i), strides)]
  }

  datatype StridesResult = Strided(strides: seq<nat>) | RankTooLarge

  /**
    `CalcStrides`: unrolled, one assignment an axis, for ranks 1 to 9. An empty shape or one
    with no elements is returned as is.
   */
  method CalcStrides(dims: seq<nat>) returns (r: StridesResult)
    ensures r == if Product(dims) == 0 then Strided(dims)
                 else if |dims| > 9 then RankTooLarge
                 else Strided(Strides(dims))
  {
    var n := |dims|;
    var productDims := ProductLoop(dims);
    if n == 0 || productDims == 0 { return Strided(dims); }
    if n > 9 { return RankTooLarge; }
    var s := seq(n, _ => 1);
    assert dims[n..] == [] && dims[n - 1..] == [dims[n - 1]];
    if n == 1 { FilledAll(dims, s); return Strided(s); }
    s := StrideAxis(dims, s, n - 2);
    if n == 2 { FilledAll(dims, s); return Strided(s); }
    s := StrideAxis(dims, s, n - 3);
    if n == 3 { FilledAll(dims, s); return Strided(s); }
    s := StrideAxis(dims, s, n - 4);
    if n == 4 { FilledAll(dims, s); return Strided(s); }
    s := StrideAxis(dims, s, n - 5);
    if n == 5 { FilledAll(dims, s); return Strided(s); }
    s := StrideAxis(dims, s, n - 6);
    if n == 6 { FilledAll(dims, s); return Strided(s); }
    s := StrideAxis(dims, s, n - 7);
    if n == 7 { FilledAll(dims, s); return Strided(s); }
    s := StrideAxis(dims, s, n - 8);
    if n == 8 { FilledAll(dims, s); return Strided(s); }
    s := StrideAxis(dims, s, n - 9);
    FilledAll(dims, s);
    return Strided(s);
  }

  /** One assignment of the unrolled `CalcStrides`. */
  method StrideAxis(dims: seq<nat>, s: seq<nat>, k: nat) returns (s': seq<nat>)
    requires k + 1 < |dims| && Filled(dims, s, k + 1)
    ensures Filled(dims, s', k)
  {
    FillStep(dims, s, k);
    s' := s[k := s[k + 1] * dims[k + 1]];
  }

  /** The inner loop of `ContiguousKernel`: decodes a position from the last axis up, summing stride offsets. */
  method StridedOffset(dims: seq<nat>, strides: seq<nat>, i: nat) returns (inputOffset: nat)
    requires |strides| == |dims| && i < Product(dims)
    ensures inputOffset == Dot(Decode(dims, i), strides)
  {
    inputOffset := 0;
    var indexTmp: nat := i;
    var dim := |dims|;
    ghost var digits: seq<nat> := [];
    ProductPositive(dims);
    while dim > 0
      invariant 0 <= dim <= |dims|
      invariant Decoding(dims, strides, i, dim, indexTmp, digits, inputOffset)
    {
      dim := dim - 1;
      var mod := indexTmp % dims[dim];
      DecodingStep(dims, strides, i, dim, indexTmp, digits, inputOffset);
      digits := [mod] + digits;
      indexTmp := indexTmp / dims[dim];
      inputOffset := inputOffset + mod * strides[dim];
    }
    FullyDecoded(dims, strides, i, indexTmp, digits, inputOffset);
  }

  /** The axes from `d` on are decoded into `digits`; `t` is what remains of position `i` above them. */
  ghost predicate Decoding(dims: seq<nat>, strides: seq<nat>, i: nat, d: nat, t: nat, digits: seq<nat>, offset: nat) {
    && d <= |dims| == |strides|
    && InBounds(digits, dims[d..])
    && i == t * Product(dims[d..]) + Encode(dims[d..], digits)
    && offset == Dot(digits, strides[d..])
  }

  lemma DecodingStep(dims: seq<nat>, strides: seq<nat>, i: nat, d: nat, t: nat, digits: seq<nat>, offset: nat)
    requires d < |dims| && dims[d] > 0 && Decoding(dims, strides, i, d + 1, t, digits, offset)
    ensures Decoding(dims, strides, i, d, t / dims[d], [t % dims[d]] + digits, offset + t % dims[d] * strides[d])
  {
    assert dims[d..][1..] == dims[d + 1..] && strides[d..][1..] == strides[d + 1..];
    EncodeStep(dims[d..], [t % dims[d]] + digits);
    DivModExact(t, dims[d]);
    SplitScaled(t / dims[d], dims[d], t % dims[d], Product(dims[d + 1..]));
  }

  lemma FullyDecoded(dims: seq<nat>, strides: seq<nat>, i: nat, t: nat, digits: seq<nat>, offset: nat)
    requires i < Product(dims) && Decoding(dims, strides, i, 0, t, digits, offset)
    ensures offset == Dot(Decode(dims, i), strides)
  {
    assert dims[0..] == dims && strides[0..] == strides;
    if t > 0 { MulMono(1, t, Product(dims)); }
    DecodeUnique(dims, digits);
  }

  lemma SplitScaled(q: nat, d: nat, m: nat, p: nat)
    ensures (q * d + m) * p == q * (d * p) + m * p
  {
  }

  /** `ContiguousKernel`. */
  method ContiguousKernel<T>(input: seq<T>, dims: seq<nat>, strides: seq<nat>, output: array<T>)
    requires ViewFits(|input|, dims, strides)
    requires output.Length == Product(dims)
    modifies output
    ensures output[..] == StridedView(input, dims, strides)
  {
    for i := 0 to output.Length
      invariant forall k :: 0 <= k < i ==> output[k] == Viewed(input, dims, strides, k)
    {
      DecodeInverse(dims, i);
      var inputOffset := StridedOffset(dims, strides, i);
      output[i] := input[inputOffset];
    }
  }

  /** Reading a tensor through its own row-major strides, the ones `CalcStrides` gives, copies it. */
  lemma ContiguousIsIdentity<T>(x: seq<T>, dims: seq<nat>)
    requires |x| == Product(dims)
    ensures ViewFits(|x|, dims, Strides(dims))
    ensures StridedView(x, dims, Strides(dims)) == x
  {
    forall idx | InBounds(idx, dims) ensures Dot(idx, Strides(dims)) < |x| { EncodeBound(dims, idx); }
    SameBuffer(StridedView(x, dims, Strides(dims)), x, dims);
  }

  // ---------- transpose ----------

  /** Where the transpose kernel scatters input cell `i`. */
  ghost function Destination(dims: seq<nat>, p: seq<nat>, i: nat): nat
    requires IsPermutation(p, |dims|) && Product(dims) > 0
  {
    Encode(Gather(dims, p), Gather(Decode(dims, i), p))
  }

  lemma PermutedViewFits(dims: seq<nat>, p: seq<nat>)
    requires IsPermutation(p, |dims|)
    ensures Product(Gather(dims, p)) == Product(dims)
    ensures ViewFits(Product(dims), Gather(dims, p), Gather(Strides(dims), p))
  {
    ProductPermuted(dims, p);
    forall g | InBounds(g, Gather(dims, p)) ensures Dot(g, Gather(Strides(dims), p)) < Product(dims) {
      PermutedOffset(dims, p, g);
    }
  }

  /** A multi-index of the permuted shape, read through the permuted strides, is its source's position. */
  lemma PermutedOffset(dims: seq<nat>, p: seq<nat>, g: seq<nat>)
    requires IsPermutation(p, |dims|) && InBounds(g, Gather(dims, p))
    ensures var idx := Gather(g, Inverse(p, |dims|));
      && InBounds(idx, dims) && Gather(idx, p) == g
      && Dot(g, Gather(Strides(dims), p)) == Encode(dims, idx) < Product(dims)
  {
    var idx := Gather(g, Inverse(p, |dims|));
    GatherInverse(g, p);
    GatherInBounds(idx, dims, p);
    DotPermuted(idx, Strides(dims), p);
    EncodeBound(dims, idx);
  }

  /** Transposition as a view: the same buffer with dims and strides permuted alike. */
  ghost function Transposed<T>(x: seq<T>, dims: seq<nat>, p: seq<nat>): (t: seq<T>)
    requires |x| == Product(dims) && IsPermutation(p, |dims|)
    ensures |t| == |x| == Product(Gather(dims, p))
  {
    PermutedViewFits(dims, p);
    StridedView(x, Gather(dims, p), Gather(Strides(dims), p))
  }

  /** The element at a multi-index moves to the permuted multi-index. */
  lemma TransposedAt<T>(x: seq<T>, dims: seq<nat>, p: seq<nat>, idx: seq<nat>)
    requires |x| == Product(dims) && IsPermutation(p, |dims|) && InBounds(idx, dims)
    ensures InBounds(Gather(idx, p), Gather(dims, p))
    ensures At(Transposed(x, dims, p), Gather(dims, p), Gather(idx, p)) == At(x, dims, idx)
  {
    GatherInBounds(idx, dims, p);
    PermutedViewFits(dims, p);
    DotPermuted(idx, Strides(dims), p);
  }

  lemma TransposeRoundTrip<T>(x: seq<T>, dims: seq<nat>, p: seq<nat>)
    requires |x| == Product(dims) && IsPermutation(p, |dims|)
    ensures Transposed(Transposed(x, dims, p), Gather(dims, p), Inverse(p, |dims|)) == x
  {
    var q, od := Inverse(p, |dims|), Gather(dims, p);
    var t := Transposed(x, dims, p);
    var u := Transposed(t, od, q);
    GatherInverse(dims, p);
    forall idx | InBounds(idx, dims) ensures At(u, dims, idx) == At(x, dims, idx) {
      RoundTripAt(x, dims, p, idx);
    }
    SameBuffer(u, x, dims);
  }

  lemma RoundTripAt<T>(x: seq<T>, dims: seq<nat>, p: seq<nat>, idx: seq<nat>)
    requires |x| == Product(dims) && IsPermutation(p, |dims|) && InBounds(idx, dims)
    ensures At(Transposed(Transposed(x, dims, p), Gather(dims, p), Inverse(p, |dims|)), dims, idx) == At(x, dims, idx)
  {
    GatherInverse(dims, p);
    GatherInverse(idx, p);
    TransposedAt(x, dims, p, idx);
    TransposedAt(Transposed(x, dims, p), Gather(dims, p), Inverse(p, |dims|), Gather(idx, p));
  }

  /** Scatter position `i` and view offset are mutually inverse, so no cell is written twice or missed. */
  lemma DestinationBijective(dims: seq<nat>, p: seq<nat>, i: nat)
    requires IsPermutation(p, |dims|) && i < Product(dims)
    ensures Product(Gather(dims, p)) == Product(dims)
    ensures var od, s := Gather(dims, p), Gather(Strides(dims), p);
      && Destination(dims, p, i) < Product(dims)
      && Dot(Decode(od, Destination(dims, p, i)), s) == i
      && Dot(Decode(od, i), s) < Product(dims)
      && Destination(dims, p, Dot(Decode(od, i), s)) == i
  {
    var od, s := Gather(dims, p), Gather(Strides(dims), p);
    PermutedViewFits(dims, p);
    var idx := Decode(dims, i);
    DecodeInverse(dims, i);
    GatherInBounds(idx, dims, p);
    EncodeBound(od, Gather(idx, p));
    DecodeUnique(od, Gather(idx, p));
    DotPermuted(idx, Strides(dims), p);
    DecodeInverse(od, i);
    PermutedOffset(dims, p, Decode(od, i));
    DecodeUnique(dims, Gather(Decode(od, i), Inverse(p, |dims|)));
  }

  /** The first `n` input cells sit at their destinations. */
  ghost predicate Scattered<T>(x: seq<T>, dims: seq<nat>, p: seq<nat>, o: seq<T>, n: nat)
    requires |x| == Product(dims) && IsPermutation(p, |dims|)
  {
    |o| == |x| && n <= |x| && forall i :: 0 <= i < n ==> Landed(x, dims, p, o, i)
  }

  ghost predicate Landed<T>(x: seq<T>, dims: seq<nat>, p: seq<nat>, o: seq<T>, i: nat)
    requires |x| == |o| == Product(dims) && IsPermutation(p, |dims|) && i < |x|
  {
    var d := Destination(dims, p, i);
    d < |o| && o[d] == x[i]
  }

  lemma DestinationsDiffer(dims: seq<nat>, p: seq<nat>, i: nat, k: nat)
    requires IsPermutation(p, |dims|) && i < Product(dims) && k < Product(dims) && i != k
    ensures Destination(dims, p, i) != Destination(dims, p, k)
  {
    DestinationBijective(dims, p, i);
    DestinationBijective(dims, p, k);
  }

  /** Writing another cell's destination leaves a landed cell in place. */
  lemma StaysLanded<T>(x: seq<T>, dims: seq<nat>, p: seq<nat>, o: seq<T>, i: nat, k: nat)
    requires |x| == |o| == Product(dims) && IsPermutation(p, |dims|) && i < |x| && k < |x| && i != k
    requires Landed(x, dims, p, o, k) && Destination(dims, p, i) < |o|
    ensures Landed(x, dims, p, o[Destination(dims, p, i) := x[i]], k)
  {
    DestinationsDiffer(dims, p, i, k);
  }

  lemma ScatterStep<T>(x: seq<T>, dims: seq<nat>, p: seq<nat>, o: seq<T>, i: nat)
    requires |x| == Product(dims) && IsPermutation(p, |dims|) && i < |x| && Scattered(x, dims, p, o, i)
    ensures Destination(dims, p, i) < |o|
    ensures Scattered(x, dims, p, o[Destination(dims, p, i) := x[i]], i + 1)
  {
    DestinationBijective(dims, p, i);
    var o' := o[Destination(dims, p, i) := x[i]];
    forall k | 0 <= k < i ensures Landed(x, dims, p, o', k) {
      assert Landed(x, dims, p, o, k);
      StaysLanded(x, dims, p, o, i, k);
    }
  }

  lemma ScatterIsView<T>(x: seq<T>, dims: seq<nat>, p: seq<nat>, o: seq<T>)
    requires |x| == Product(dims) && IsPermutation(p, |dims|) && Scattered(x, dims, p, o, |x|)
    ensures o == Transposed(x, dims, p)
  {
    var od, s := Gather(dims, p), Gather(Strides(dims), p);
    PermutedViewFits(dims, p);
    forall k | 0 <= k < |o| ensures o[k] == Transposed(x, dims, p)[k] {
      DestinationBijective(dims, p, k);
      assert Landed(x, dims, p, o, Dot(Decode(od, k), s));
      DecodeInverse(od, k);
      assert At(Transposed(x, dims, p), od, Decode(od, k)) == x[Dot(Decode(od, k), s)];
    }
  }

  /**
    `TransposeKernel`. The result is false where the kernel's check on the number of axes
    throws. Shape inference supplies `outDims`.
   */
  method TransposeKernel<T>(x: seq<T>, xDims: seq<nat>, axis: seq<nat>, outDims: seq<nat>, out: array<T>)
    returns (ok: bool)
    requires |x| == Product(xDims) && out.Length == Product(outDims) && |xDims| > 0
    requires |axis| == |xDims| ==> IsPermutation(axis, |xDims|) && outDims == Gather(xDims, axis)
    requires |xDims| == 1 && out.Length > 0 ==> |x| <= out.Length
    modifies out
    ensures ok <==> out.Length == 0 || |axis| == |xDims|
    ensures ok && |axis| == |xDims| ==> out[..] == Transposed(x, xDims, axis)
  {
    if out.Length == 0 {
      return true;
    }
    var rank := |xDims|;
    if rank == 1 {
      forall j | 0 <= j < |x| { out[j] := x[j]; }
    }
    if |axis| != rank {
      return false;
    }
    ProductPermuted(xDims, axis);
    var step := ComputeSteps(outDims);
    var index := FirstIndex(xDims);
    for i := 0 to |x|
      invariant index == Decode(xDims, i)
      invariant Scattered(x, xDims, axis, out[..], i)
    {
      var dstIndex := Gather(index, axis);
      var dst := VecProduct(dstIndex, step);
      ScatterStep(x, xDims, axis, out[..], i);
      out[dst] := x[i];
      index := Advance(xDims, index, i);
    }
    ScatterIsView(x, xDims, axis, out[..]);
    return true;
  }

  /** The two kernels agree: transposing is making the permuted view contiguous. */
  method TransposeByView<T(0)>(x: seq<T>, xDims: seq<nat>, axis: seq<nat>) returns (a: seq<T>, b: seq<T>)
    requires |x| == Product(xDims) && |xDims| > 0 && IsPermutation(axis, |xDims|)
    ensures a == b == Transposed(x, xDims, axis)
  {
    PermutedViewFits(xDims, axis);
    var outDims := Gather(xDims, axis);
    var s := ComputeSteps(xDims);
    var out1, out2 := new T[|x|], new T[|x|];
    var ok := TransposeKernel(x, xDims, axis, outDims, out1);
    ContiguousKernel(x, outDims, Gather(s, axis), out2);
    a, b := out1[..], out2[..];
  }
}
