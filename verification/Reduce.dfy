/**
  The reduction kernels: one odometer loop folds every input cell into the output cell its kept
  coordinates select. Sum, mean, min and max are that loop at four operations.
 */
module Reduce {
  import opened Indexing
  import opened Sums
  import opened Fibres

  // ---------- axes and fibres ----------

  predicate ValidAxes(axes: seq<nat>, rank: nat) {
    forall k :: 0 <= k < |axes| ==> axes[k] < rank
  }

  /** Which axes are reduced. */
  type Mask = seq<bool>

  function MaskOf(axes: seq<nat>, rank: nat): (m: Mask)
    ensures |m| == rank && forall j :: 0 <= j < rank ==> m[j] == (j in axes)
  {
    seq(rank, j => j in axes)
  }

  /** The shape with the reduced axes collapsed to one. */
  function KeptDims(dims: seq<nat>, mask: Mask): (k: seq<nat>)
    requires |mask| == |dims|
    ensures |k| == |dims| && forall j :: 0 <= j < |dims| ==> (mask[j] ==> k[j] == 1) && (!mask[j] ==> k[j] == dims[j])
  {
    seq(|dims|, j requires 0 <= j < |dims| => if mask[j] then 1 else dims[j])
  }

  /** A multi-index with its reduced coordinates set to zero. */
  function Kept(idx: seq<nat>, mask: Mask): (k: seq<nat>)
    requires |mask| == |idx|
    ensures |k| == |idx|
  {
    seq(|idx|, j requires 0 <= j < |idx| => if mask[j] then 0 else idx[j])
  }

  /** The output cell of input cell `i`. */
  function Projection(dims: seq<nat>, mask: Mask, i: nat): nat
    requires Product(dims) > 0 && |mask| == |dims|
  {
    Encode(KeptDims(dims, mask), Kept(Decode(dims, i), mask))
  }

  /** The projection as a function of flat positions. */
  ghost function Projector(dims: seq<nat>, mask: Mask): nat -> nat
    requires |mask| == |dims|
  {
    (i: nat) => if i < Product(dims) then Projection(dims, mask, i) else 0
  }

  lemma ProjectionInRange(dims: seq<nat>, mask: Mask, i: nat)
    requires i < Product(dims) && |mask| == |dims|
    ensures InBounds(Kept(Decode(dims, i), mask), KeptDims(dims, mask))
    ensures Projection(dims, mask, i) < Product(KeptDims(dims, mask))
  {
    DecodeInverse(dims, i);
    EncodeBound(KeptDims(dims, mask), Kept(Decode(dims, i), mask));
  }

  /** An input cell goes to the output cell with which it agrees on every axis that is not reduced. */
  lemma InFibre(dims: seq<nat>, mask: Mask, idx: seq<nat>, out: seq<nat>)
    requires |mask| == |dims| && InBounds(idx, dims) && InBounds(out, KeptDims(dims, mask))
    ensures Projector(dims, mask)(Encode(dims, idx)) == Encode(KeptDims(dims, mask), out)
       <==> forall j :: 0 <= j < |dims| && !mask[j] ==> idx[j] == out[j]
  {
    var kd, kept := KeptDims(dims, mask), Kept(idx, mask);
    EncodeBound(dims, idx);
    DecodeUnique(dims, idx);
    ProjectionInRange(dims, mask, Encode(dims, idx));
    DecodeUnique(kd, kept);
    DecodeUnique(kd, out);
    assert kept == out <==> forall j :: 0 <= j < |dims| && !mask[j] ==> idx[j] == out[j];
  }

  /** Every output cell is the projection of some input cell. */
  lemma ProjectionOnto(dims: seq<nat>, mask: Mask, o: nat) returns (i: nat)
    requires |mask| == |dims| && Product(dims) > 0 && o < Product(KeptDims(dims, mask))
    ensures i < Product(dims) && Projection(dims, mask, i) == o
  {
    var kd := KeptDims(dims, mask);
    var idx := Decode(kd, o);
    DecodeInverse(kd, o);
    ProductPositive(dims);
    forall j | 0 <= j < |dims| ensures idx[j] < dims[j] && Kept(idx, mask)[j] == idx[j] {
      assert idx[j] < kd[j];
    }
    assert Kept(idx, mask) == idx;
    i := Encode(dims, idx);
    EncodeBound(dims, idx);
    DecodeUnique(dims, idx);
  }

  predicate SameTerm(a: seq<nat>, b: seq<nat>, c: seq<nat>, d: seq<nat>, j: nat)
    requires j < |a| == |b| == |c| == |d|
  {
    a[j] * b[j] == c[j] * d[j]
  }

  /** Dot products with the same terms are equal. */
  lemma {:induction false} DotPointwise(a: seq<nat>, b: seq<nat>, c: seq<nat>, d: seq<nat>)
    requires |a| == |b| == |c| == |d|
    requires forall j :: 0 <= j < |a| ==> SameTerm(a, b, c, d, j)
    ensures Dot(a, b) == Dot(c, d)
  {
    if a != [] {
      assert SameTerm(a, b, c, d, 0);
      forall j | 0 <= j < |a| - 1 ensures SameTerm(a[1..], b[1..], c[1..], d[1..], j) {
        assert SameTerm(a, b, c, d, j + 1);
      }
      DotPointwise(a[1..], b[1..], c[1..], d[1..]);
    }
  }

  // ---------- the loop ----------

  /** The strides of the kept shape, zero on the reduced axes. */
  ghost predicate ZeroedSteps(dims: seq<nat>, mask: Mask, steps: seq<nat>)
    requires |mask| == |dims|
  {
    |steps| == |dims|
    && forall j :: 0 <= j < |dims| ==> steps[j] == if mask[j] then 0 else Strides(KeptDims(dims, mask))[j]
  }

  /** Zeroing strides instead of coordinates selects the same cell. */
  lemma ZeroedDot(dims: seq<nat>, mask: Mask, steps: seq<nat>, idx: seq<nat>)
    requires |mask| == |dims| == |idx| && ZeroedSteps(dims, mask, steps)
    ensures Dot(steps, idx) == Encode(KeptDims(dims, mask), Kept(idx, mask))
  {
    var kept, strides := Kept(idx, mask), Strides(KeptDims(dims, mask));
    forall j | 0 <= j < |dims| ensures SameTerm(steps, idx, kept, strides, j) {
      MaskedTerm(mask[j], strides[j], idx[j]);
    }
    DotPointwise(steps, idx, kept, strides);
  }

  lemma MaskedTerm(masked: bool, s: nat, i: nat)
    ensures (if masked then 0 else s) * i == (if masked then 0 else i) * s
  {
  }

  /** `dst_step`. */
  method DestinationSteps(dims: seq<nat>, axes: seq<nat>) returns (dstStep: seq<nat>)
    requires |dims| > 0 && ValidAxes(axes, |dims|)
    ensures ZeroedSteps(dims, MaskOf(axes, |dims|), dstStep)
  {
    var outDims := dims;
    for k := 0 to |axes|
      invariant |outDims| == |dims|
      invariant forall j :: 0 <= j < |dims| ==> outDims[j] == if j in axes[..k] then 1 else dims[j]
    {
      outDims := outDims[axes[k] := 1];
    }
    assert axes[..|axes|] == axes;
    assert outDims == KeptDims(dims, MaskOf(axes, |dims|));
    var steps := ComputeSteps(outDims);
    dstStep := ZeroSteps(steps, axes);
  }

  method ZeroSteps(steps: seq<nat>, axes: seq<nat>) returns (dstStep: seq<nat>)
    requires ValidAxes(axes, |steps|)
    ensures |dstStep| == |steps|
    ensures forall j :: 0 <= j < |steps| ==> dstStep[j] == if j in axes then 0 else steps[j]
  {
    dstStep := steps;
    for k := 0 to |axes|
      invariant |dstStep| == |steps|
      invariant forall j :: 0 <= j < |steps| ==> dstStep[j] == if j in axes[..k] then 0 else steps[j]
    {
      dstStep := dstStep[axes[k] := 0];
    }
    assert axes[..|axes|] == axes;
  }

  /** The update of the output for one input cell. */
  method FoldCell<T>(x: seq<T>, ghost xDims: seq<nat>, ghost mask: Mask, ghost init: T, op: (T, T) -> T, out: array<T>,
                     step: seq<nat>, dstStep: seq<nat>, index: seq<nat>, ghost i: nat)
    requires |x| == Product(xDims) && |mask| == |xDims| > 0 && i < |x| && index == Decode(xDims, i)
    requires step == Strides(xDims) && ZeroedSteps(xDims, mask, dstStep)
    requires out.Length == Product(KeptDims(xDims, mask))
    requires Folded(x, Projector(xDims, mask), init, op, out[..], i)
    modifies out
    ensures Folded(x, Projector(xDims, mask), init, op, out[..], i + 1)
  {
    ZeroedDot(xDims, mask, dstStep, index);
    var dst := VecProduct(dstStep, index);
    var src := VecProduct(index, step);
    DecodeInverse(xDims, i);
    ProjectionInRange(xDims, mask, i);
    FoldedStep(x, Projector(xDims, mask), init, op, out[..], i);
    out[dst] := op(out[dst], x[src]);
  }

  method ReduceLoop<T>(x: seq<T>, xDims: seq<nat>, axes: seq<nat>, init: T, op: (T, T) -> T, out: array<T>)
    requires |x| == Product(xDims) && |xDims| > 0 && ValidAxes(axes, |xDims|)
    requires out.Length == Product(KeptDims(xDims, MaskOf(axes, |xDims|)))
    modifies out
    ensures Folded(x, Projector(xDims, MaskOf(axes, |xDims|)), init, op, out[..], |x|)
  {
    ghost var mask := MaskOf(axes, |xDims|);
    var step := ComputeSteps(xDims);
    var dstStep := DestinationSteps(xDims, axes);
    forall o | 0 <= o < out.Length { out[o] := init; }
    if |x| == 0 { return; }
    var index := FirstIndex(xDims);
    for i := 0 to |x|
      invariant index == Decode(xDims, i)
      invariant Folded(x, Projector(xDims, mask), init, op, out[..], i)
    {
      FoldCell(x, xDims, mask, init, op, out, step, dstStep, index, i);
      index := Advance(xDims, index, i);
    }
  }

  // ---------- which axes are reduced ----------

  /** The axes a kernel reduces; sum and min treat an empty list as all axes. */
  function ReducedAxes(dims: seq<int>, rank: nat, reduceAll: bool): (axes: seq<nat>)
    requires forall k :: 0 <= k < |dims| ==> InRank(dims[k], rank)
    ensures ValidAxes(axes, rank)
  {
    if reduceAll then seq(rank, j => j) else Canonical(dims, rank)
  }

  /** The kernels' first lines: all axes on request, and negative axes counted from the last. */
  method NormalizeAxes(dims: seq<int>, rank: nat, reduceAll: bool) returns (axes: seq<nat>)
    requires forall k :: 0 <= k < |dims| ==> InRank(dims[k], rank)
    ensures axes == ReducedAxes(dims, rank, reduceAll)
  {
    if reduceAll {
      axes := [];
      for i := 0 to rank
        invariant axes == seq(i, j => j)
      {
        axes := axes + [i];
      }
    } else {
      axes := [];
      for k := 0 to |dims|
        invariant |axes| == k && forall j :: 0 <= j < k ==> axes[j] == Canonical(dims, rank)[j]
      {
        axes := axes + [CanonicalAxis(dims[k], rank)];
      }
    }
  }

  function Canonical(dims: seq<int>, rank: nat): (axes: seq<nat>)
    requires forall k :: 0 <= k < |dims| ==> InRank(dims[k], rank)
    ensures |axes| == |dims| && ValidAxes(axes, rank)
  {
    seq(|dims|, k requires 0 <= k < |dims| => CanonicalAxis(dims[k], rank))
  }

  lemma CanonicalMeans(dims: seq<int>, rank: nat)
    requires forall k :: 0 <= k < |dims| ==> InRank(dims[k], rank)
    ensures Canonical(dims, rank)
         == seq<nat>(|dims|, k requires 0 <= k < |dims| => if dims[k] < 0 then dims[k] + rank else dims[k])
  {
  }

  function ReducedMask(dims: seq<int>, rank: nat, reduceAll: bool): (m: Mask)
    requires forall k :: 0 <= k < |dims| ==> InRank(dims[k], rank)
    ensures |m| == rank
  {
    MaskOf(ReducedAxes(dims, rank, reduceAll), rank)
  }

  /** An axis is reduced when all are, or when it is listed, by itself or less the rank. */
  lemma ReducedAxis(dims: seq<int>, rank: nat, reduceAll: bool)
    requires forall k :: 0 <= k < |dims| ==> InRank(dims[k], rank)
    ensures ReducedMask(dims, rank, reduceAll) == seq(rank, j => reduceAll || j in dims || j - rank in dims)
  {
    var axes, mask := ReducedAxes(dims, rank, reduceAll), seq(rank, j => reduceAll || j in dims || j - rank in dims);
    forall j: nat | j < rank ensures MaskOf(axes, rank)[j] == mask[j] {
      if reduceAll {
        assert axes[j] == j;
      } else if d :| d in dims && (d == j || d == j - rank) {
        var k :| 0 <= k < |dims| && dims[k] == d;
        assert axes[k] == j;
      }
    }
  }

  predicate ReduceArgs(x: seq<real>, xDims: seq<nat>, dims: seq<int>, reduceAll: bool, size: nat) {
    && |x| == Product(xDims) && |xDims| > 0
    && (forall k :: 0 <= k < |dims| ==> InRank(dims[k], |xDims|))
    && size == Product(KeptDims(xDims, ReducedMask(dims, |xDims|, reduceAll)))
  }

  // ---------- sums ----------

  /** `SumRawKernel`. */
  method SumRawKernel(x: seq<real>, xDims: seq<nat>, dims: seq<int>, reduceAll: bool, out: array<real>)
    requires ReduceArgs(x, xDims, dims, reduceAll || |dims| == 0, out.Length)
    modifies out
    ensures var mask := seq(|xDims|, j => reduceAll || |dims| == 0 || j in dims || j - |xDims| in dims);
      var proj := Projector(xDims, mask);
      && out.Length == Product(KeptDims(xDims, mask))
      && forall o :: 0 <= o < out.Length ==> out[o] == FibreSum(x, proj, o)
  {
    ReducedAxis(dims, |xDims|, reduceAll || |dims| == 0);
    var axes := NormalizeAxes(dims, |xDims|, reduceAll || |dims| == 0);
    var op := (a: real, b: real) => a + b;
    ReduceLoop(x, xDims, axes, 0.0, op, out);
    ghost var proj := Projector(xDims, MaskOf(axes, |xDims|));
    forall o | 0 <= o < out.Length ensures out[o] == FibreSum(x, proj, o) {
      FoldIsSum(x, x, proj, op, |x|, o);
    }
  }

  /** What the sum kernel writes adds up to what it read. */
  lemma ReduceConserves(x: seq<real>, dims: seq<nat>, mask: Mask)
    requires |x| == Product(dims) && |mask| == |dims|
    ensures Sum(Product(KeptDims(dims, mask)), FibreSums(x, Projector(dims, mask))) == Sum(|x|, Cells(x))
  {
    forall i: nat | i < |x| ensures Projector(dims, mask)(i) < Product(KeptDims(dims, mask)) {
      ProjectionInRange(dims, mask, i);
    }
    SumConserves(x, Projector(dims, mask), Product(KeptDims(dims, mask)));
  }

  // ---------- the size of a fibre, and means ----------

  function ReducedExtents(dims: seq<nat>, mask: Mask): (e: seq<nat>)
    requires |mask| == |dims|
    ensures |e| == |dims|
  {
    seq(|dims|, j requires 0 <= j < |dims| => if mask[j] then dims[j] else 1)
  }

  /** The number of input cells over each output cell. */
  function FibreSize(dims: seq<nat>, mask: Mask): nat
    requires |mask| == |dims|
  {
    Product(ReducedExtents(dims, mask))
  }

  /** The projection splits off the leading axis. */
  lemma ProjectionStep(dims: seq<nat>, mask: Mask, a: nat, b: nat)
    requires |mask| == |dims| > 0 && Product(dims) > 0 && a < dims[0] && b < Product(dims[1..])
    ensures Projection(dims, mask, a * Product(dims[1..]) + b)
         == (if mask[0] then 0 else a * Product(KeptDims(dims[1..], mask[1..])))
            + Projection(dims[1..], mask[1..], b)
  {
    var p, digits := Product(dims[1..]), Decode(dims[1..], b);
    var i := a * p + b;
    DivModUnique(a, b, p);
    DecodeStep(dims, i, p, a, b);
    KeptStep(dims, mask, a, digits);
    ProjectionOfDigits(dims, mask, i, [a] + digits);
    ProjectionOfDigits(dims[1..], mask[1..], b, digits);
  }

  lemma ProjectionOfDigits(dims: seq<nat>, mask: Mask, i: nat, digits: seq<nat>)
    requires Product(dims) > 0 && |mask| == |dims| && digits == Decode(dims, i)
    ensures Projection(dims, mask, i) == Encode(KeptDims(dims, mask), Kept(digits, mask))
  {
  }

  lemma DecodeStep(dims: seq<nat>, i: nat, p: nat, a: nat, b: nat)
    requires dims != [] && Product(dims) > 0 && p == Product(dims[1..]) > 0 && i / p == a && i % p == b
    ensures Decode(dims, i) == [a] + Decode(dims[1..], b)
  {
  }

  lemma KeptStep(dims: seq<nat>, mask: Mask, a: nat, digits: seq<nat>)
    requires |mask| == |dims| == |digits| + 1
    ensures Encode(KeptDims(dims, mask), Kept([a] + digits, mask))
         == (if mask[0] then 0 else a * Product(KeptDims(dims[1..], mask[1..])))
            + Encode(KeptDims(dims[1..], mask[1..]), Kept(digits, mask[1..]))
  {
    var kept := Kept([a] + digits, mask);
    assert kept[1..] == Kept(digits, mask[1..]);
    assert KeptDims(dims, mask)[1..] == KeptDims(dims[1..], mask[1..]);
    EncodeStep(KeptDims(dims, mask), kept);
  }

  /** `proj` is the projection along the masked axes. */
  ghost predicate Computes(proj: nat -> nat, dims: seq<nat>, mask: Mask)
    requires |mask| == |dims|
  {
    forall i {:trigger Projection(dims, mask, i)} :: 0 <= i < Product(dims) ==> proj(i) == Projection(dims, mask, i)
  }

  lemma ComputesAt(proj: nat -> nat, dims: seq<nat>, mask: Mask, i: nat)
    requires |mask| == |dims| && Computes(proj, dims, mask) && i < Product(dims)
    ensures proj(i) == Projection(dims, mask, i) < Product(KeptDims(dims, mask))
  {
    ProjectionInRange(dims, mask, i);
  }

  /** Row `a` of a block projects into its own block of cells, unless the axis is reduced. */
  lemma ComputesRow(proj: nat -> nat, dims: seq<nat>, mask: Mask, a: nat, b: nat)
    requires |mask| == |dims| > 0 && Product(dims) > 0 && Computes(proj, dims, mask)
    requires a < dims[0] && b < Product(dims[1..])
    ensures proj(a * Product(dims[1..]) + b)
         == (if mask[0] then 0 else a * Product(KeptDims(dims[1..], mask[1..]))) + Projection(dims[1..], mask[1..], b)
  {
    InBlock(dims, a, b);
    ProjectionStep(dims, mask, a, b);
    ComputesAt(proj, dims, mask, a * Product(dims[1..]) + b);
  }

  lemma ComputesFirstRow(proj: nat -> nat, dims: seq<nat>, mask: Mask, b: nat)
    requires |mask| == |dims| > 0 && Product(dims) > 0 && Computes(proj, dims, mask) && b < Product(dims[1..])
    ensures proj(b) == Projection(dims[1..], mask[1..], b) < Product(KeptDims(dims[1..], mask[1..]))
  {
    ProjectionFirstRow(dims, mask, b);
    ComputesAt(proj, dims, mask, b);
    ProjectionInRange(dims[1..], mask[1..], b);
  }

  lemma ProjectionFirstRow(dims: seq<nat>, mask: Mask, b: nat)
    requires |mask| == |dims| > 0 && Product(dims) > 0 && b < Product(dims[1..])
    ensures b < Product(dims) && Projection(dims, mask, b) == Projection(dims[1..], mask[1..], b)
  {
    PositiveTail(dims, mask);
    InBlock(dims, 0, b);
    ProjectionStep(dims, mask, 0, b);
    ZeroRow(Product(dims[1..]), b);
    ZeroRow(Product(KeptDims(dims[1..], mask[1..])), Projection(dims[1..], mask[1..], b));
  }

  lemma ZeroRow(p: nat, b: nat)
    ensures 0 * p + b == b
  {
  }

  lemma ComputesRows(proj: nat -> nat, dims: seq<nat>, mask: Mask)
    requires |mask| == |dims| > 0 && Product(dims) > 0 && Computes(proj, dims, mask)
    ensures var p, q := Product(dims[1..]), Product(KeptDims(dims[1..], mask[1..]));
      && Computes(proj, dims[1..], mask[1..])
      && (forall b: nat :: b < p ==> proj(b) < q)
      && forall a: nat, b: nat :: a < dims[0] && b < p ==>
           RowProjection(proj, p)(a, b) == (if mask[0] then 0 else a * q) + proj(b)
  {
    var p := Product(dims[1..]);
    ProductPositive(dims);
    forall b: nat | b < p
      ensures proj(b) == Projection(dims[1..], mask[1..], b) < Product(KeptDims(dims[1..], mask[1..]))
    {
      ComputesFirstRow(proj, dims, mask, b);
    }
    forall a: nat, b: nat | a < dims[0] && b < p
      ensures RowProjection(proj, p)(a, b)
           == (if mask[0] then 0 else a * Product(KeptDims(dims[1..], mask[1..]))) + proj(b)
    {
      ComputesRow(proj, dims, mask, a, b);
      ComputesFirstRow(proj, dims, mask, b);
    }
  }

  /** Every fibre has the same size: the product of the reduced extents. */
  lemma {:induction false} CountFibre(dims: seq<nat>, mask: Mask, o: nat, proj: nat -> nat) returns (size: nat)
    requires |mask| == |dims| && Product(dims) > 0 && o < Product(KeptDims(dims, mask))
    requires Computes(proj, dims, mask)
    ensures size == FibreSize(dims, mask)
    ensures Sum(Product(dims), Indicator(proj, o)) == size as real
    decreases |dims|, 1
  {
    if dims == [] {
      size := CountPoint(dims, mask, o, proj);
    } else if mask[0] {
      size := CountReduced(dims, mask, o, proj);
    } else {
      size := CountKept(dims, mask, o, proj);
    }
  }

  lemma CountPoint(dims: seq<nat>, mask: Mask, o: nat, proj: nat -> nat) returns (size: nat)
    requires dims == [] && mask == [] && o < Product(KeptDims(dims, mask)) && Computes(proj, dims, mask)
    ensures size == FibreSize(dims, mask)
    ensures Sum(Product(dims), Indicator(proj, o)) == size as real
  {
    size := 1;
    ComputesAt(proj, dims, mask, 0);
    assert Sum(1, Indicator(proj, o)) == Sum(0, Indicator(proj, o)) + Indicator(proj, o)(0);
  }

  lemma {:induction false} CountReduced(dims: seq<nat>, mask: Mask, o: nat, proj: nat -> nat) returns (size: nat)
    requires |mask| == |dims| > 0 && mask[0] && Product(dims) > 0 && o < Product(KeptDims(dims, mask))
    requires Computes(proj, dims, mask)
    ensures size == FibreSize(dims, mask)
    ensures Sum(Product(dims), Indicator(proj, o)) == size as real
    decreases |dims|, 0
  {
    PositiveTail(dims, mask);
    TailReduced(dims, mask);
    ComputesRows(proj, dims, mask);
    var s := CountFibre(dims[1..], mask[1..], o, proj);
    CountEqualRows(dims[0], Product(dims[1..]), proj, o, s);
    size := dims[0] * s;
  }

  lemma {:induction false} CountKept(dims: seq<nat>, mask: Mask, o: nat, proj: nat -> nat) returns (size: nat)
    requires |mask| == |dims| > 0 && !mask[0] && Product(dims) > 0 && o < Product(KeptDims(dims, mask))
    requires Computes(proj, dims, mask)
    ensures size == FibreSize(dims, mask)
    ensures Sum(Product(dims), Indicator(proj, o)) == size as real
    decreases |dims|, 0
  {
    PositiveTail(dims, mask);
    TailKept(dims, mask);
    var q := Product(KeptDims(dims[1..], mask[1..]));
    var a0, r := SplitPosition(dims[0], q, o);
    ComputesRows(proj, dims, mask);
    size := CountFibre(dims[1..], mask[1..], r, proj);
    CountOneRow(dims[0], Product(dims[1..]), q, proj, a0, r);
  }

  lemma PositiveTail(dims: seq<nat>, mask: Mask)
    requires |mask| == |dims| > 0 && Product(dims) > 0
    ensures dims[0] > 0 && Product(dims[1..]) > 0 && Product(KeptDims(dims[1..], mask[1..])) > 0
  {
    ProductPositive(dims);
    ProductPositive(dims[1..]);
    ProductPositive(KeptDims(dims[1..], mask[1..]));
  }

  lemma TailReduced(dims: seq<nat>, mask: Mask)
    requires |mask| == |dims| > 0 && mask[0]
    ensures Product(KeptDims(dims, mask)) == Product(KeptDims(dims[1..], mask[1..]))
    ensures FibreSize(dims, mask) == dims[0] * FibreSize(dims[1..], mask[1..])
  {
    assert KeptDims(dims, mask)[1..] == KeptDims(dims[1..], mask[1..]);
    assert ReducedExtents(dims, mask)[1..] == ReducedExtents(dims[1..], mask[1..]);
  }

  lemma TailKept(dims: seq<nat>, mask: Mask)
    requires |mask| == |dims| > 0 && !mask[0]
    ensures Product(KeptDims(dims, mask)) == dims[0] * Product(KeptDims(dims[1..], mask[1..]))
    ensures FibreSize(dims, mask) == FibreSize(dims[1..], mask[1..])
  {
    assert KeptDims(dims, mask)[1..] == KeptDims(dims[1..], mask[1..]);
    assert ReducedExtents(dims, mask)[1..] == ReducedExtents(dims[1..], mask[1..]);
  }

  // ---------- means ----------

  /** `reduce_numel`: the product of the extents of the axes as listed, repeats included. */
  function ListedSize(dims: seq<nat>, axes: seq<nat>): nat
    requires ValidAxes(axes, |dims|)
  {
    if axes == [] then 1 else ListedSize(dims, axes[..|axes| - 1]) * dims[axes[|axes| - 1]]
  }

  method ReduceNumel(dims: seq<nat>, axes: seq<nat>) returns (reduceNumel: nat)
    requires ValidAxes(axes, |dims|)
    ensures reduceNumel == ListedSize(dims, axes)
  {
    reduceNumel := 1;
    assert axes[..|axes|] == axes;
    for k := 0 to |axes|
      invariant reduceNumel == ListedSize(dims, axes[..k])
    {
      assert axes[..k + 1][..k] == axes[..k];
      reduceNumel := reduceNumel * dims[axes[k]];
    }
  }

  lemma {:induction false} ListedPositive(dims: seq<nat>, axes: seq<nat>)
    requires ValidAxes(axes, |dims|) && Product(dims) > 0
    ensures ListedSize(dims, axes) > 0
  {
    ProductPositive(dims);
    if axes != [] {
      ListedPositive(dims, axes[..|axes| - 1]);
    }
  }

  /** `MeanRawKernel`; an empty list of axes reduces nothing here. */
  method MeanRawKernel(x: seq<real>, xDims: seq<nat>, dims: seq<int>, reduceAll: bool, out: array<real>)
    requires ReduceArgs(x, xDims, dims, reduceAll, out.Length)
    modifies out
    ensures var mask := seq(|xDims|, j => reduceAll || j in dims || j - |xDims| in dims);
      var axes := if reduceAll then seq(|xDims|, j => j) else
        seq<nat>(|dims|, k requires 0 <= k < |dims| => if dims[k] < 0 then dims[k] + |xDims| else dims[k]);
      && out.Length == Product(KeptDims(xDims, mask))
      && (|x| > 0 ==> MeanOutput(x, Projector(xDims, mask), ListedSize(xDims, axes), out[..]))
    ensures |x| == 0 ==> forall o :: 0 <= o < out.Length ==> out[o] == 0.0
  {
    ReducedAxis(dims, |xDims|, reduceAll);
    CanonicalMeans(dims, |xDims|);
    var axes := NormalizeAxes(dims, |xDims|, reduceAll);
    var reduceNumel := ReduceNumel(xDims, axes);
    if |x| > 0 { ListedPositive(xDims, axes); }
    if reduceNumel == 0 {
      ReduceLoop(x, xDims, axes, 0.0, (a: real, _: real) => a, out);
    } else {
      MeanFold(x, xDims, axes, reduceNumel, out);
    }
  }

  /** Each output times the divisor is the sum over its fibre. */
  ghost predicate MeanOutput(x: seq<real>, proj: nat -> nat, divisor: nat, out: seq<real>) {
    forall o :: 0 <= o < |out| ==> IsQuotient(out[o], FibreSum(x, proj, o), divisor)
  }

  /** The loop of `MeanRawKernel` with a divisor other than zero. */
  method MeanFold(x: seq<real>, xDims: seq<nat>, axes: seq<nat>, reduceNumel: nat, out: array<real>)
    requires |x| == Product(xDims) && |xDims| > 0 && ValidAxes(axes, |xDims|)
    requires reduceNumel > 0
    requires out.Length == Product(KeptDims(xDims, MaskOf(axes, |xDims|)))
    modifies out
    ensures MeanOutput(x, Projector(xDims, MaskOf(axes, |xDims|)), reduceNumel, out[..])
  {
    var c := reduceNumel as real;
    ReduceLoop(x, xDims, axes, 0.0, AddQuotient(c), out);
    QuotientFolded(x, Projector(xDims, MaskOf(axes, |xDims|)), c, out[..]);
  }

  /** No axis of extent other than one is listed twice. */
  predicate RepeatsHarmless(dims: seq<nat>, axes: seq<nat>)
    requires ValidAxes(axes, |dims|)
  {
    forall j, k :: 0 <= j < k < |axes| && axes[j] == axes[k] ==> dims[axes[k]] == 1
  }

  lemma {:induction false} ProductUpdate(a: seq<nat>, j: nat, v: nat)
    requires j < |a| && a[j] == 1
    ensures Product(a[j := v]) == Product(a) * v
  {
    if j == 0 {
      assert a[j := v][1..] == a[1..];
    } else {
      assert a[j := v][1..] == a[1..][j - 1 := v];
      ProductUpdate(a[1..], j - 1, v);
      MulAssoc(a[0], Product(a[1..]), v);
    }
  }

  lemma FibreSizeNext(dims: seq<nat>, axes: seq<nat>)
    requires axes != [] && ValidAxes(axes, |dims|)
    ensures var k := |axes| - 1;
      FibreSize(dims, MaskOf(axes, |dims|))
      == FibreSize(dims, MaskOf(axes[..k], |dims|)) * (if axes[k] in axes[..k] then 1 else dims[axes[k]])
  {
    var k := |axes| - 1;
    var before, after := ReducedExtents(dims, MaskOf(axes[..k], |dims|)), ReducedExtents(dims, MaskOf(axes, |dims|));
    if axes[k] in axes[..k] {
      assert after == before;
    } else {
      assert after == before[axes[k] := dims[axes[k]]];
      ProductUpdate(before, axes[k], dims[axes[k]]);
    }
  }

  /** The divisor is the fibre's size exactly when no repeated axis matters. */
  lemma {:induction false} ListedIsFibreSize(dims: seq<nat>, axes: seq<nat>)
    requires ValidAxes(axes, |dims|) && Product(dims) > 0
    ensures 0 < FibreSize(dims, MaskOf(axes, |dims|)) <= ListedSize(dims, axes)
    ensures ListedSize(dims, axes) == FibreSize(dims, MaskOf(axes, |dims|)) <==> RepeatsHarmless(dims, axes)
  {
    ProductPositive(dims);
    if axes == [] {
      ProductPositive(ReducedExtents(dims, MaskOf(axes, |dims|)));
      AllOnes(ReducedExtents(dims, MaskOf(axes, |dims|)));
    } else {
      var k := |axes| - 1;
      var d := dims[axes[k]];
      ListedIsFibreSize(dims, axes[..k]);
      FibreSizeNext(dims, axes);
      RepeatsNext(dims, axes);
      ScaleCompare(ListedSize(dims, axes[..k]), FibreSize(dims, MaskOf(axes[..k], |dims|)), d);
    }
  }

  lemma {:induction false} AllOnes(a: seq<nat>)
    requires forall j :: 0 <= j < |a| ==> a[j] == 1
    ensures Product(a) == 1
  {
    if a != [] {
      AllOnes(a[1..]);
    }
  }

  lemma RepeatsNext(dims: seq<nat>, axes: seq<nat>)
    requires axes != [] && ValidAxes(axes, |dims|)
    ensures var k := |axes| - 1;
      RepeatsHarmless(dims, axes) <==>
        RepeatsHarmless(dims, axes[..k]) && (axes[k] in axes[..k] ==> dims[axes[k]] == 1)
  {
    var k := |axes| - 1;
    if RepeatsHarmless(dims, axes) {
      assert forall i, j :: 0 <= i < j < k ==> axes[i] == axes[..k][i] && axes[j] == axes[..k][j];
    }
  }

  lemma ScaleCompare(a: nat, b: nat, d: nat)
    requires d > 0 && a >= b > 0
    ensures a * d >= b * d >= b
    ensures a * d == b * d <==> a == b
    ensures a * d == b <==> a == b && d == 1
  {
    MulMono(b, a, d);
    MulMono(1, d, b);
    if a > b { MulMono(b + 1, a, d); }
    if d > 1 { MulMono(2, d, a); }
  }

  /** Dividing each fibre's sum by the listed size gives its mean. */
  ghost predicate AlwaysTheMean(dims: seq<nat>, axes: seq<nat>)
    requires ValidAxes(axes, |dims|) && Product(dims) > 0
  {
    forall x: seq<real>, o: nat :: |x| == Product(dims) && o < Product(KeptDims(dims, MaskOf(axes, |dims|))) ==>
      MeanAt(FibreSum(x, Projector(dims, MaskOf(axes, |dims|)), o), ListedSize(dims, axes),
             FibreSize(dims, MaskOf(axes, |dims|)))
  }

  /** The number r with r * listed == sum is also the mean of `size` terms. */
  ghost predicate MeanAt(sum: real, listed: nat, size: nat) {
    forall r: real {:trigger IsQuotient(r, sum, listed)} :: IsQuotient(r, sum, listed) ==> IsQuotient(r, sum, size)
  }

  predicate IsQuotient(r: real, sum: real, n: nat) {
    r * n as real == sum
  }

  lemma OnesCount(dims: seq<nat>, mask: Mask, ones: seq<real>, o: nat)
    requires |mask| == |dims| && |ones| == Product(dims) > 0 && o < Product(KeptDims(dims, mask))
    requires forall i :: 0 <= i < |ones| ==> ones[i] == 1.0
    ensures FibreSum(ones, Projector(dims, mask), o) == FibreSize(dims, mask) as real
  {
    var proj := Projector(dims, mask);
    var size := CountFibre(dims, mask, o, proj);
    SumEq(|ones|, Selected(ones, proj, o), Indicator(proj, o));
  }

  /** The mean kernel's outputs are the means of their fibres, whatever the input, exactly then. */
  lemma MeanIff(dims: seq<nat>, axes: seq<nat>)
    requires ValidAxes(axes, |dims|) && Product(dims) > 0
    ensures AlwaysTheMean(dims, axes) <==> RepeatsHarmless(dims, axes)
  {
    ListedIsFibreSize(dims, axes);
    if !RepeatsHarmless(dims, axes) {
      var mask := MaskOf(axes, |dims|);
      var ones := seq(Product(dims), _ => 1.0);
      ProductPositive(dims);
      ProductPositive(KeptDims(dims, mask));
      OnesCount(dims, mask, ones, 0);
      NotTheMean(FibreSum(ones, Projector(dims, mask), 0), ListedSize(dims, axes), FibreSize(dims, mask));
    }
  }

  lemma NotTheMean(sum: real, listed: nat, size: nat)
    requires sum == size as real && 0 < size < listed
    ensures !MeanAt(sum, listed, size)
  {
    var r := sum / listed as real;
    assert IsQuotient(r, sum, listed);
    OnlyQuotient(r, size, listed);
  }

  lemma OnlyQuotient(r: real, size: nat, listed: nat)
    requires IsQuotient(r, size as real, listed) && 0 < size < listed
    ensures !IsQuotient(r, size as real, size)
  {
  }

  // ---------- extremes ----------

  /** `MaxRawKernel`, starting from the type's lowest value; an empty list of axes reduces nothing. */
  method MaxRawKernel(x: seq<real>, xDims: seq<nat>, dims: seq<int>, reduceAll: bool, lowest: real, out: array<real>)
    requires ReduceArgs(x, xDims, dims, reduceAll, out.Length)
    modifies out
    ensures var mask := seq(|xDims|, j => reduceAll || j in dims || j - |xDims| in dims);
      var proj := Projector(xDims, mask);
      && out.Length == Product(KeptDims(xDims, mask))
      && forall o :: 0 <= o < out.Length ==> Extreme((a, b) => a <= b, x, proj, lowest, |x|, o, out[o])
  {
    ReducedAxis(dims, |xDims|, reduceAll);
    var axes := NormalizeAxes(dims, |xDims|, reduceAll);
    var op := (a: real, b: real) => if b <= a then a else b;
    ReduceLoop(x, xDims, axes, lowest, op, out);
    ghost var proj, le := Projector(xDims, MaskOf(axes, |xDims|)), (a: real, b: real) => a <= b;
    forall o | 0 <= o < out.Length ensures Extreme(le, x, proj, lowest, |x|, o, out[o]) {
      FoldIsExtreme(le, op, x, proj, lowest, |x|, o);
    }
  }

  /** `MinRawKernel`, starting from the type's largest value; an empty list reduces all axes. */
  method MinRawKernel(x: seq<real>, xDims: seq<nat>, dims: seq<int>, reduceAll: bool, highest: real, out: array<real>)
    requires ReduceArgs(x, xDims, dims, reduceAll || |dims| == 0, out.Length)
    modifies out
    ensures var mask := seq(|xDims|, j => reduceAll || |dims| == 0 || j in dims || j - |xDims| in dims);
      var proj := Projector(xDims, mask);
      && out.Length == Product(KeptDims(xDims, mask))
      && forall o :: 0 <= o < out.Length ==> Extreme((a, b) => a >= b, x, proj, highest, |x|, o, out[o])
  {
    ReducedAxis(dims, |xDims|, reduceAll || |dims| == 0);
    var axes := NormalizeAxes(dims, |xDims|, reduceAll || |dims| == 0);
    var op := (a: real, b: real) => if b >= a then a else b;
    ReduceLoop(x, xDims, axes, highest, op, out);
    ghost var proj, ge := Projector(xDims, MaskOf(axes, |xDims|)), (a: real, b: real) => a >= b;
    forall o | 0 <= o < out.Length ensures Extreme(ge, x, proj, highest, |x|, o, out[o]) {
      FoldIsExtreme(ge, op, x, proj, highest, |x|, o);
    }
  }

  /** When the start value bounds the input, the result is attained in the fibre. */
  lemma ExtremeAttained(le: (real, real) -> bool, x: seq<real>, dims: seq<nat>, mask: Mask, init: real, o: nat, r: real)
    requires |x| == Product(dims) > 0 && |mask| == |dims| && o < Product(KeptDims(dims, mask))
    requires forall a, b :: le(a, b) && le(b, a) ==> a == b
    requires forall i :: 0 <= i < |x| ==> le(init, x[i])
    requires Extreme(le, x, Projector(dims, mask), init, |x|, o, r)
    ensures exists i: nat :: i < |x| && Projection(dims, mask, i) == o && x[i] == r
  {
    if r == init {
      var i := ProjectionOnto(dims, mask, o);
      assert Projector(dims, mask)(i) == o;
      assert le(init, x[i]) && le(x[i], r);
    } else {
      var i: nat :| i < |x| && Projector(dims, mask)(i) == o && x[i] == r;
      assert Projection(dims, mask, i) == o;
    }
  }
}
