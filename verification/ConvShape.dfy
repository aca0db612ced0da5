/**
  Output shape inference of the convolution with bias: padding attributes brought to two per axis,
  the SAME and VALID algorithms, and the extent of every output axis.
 */
module ConvShape {
  import opened Indexing

  datatype Algorithm = SAME | VALID | EXPLICIT

  datatype PaddingResult = Padding(paddings: seq<int>, dilation: seq<int>) | PaddingError

  // ---------- paddings ----------

  /** Every padding twice. */
  function Doubled(p: seq<int>): (q: seq<int>)
    ensures |q| == 2 * |p|
    ensures forall i :: 0 <= i < |p| ==> q[2 * i] == p[i] && q[2 * i + 1] == p[i]
  {
    if p == [] then [] else Doubled(p[..|p| - 1]) + [p[|p| - 1], p[|p| - 1]]
  }

  /** The output extent that SAME aims for. */
  function SameSize(d: int, stride: int): int
    requires stride > 0
  {
    TruncDiv(d + stride - 1, stride)
  }

  /** The padding SAME distributes over the two sides. */
  function SamePadding(d: int, stride: int, k: int): (p: nat)
    requires stride > 0
  {
    Max((SameSize(d, stride) - 1) * stride + k - d, 0)
  }

  /** The paddings of all axes under SAME: half before, the rest after. */
  predicate SamePaddings(p: seq<int>, dataDims: seq<int>, strides: seq<int>, ksize: seq<int>)
    requires |strides| == |dataDims| == |ksize| && AllPositive(strides)
  {
    |p| == 2 * |dataDims|
    && forall i :: 0 <= i < |dataDims| ==>
         var sum := SamePadding(dataDims[i], strides[i], ksize[i]);
         p[2 * i] == sum / 2 && p[2 * i + 1] == sum - sum / 2
  }

  /** The loop that inserts a copy after each padding. */
  method DuplicatePaddings(paddings: seq<int>) returns (p: seq<int>)
    ensures p == Doubled(paddings)
  {
    p := paddings;
    for i := 0 to |paddings|
      invariant p == Doubled(paddings[..i]) + paddings[i..]
    {
      InsertCopy(paddings, i);
      var copyPad := p[2 * i];
      p := p[..2 * i + 1] + [copyPad] + p[2 * i + 1..];
    }
    assert paddings[..|paddings|] == paddings;
  }

  lemma InsertCopy(paddings: seq<int>, i: nat)
    requires i < |paddings|
    ensures var p := Doubled(paddings[..i]) + paddings[i..];
      p[..2 * i + 1] + [p[2 * i]] + p[2 * i + 1..] == Doubled(paddings[..i + 1]) + paddings[i + 1..]
  {
    var done, x := Doubled(paddings[..i]), paddings[i];
    var p := done + paddings[i..];
    assert paddings[..i + 1][..i] == paddings[..i];
    assert p[..2 * i + 1] == done + [x] && p[2 * i + 1..] == paddings[i + 1..];
    assert Doubled(paddings[..i + 1]) == done + [x, x];
  }

  /** `UpdatePaddingAndDilation`. */
  method UpdatePaddingAndDilation(paddings: seq<int>, dilation: seq<int>, algorithm: Algorithm,
                                  dataDims: seq<int>, strides: seq<int>, ksize: seq<int>)
    returns (r: PaddingResult)
    requires |strides| == |ksize| == |dataDims| <= |dilation| && AllPositive(strides)
    ensures r.Padding? <==> |paddings| == |dataDims| || |paddings| == 2 * |dataDims|
    ensures r.Padding? ==> |r.paddings| == 2 * |dataDims| && |r.dilation| == |dilation|
    ensures r.Padding? && algorithm.EXPLICIT? ==>
      r.dilation == dilation && r.paddings == if |paddings| == |dataDims| then Doubled(paddings) else paddings
    ensures r.Padding? && algorithm.VALID? ==>
      r.dilation == dilation && forall i :: 0 <= i < |r.paddings| ==> r.paddings[i] == 0
    ensures r.Padding? && algorithm.SAME? ==>
      && SamePaddings(r.paddings, dataDims, strides, ksize)
      && forall i :: 0 <= i < |dilation| ==> r.dilation[i] == if i < |dataDims| then 1 else dilation[i]
  {
    var p, dil := paddings, dilation;
    if |paddings| == |dataDims| {
      p := DuplicatePaddings(paddings);
    } else if |dataDims| * 2 != |paddings| {
      return PaddingError;
    }
    if algorithm.SAME? {
      for i := 0 to |dataDims|
        invariant |p| == 2 * |dataDims| && |dil| == |dilation|
        invariant forall j :: 0 <= j < i ==>
          var sum := SamePadding(dataDims[j], strides[j], ksize[j]);
          p[2 * j] == sum / 2 && p[2 * j + 1] == sum - sum / 2
        invariant forall j :: 0 <= j < |dilation| ==> dil[j] == if j < i then 1 else dilation[j]
      {
        var outSize := TruncDiv(dataDims[i] + strides[i] - 1, strides[i]);
        var padSum := Max((outSize - 1) * strides[i] + ksize[i] - dataDims[i], 0);
        var pad0 := padSum / 2;
        var pad1 := padSum - pad0;
        p := p[i * 2 := pad0][i * 2 + 1 := pad1];
        dil := dil[i := 1];
      }
    } else if algorithm.VALID? {
      for i := 0 to |p|
        invariant |p| == 2 * |dataDims| && forall j :: 0 <= j < i ==> p[j] == 0
      {
        p := p[i := 0];
      }
    }
    return Padding(p, dil);
  }

  // ---------- one output axis ----------

  /** The extent of the kernel once dilated. */
  function DilatedKernel(dilation: int, k: int): int {
    dilation * (k - 1) + 1
  }

  /** The extent the inference gives an output axis. */
  function OutExtent(inDim: int, k: int, pad0: int, pad1: int, stride: int, dilation: int): int
    requires stride > 0
  {
    if inDim <= 0 || k <= 0 then -1
    else TruncDiv(inDim + pad0 + pad1 - DilatedKernel(dilation, k), stride) + 1
  }

  /** Placed `stride` apart, `n` windows fit in the padded extent. */
  predicate WindowsFit(padded: int, window: int, stride: int, n: nat) {
    n == 0 || (n - 1) * stride + window <= padded
  }

  /** `n` windows fit, and no more do. */
  ghost predicate IsWindowCount(padded: int, window: int, stride: int, n: int) {
    n >= 0 && forall m: nat :: WindowsFit(padded, window, stride, m) <==> m <= n
  }

  lemma QuotientBound(a: nat, s: nat, m: nat)
    requires s > 0
    ensures m <= a / s <==> m * s <= a
  {
    DivModExact(a, s);
    if m <= a / s { MulMono(m, a / s, s); } else { MulMono(a / s + 1, m, s); }
  }

  lemma CountWhenItFits(padded: int, window: int, stride: int)
    requires stride > 0 && padded >= window
    ensures IsWindowCount(padded, window, stride, TruncDiv(padded - window, stride) + 1)
  {
    forall m: nat ensures WindowsFit(padded, window, stride, m) <==> m <= TruncDiv(padded - window, stride) + 1 {
      if m > 0 { QuotientBound(padded - window, stride, m - 1); }
      QuotientBound(padded - window, stride, 0);
    }
  }

  lemma CountWhenNoneFits(padded: int, window: int, stride: int)
    requires stride > 0 && padded < window
    ensures forall n :: IsWindowCount(padded, window, stride, n) <==> n == 0
  {
    assert !WindowsFit(padded, window, stride, 1);
    forall m: nat | m > 0 ensures !WindowsFit(padded, window, stride, m) {
      MulMono(0, m - 1, stride);
    }
    assert WindowsFit(padded, window, stride, 0);
    assert IsWindowCount(padded, window, stride, 0);
    forall n | IsWindowCount(padded, window, stride, n) ensures n == 0 {
      assert WindowsFit(padded, window, stride, 1) <==> 1 <= n;
    }
  }

  /**
    The inferred extent is the number of windows that fit exactly when the padded input is at
    least the dilated kernel, or falls short of it by one stride or more but less than two.
   */
  lemma OutExtentIsWindowCount(inDim: int, k: int, pad0: int, pad1: int, stride: int, dilation: int)
    requires stride > 0 && inDim > 0 && k > 0
    ensures var padded, window := inDim + pad0 + pad1, dilation * (k - 1) + 1;
      IsWindowCount(padded, window, stride, OutExtent(inDim, k, pad0, pad1, stride, dilation))
      <==> padded >= window || stride <= window - padded < 2 * stride
  {
    var padded, window := inDim + pad0 + pad1, DilatedKernel(dilation, k);
    if padded >= window {
      CountWhenItFits(padded, window, stride);
    } else {
      CountWhenNoneFits(padded, window, stride);
      QuotientBound(window - padded, stride, 1);
      QuotientBound(window - padded, stride, 2);
    }
  }

  /** Just short of one window, truncation still reports one. */
  lemma PhantomWindow(inDim: int, k: int, pad0: int, pad1: int, stride: int, dilation: int)
    requires stride > 0 && inDim > 0 && k > 0
    requires var short := dilation * (k - 1) + 1 - (inDim + pad0 + pad1); 0 < short < stride
    ensures OutExtent(inDim, k, pad0, pad1, stride, dilation) == 1
    ensures !WindowsFit(inDim + pad0 + pad1, dilation * (k - 1) + 1, stride, 1)
  {
    QuotientBound(DilatedKernel(dilation, k) - (inDim + pad0 + pad1), stride, 1);
    QuotientBound(DilatedKernel(dilation, k) - (inDim + pad0 + pad1), stride, 0);
  }

  /** Under SAME the extent is the input's divided by the stride and rounded up, whatever the kernel. */
  lemma SameExtent(inDim: int, k: int, stride: int)
    requires inDim > 0 && k > 0 && stride > 0
    ensures var sum := SamePadding(inDim, stride, k);
      OutExtent(inDim, k, sum / 2, sum - sum / 2, stride, 1) == (inDim + stride - 1) / stride
    ensures var sum := SamePadding(inDim, stride, k); sum / 2 <= sum - sum / 2 <= sum / 2 + 1
  {
    var o := (inDim + stride - 1) / stride;
    var sum := SamePadding(inDim, stride, k);
    RoundedUp(inDim, stride, o);
    if sum == 0 {
      QuotientIs(inDim - k, stride, o - 1);
    } else {
      DivModUnique(o - 1, 0, stride);
    }
  }

  /** It is the least padding with which as many windows fit as the rounded-up quotient says. */
  lemma SameIsLeast(inDim: int, k: int, stride: int, q: nat)
    requires inDim > 0 && k > 0 && stride > 0
    ensures var o := (inDim + stride - 1) / stride;
      o > 0 && (WindowsFit(inDim + q, k, stride, o) <==> q >= SamePadding(inDim, stride, k))
  {
    RoundedUp(inDim, stride, (inDim + stride - 1) / stride);
  }

  lemma RoundedUp(n: nat, s: nat, q: int)
    requires n > 0 && s > 0 && q == (n + s - 1) / s
    ensures q > 0 && (q - 1) * s < n <= q * s
  {
    DivModExact(n + s - 1, s);
    QuotientBound(n + s - 1, s, 1);
  }

  lemma QuotientIs(a: int, s: nat, q: nat)
    requires s > 0 && q * s <= a < (q + 1) * s
    ensures a >= 0 && a / s == q
  {
    MulMono(0, q, s);
    DivModUnique(q, a - q * s, s);
  }

  // ---------- the whole shape ----------

  datatype InferResult = Inferred(shape: seq<int>) | InferError

  function IsChannelLast(dataFormat: string): bool {
    dataFormat == "NHWC" || dataFormat == "NDHWC"
  }

  /** The spatial extents. */
  function DataDims(xShape: seq<int>, channelLast: bool): seq<int>
    requires |xShape| >= 2
  {
    if channelLast then xShape[1..|xShape| - 1] else xShape[2..]
  }

  /** The attribute checks of `ConvBiasOpInferShape` before the paddings are looked at. */
  predicate ChecksPass(xShape: seq<int>, filterShape: seq<int>, channelLast: bool, groups: int, strides: seq<int>,
                       dilations: seq<int>)
    requires |xShape| >= 2 && groups != 0
  {
    && AllPositive(dilations) && xShape[0] != 0 && xShape[1] != 0
    && (|xShape| == 4 || |xShape| == 5) && |xShape| == |filterShape|
    && AllPositive(strides) && |xShape| == |strides| + 2
    && (if channelLast then xShape[|xShape| - 1] else xShape[1]) == filterShape[1] * groups
    && filterShape[0] % groups == 0
  }

  method AllAbove(s: seq<int>) returns (ok: bool)
    ensures ok <==> AllPositive(s)
  {
    for i := 0 to |s|
      invariant forall j :: 0 <= j < i ==> s[j] > 0
    {
      if !(s[i] > 0) { return false; }
    }
    return true;
  }

  method CheckAttributes(xShape: seq<int>, filterShape: seq<int>, channelLast: bool, groups: int, strides: seq<int>,
                         dilations: seq<int>)
    returns (ok: bool)
    requires |xShape| >= 2 && groups != 0
    ensures ok <==> ChecksPass(xShape, filterShape, channelLast, groups, strides, dilations)
  {
    var dilationsOk := AllAbove(dilations);
    if !dilationsOk { return false; }
    if xShape[0] == 0 || xShape[1] == 0 { return false; }
    if !(|xShape| == 4 || |xShape| == 5) { return false; }
    if |xShape| != |filterShape| { return false; }
    var stridesOk := AllAbove(strides);
    if !stridesOk { return false; }
    if |xShape| != |strides| + 2 { return false; }
    var inputChannels := if channelLast then xShape[|xShape| - 1] else xShape[1];
    if inputChannels != filterShape[1] * groups { return false; }
    if filterShape[0] % groups != 0 { return false; }
    return true;
  }

  /** The paddings and dilations the extents are computed from. */
  ghost predicate Attributes(paddings: seq<int>, dilations: seq<int>, algorithm: Algorithm, dataDims: seq<int>,
                             strides: seq<int>, ksize: seq<int>, p: seq<int>, dil: seq<int>)
    requires |strides| == |ksize| == |dataDims| <= |dilations| && AllPositive(strides)
  {
    && |p| == 2 * |dataDims| && |dil| == |dilations|
    && match algorithm
       case EXPLICIT => dil == dilations && p == if |paddings| == |dataDims| then Doubled(paddings) else paddings
       case VALID => dil == dilations && forall i :: 0 <= i < |p| ==> p[i] == 0
       case SAME => SamePaddings(p, dataDims, strides, ksize)
                    && forall i :: 0 <= i < |dil| ==> dil[i] == if i < |dataDims| then 1 else dilations[i]
  }

  /** The batch, the filters and the spatial extents, in the order of the data format. */
  function OutShape(batch: int, filters: int, extents: seq<int>, channelLast: bool): seq<int> {
    if channelLast then [batch] + extents + [filters] else [batch, filters] + extents
  }

  /** The extents of all spatial axes. */
  function OutExtents(dataDims: seq<int>, ksize: seq<int>, p: seq<int>, strides: seq<int>, dil: seq<int>): (e: seq<int>)
    requires |strides| == |ksize| == |dataDims| <= |dil| && |p| == 2 * |dataDims| && AllPositive(strides)
    ensures |e| == |dataDims|
  {
    seq(|dataDims|,
      i requires 0 <= i < |dataDims| => OutExtent(dataDims[i], ksize[i], p[2 * i], p[2 * i + 1], strides[i], dil[i]))
  }

  /**
    Unknown, or one window and as many more as strides fit before its last tap, `dilation * (k - 1)`
    past the first.
   */
  predicate IsExtent(e: int, d: int, k: int, pad0: int, pad1: int, stride: int, dilation: int) {
    if d <= 0 || k <= 0 then e == -1
    else stride > 0 && e == TruncDiv(d + pad0 + pad1 - (dilation * (k - 1) + 1), stride) + 1
  }

  /** The output axis by axis: the batch first, the filters last or second, and each spatial axis in its place. */
  predicate IsOutShape(xShape: seq<int>, filterShape: seq<int>, channelLast: bool, p: seq<int>, strides: seq<int>,
                       dil: seq<int>, shape: seq<int>)
    requires |xShape| == |filterShape| == |strides| + 2 <= |dil| + 2 && |p| == 2 * |strides|
  {
    var first := if channelLast then 1 else 2;
    && |shape| == |xShape|
    && shape[0] == xShape[0] && shape[if channelLast then |xShape| - 1 else 1] == filterShape[0]
    && forall i :: 0 <= i < |strides| ==>
      IsExtent(shape[first + i], xShape[first + i], filterShape[2 + i], p[2 * i], p[2 * i + 1], strides[i], dil[i])
  }

  lemma OutShapeMeans(xShape: seq<int>, filterShape: seq<int>, channelLast: bool, p: seq<int>, strides: seq<int>,
                      dil: seq<int>)
    requires |xShape| == |filterShape| == |strides| + 2 <= |dil| + 2 && |p| == 2 * |strides| && AllPositive(strides)
    ensures IsOutShape(xShape, filterShape, channelLast, p, strides, dil,
      OutShape(xShape[0], filterShape[0], OutExtents(DataDims(xShape, channelLast), filterShape[2..], p, strides, dil),
               channelLast))
  {
    var dataDims := DataDims(xShape, channelLast);
    var extents := OutExtents(dataDims, filterShape[2..], p, strides, dil);
    var first, shape := if channelLast then 1 else 2, OutShape(xShape[0], filterShape[0], extents, channelLast);
    forall i: nat | i < |strides|
      ensures IsExtent(shape[first + i], xShape[first + i], filterShape[2 + i], p[2 * i], p[2 * i + 1], strides[i],
        dil[i])
    {
      SpatialAxis(xShape, channelLast, i);
      ShapeAxis(xShape[0], filterShape[0], extents, channelLast, i);
      ExtentMeans(dataDims[i], filterShape[2 + i], p[2 * i], p[2 * i + 1], strides[i], dil[i]);
    }
  }

  lemma ExtentMeans(d: int, k: int, pad0: int, pad1: int, stride: int, dilation: int)
    requires stride > 0
    ensures IsExtent(OutExtent(d, k, pad0, pad1, stride, dilation), d, k, pad0, pad1, stride, dilation)
  {
  }

  lemma SpatialAxis(xShape: seq<int>, channelLast: bool, i: nat)
    requires i + 2 < |xShape|
    ensures DataDims(xShape, channelLast)[i] == xShape[(if channelLast then 1 else 2) + i]
  {
  }

  lemma ShapeAxis(batch: int, filters: int, extents: seq<int>, channelLast: bool, i: nat)
    requires i < |extents|
    ensures OutShape(batch, filters, extents, channelLast)[(if channelLast then 1 else 2) + i] == extents[i]
  {
  }

  /** `ConvBiasOpInferShape`. */
  method ConvBiasOpInferShape(xShape: seq<int>, filterShape: seq<int>, dataFormat: string, groups: int,
                              algorithm: Algorithm, strides: seq<int>, paddings: seq<int>, dilations: seq<int>)
    returns (r: InferResult, ghost p: seq<int>, ghost dil: seq<int>)
    requires |xShape| >= 2 && groups != 0 && |dilations| + 2 >= |xShape|
    ensures r.Inferred? <==> (
      && (forall i :: 0 <= i < |dilations| ==> dilations[i] > 0) && (forall i :: 0 <= i < |strides| ==> strides[i] > 0)
      && xShape[0] != 0 && xShape[1] != 0 && 4 <= |xShape| <= 5
      && |filterShape| == |xShape| && |strides| == |xShape| - 2
      && xShape[if dataFormat == "NHWC" || dataFormat == "NDHWC" then |xShape| - 1 else 1] == filterShape[1] * groups
      && filterShape[0] % groups == 0
      && (|paddings| == |xShape| - 2 || |paddings| == 2 * (|xShape| - 2)))
    ensures r.Inferred? ==>
      var channelLast := dataFormat == "NHWC" || dataFormat == "NDHWC";
      var dataDims := if channelLast then xShape[1..|xShape| - 1] else xShape[2..];
      && Attributes(paddings, dilations, algorithm, dataDims, strides, filterShape[2..], p, dil)
      && IsOutShape(xShape, filterShape, channelLast, p, strides, dil, r.shape)
  {
    p, dil := [], [];
    var channelLast := IsChannelLast(dataFormat);
    var ok := CheckAttributes(xShape, filterShape, channelLast, groups, strides, dilations);
    if !ok { return InferError, p, dil; }
    var inDataDims := DataDims(xShape, channelLast);
    r, p, dil := InferChecked(xShape[0], filterShape[0], inDataDims, filterShape[2..], channelLast, algorithm,
                              strides, paddings, dilations);
    if r.Inferred? { OutShapeMeans(xShape, filterShape, channelLast, p, strides, dil); }
  }

  /** The inference once the attributes have been checked. */
  method InferChecked(batch: int, filters: int, inDataDims: seq<int>, ksize: seq<int>, channelLast: bool,
                      algorithm: Algorithm, strides: seq<int>, paddings: seq<int>, dilations: seq<int>)
    returns (r: InferResult, ghost p: seq<int>, ghost dil: seq<int>)
    requires |strides| == |ksize| == |inDataDims| <= |dilations| && AllPositive(strides)
    ensures r.Inferred? <==> |paddings| == |inDataDims| || |paddings| == 2 * |inDataDims|
    ensures r.Inferred? ==> Attributes(paddings, dilations, algorithm, inDataDims, strides, ksize, p, dil)
    ensures r.Inferred? ==>
      r.shape == OutShape(batch, filters, OutExtents(inDataDims, ksize, p, strides, dil), channelLast)
  {
    p, dil := [], [];
    var u := UpdatePaddingAndDilation(paddings, dilations, algorithm, inDataDims, strides, ksize);
    if u.PaddingError? { return InferError, p, dil; }
    p, dil := u.paddings, u.dilation;
    var outputShape := [batch];
    if !channelLast {
      outputShape := outputShape + [filters];
    }
    var extents := SpatialExtents(inDataDims, ksize, u.paddings, strides, u.dilation);
    outputShape := outputShape + extents;
    if channelLast {
      outputShape := outputShape + [filters];
    }
    r := Inferred(outputShape);
  }

  /** The loop over the spatial axes. */
  method SpatialExtents(dataDims: seq<int>, ksize: seq<int>, p: seq<int>, strides: seq<int>, dil: seq<int>)
    returns (extents: seq<int>)
    requires |strides| == |ksize| == |dataDims| <= |dil| && |p| == 2 * |dataDims| && AllPositive(strides)
    ensures extents == OutExtents(dataDims, ksize, p, strides, dil)
  {
    extents := [];
    for i := 0 to |dataDims|
      invariant |extents| == i
      invariant forall j :: 0 <= j < i ==> extents[j] == OutExtents(dataDims, ksize, p, strides, dil)[j]
    {
      if dataDims[i] <= 0 || ksize[i] <= 0 {
        extents := extents + [-1];
      } else {
        var dkernel := dil[i] * (ksize[i] - 1) + 1;
        var outputSize := TruncDiv(dataDims[i] + p[2 * i] + p[2 * i + 1] - dkernel, strides[i]) + 1;
        extents := extents + [outputSize];
      }
    }
  }

  /** With SAME, every known spatial axis comes out as the input's extent over the stride, rounded up. */
  lemma SameExtents(dataDims: seq<int>, ksize: seq<int>, p: seq<int>, strides: seq<int>, dil: seq<int>, i: nat)
    requires |strides| == |ksize| == |dataDims| <= |dil| && AllPositive(strides) && i < |dataDims|
    requires SamePaddings(p, dataDims, strides, ksize) && dil[i] == 1
    requires dataDims[i] > 0 && ksize[i] > 0
    ensures OutExtents(dataDims, ksize, p, strides, dil)[i] == (dataDims[i] + strides[i] - 1) / strides[i]
    ensures p[2 * i] <= p[2 * i + 1] <= p[2 * i] + 1
  {
    SameExtent(dataDims[i], ksize[i], strides[i]);
  }
}
