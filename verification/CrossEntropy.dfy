/**
  Cross entropy of a distribution along an axis, with soft labels or class indices, and its
  gradient with respect to the probabilities or, fused with softmax, to the logits.
 */
module CrossEntropy {
  import opened Indexing
  import opened Lines
  import opened Sums
  import opened Softmax

  // ---------- losses of one line ----------

  /** The values the logarithm of a probability takes. */
  datatype LogValue = NegInfinity | Finite(value: real)

  function Log(ln: real -> real, p: real): LogValue
    requires p >= 0.0
  {
    if p == 0.0 then NegInfinity else Finite(ln(p))
  }

  /** Stands for infinity in the loss. */
  const APPROX_INFINITY: real := 100000000000000000000.0

  function TolerableValue(x: LogValue): real {
    match x
    case NegInfinity => -APPROX_INFINITY
    case Finite(v) => v
  }

  predicate NonNegative(p: seq<real>) {
    forall j :: 0 <= j < |p| ==> p[j] >= 0.0
  }

  ghost function LossTerms(ln: real -> real, labels: seq<real>, p: seq<real>): nat -> real
    requires |labels| == |p| && NonNegative(p)
  {
    (j: nat) => if j < |p| then labels[j] * TolerableValue(Log(ln, p[j])) else 0.0
  }

  ghost function SoftLoss(ln: real -> real, labels: seq<real>, p: seq<real>): real
    requires |labels| == |p| && NonNegative(p)
  {
    -Sum(|p|, LossTerms(ln, labels, p))
  }

  /** A label is a class index or the index to ignore. */
  predicate LabelFits(lbl: int, ignoreIndex: int, n: nat) {
    lbl == ignoreIndex || 0 <= lbl < n
  }

  function HardLoss(ln: real -> real, lbl: int, ignoreIndex: int, p: seq<real>): real
    requires LabelFits(lbl, ignoreIndex, |p|) && NonNegative(p)
  {
    if lbl == ignoreIndex then 0.0 else -TolerableValue(Log(ln, p[lbl]))
  }

  function OneHot(n: nat, lbl: int): (labels: seq<real>)
    ensures |labels| == n && forall j :: 0 <= j < n ==> labels[j] == if j == lbl then 1.0 else 0.0
  {
    seq(n, j => if j == lbl then 1.0 else 0.0)
  }

  lemma OneHotTotal(n: nat, lbl: nat)
    requires lbl < n
    ensures Total(OneHot(n, lbl)) == 1.0
  {
    SumSingle(n, Cells(OneHot(n, lbl)), lbl);
  }

  /** A class index costs what its one-hot encoding costs; this needs the logarithm of zero to be finite. */
  lemma HardIsSoftLoss(ln: real -> real, lbl: int, ignoreIndex: int, p: seq<real>)
    requires LabelFits(lbl, ignoreIndex, |p|) && lbl != ignoreIndex && NonNegative(p)
    ensures HardLoss(ln, lbl, ignoreIndex, p) == SoftLoss(ln, OneHot(|p|, lbl), p)
  {
    SumSingle(|p|, LossTerms(ln, OneHot(|p|, lbl), p), lbl);
  }

  /** A positive probability costs minus its logarithm, and a zero one the constant; an ignored line costs nothing. */
  predicate HardCost(ln: real -> real, lbl: int, ignoreIndex: int, p: seq<real>, cost: real) {
    if lbl == ignoreIndex then cost == 0.0
    else 0 <= lbl < |p| && cost == if p[lbl] > 0.0 then -ln(p[lbl]) else 100000000000000000000.0
  }

  /** Soft labels weigh these costs. */
  ghost predicate SoftCost(ln: real -> real, labels: seq<real>, p: seq<real>, cost: real)
    requires |labels| == |p|
  {
    cost == -Sum(|p|, (j: nat) =>
      if j >= |p| then 0.0 else labels[j] * if p[j] > 0.0 then ln(p[j]) else -100000000000000000000.0)
  }

  lemma HardLossMeans(ln: real -> real, lbl: int, ignoreIndex: int, p: seq<real>)
    requires LabelFits(lbl, ignoreIndex, |p|) && NonNegative(p)
    ensures HardCost(ln, lbl, ignoreIndex, p, HardLoss(ln, lbl, ignoreIndex, p))
  {
  }

  lemma SoftLossMeans(ln: real -> real, labels: seq<real>, p: seq<real>)
    requires |labels| == |p| && NonNegative(p)
    ensures SoftCost(ln, labels, p, SoftLoss(ln, labels, p))
  {
    var f := (j: nat) =>
      if j >= |p| then 0.0 else labels[j] * if p[j] > 0.0 then ln(p[j]) else -100000000000000000000.0;
    SumEq(|p|, LossTerms(ln, labels, p), f);
  }

  /** With an increasing logarithm, the less probable the class the greater the loss. */
  lemma LossOrder(ln: real -> real, lbl: nat, ignoreIndex: int, p: seq<real>, q: seq<real>)
    requires forall a, b :: 0.0 < a < b ==> ln(a) < ln(b)
    requires lbl < |p| == |q| && lbl != ignoreIndex && NonNegative(p) && NonNegative(q) && 0.0 < p[lbl] < q[lbl]
    ensures HardLoss(ln, lbl, ignoreIndex, p) > HardLoss(ln, lbl, ignoreIndex, q)
  {
    assert ln(p[lbl]) < ln(q[lbl]);
  }

  // ---------- gradients of one line ----------

  /** Soft labels, with respect to the probabilities. */
  function PlainGrad(labels: seq<real>, p: seq<real>, og: real): (x: seq<real>)
    requires |labels| == |p| && forall j :: 0 <= j < |p| ==> p[j] != 0.0
    ensures |x| == |p|
  {
    seq(|p|, j requires 0 <= j < |p| => PlainTerm(labels[j], p[j], og))
  }

  function PlainTerm(y: real, p: real, og: real): real
    requires p != 0.0
  {
    -y / p * og
  }

  /** Soft labels, with respect to the logits. */
  function FusedGrad(labels: seq<real>, p: seq<real>, og: real): (x: seq<real>)
    requires |labels| == |p|
    ensures |x| == |p|
  {
    seq(|p|, j requires 0 <= j < |p| => FusedTerm(labels[j], p[j], og))
  }

  function FusedTerm(y: real, p: real, og: real): real {
    og * (p - y)
  }

  function Zeros(n: nat): (x: seq<real>)
    ensures |x| == n && forall j :: 0 <= j < n ==> x[j] == 0.0
  {
    seq(n, _ => 0.0)
  }

  /** The gradient at the labelled class itself. */
  function UnitTerm(p: real, og: real): real
    requires p != 0.0
  {
    -1.0 / p * og
  }

  /** A class index, with respect to the probabilities. */
  function HardPlainGrad(lbl: int, ignoreIndex: int, p: seq<real>, og: real): (x: seq<real>)
    requires LabelFits(lbl, ignoreIndex, |p|) && (lbl != ignoreIndex ==> p[lbl] != 0.0)
    ensures |x| == |p|
  {
    if lbl == ignoreIndex then Zeros(|p|) else Zeros(|p|)[lbl := UnitTerm(p[lbl], og)]
  }

  /** A class index, with respect to the logits. */
  function HardFusedGrad(lbl: int, ignoreIndex: int, p: seq<real>, og: real): (x: seq<real>)
    requires LabelFits(lbl, ignoreIndex, |p|)
    ensures |x| == |p|
  {
    if lbl == ignoreIndex then Zeros(|p|) else Scaled(p, og)[lbl := ScaleTerm(og, p[lbl]) - og]
  }

  function ScaleTerm(og: real, p: real): real {
    og * p
  }

  function Scaled(p: seq<real>, og: real): (x: seq<real>)
    ensures |x| == |p|
  {
    seq(|p|, j requires 0 <= j < |p| => ScaleTerm(og, p[j]))
  }

  /** With respect to the logits the gradient of a class index is that of its one-hot encoding, for any p. */
  lemma HardIsSoftFused(lbl: int, ignoreIndex: int, p: seq<real>, og: real)
    requires LabelFits(lbl, ignoreIndex, |p|) && lbl != ignoreIndex
    ensures HardFusedGrad(lbl, ignoreIndex, p, og) == FusedGrad(OneHot(|p|, lbl), p, og)
  {
    forall j | 0 <= j < |p|
      ensures HardFusedGrad(lbl, ignoreIndex, p, og)[j] == FusedTerm(OneHot(|p|, lbl)[j], p[j], og)
    {
      UnitFused(p[j], og);
    }
  }

  lemma UnitFused(p: real, og: real)
    ensures FusedTerm(0.0, p, og) == og * p && FusedTerm(1.0, p, og) == og * p - og
  {
  }

  /** So is the gradient with respect to the probabilities, wherever soft labels can be divided by them. */
  lemma HardIsSoftPlain(lbl: int, ignoreIndex: int, p: seq<real>, og: real)
    requires LabelFits(lbl, ignoreIndex, |p|) && lbl != ignoreIndex && forall j :: 0 <= j < |p| ==> p[j] != 0.0
    ensures HardPlainGrad(lbl, ignoreIndex, p, og) == PlainGrad(OneHot(|p|, lbl), p, og)
  {
    forall j | 0 <= j < |p|
      ensures HardPlainGrad(lbl, ignoreIndex, p, og)[j] == PlainTerm(OneHot(|p|, lbl)[j], p[j], og)
    {
      UnitPlain(p[j], og);
    }
  }

  lemma UnitPlain(p: real, og: real)
    requires p != 0.0
    ensures PlainTerm(0.0, p, og) == 0.0 && PlainTerm(1.0, p, og) == UnitTerm(p, og)
  {
    assert -0.0 / p == 0.0;
  }

  /** The gradient with respect to the logits sums to the loss gradient times the difference of the totals. */
  lemma FusedGradTotal(labels: seq<real>, p: seq<real>, og: real)
    requires |labels| == |p|
    ensures Total(FusedGrad(labels, p, og)) == og * (Total(p) - Total(labels))
    ensures Total(p) == Total(labels) ==> Total(FusedGrad(labels, p, og)) == 0.0
  {
    FusedTerms(labels, p, og);
    SumDifference(|p|, Cells(FusedGrad(labels, p, og)), Cells(Scaled(p, og)), Cells(labels), og);
    ScaledTotal(p, og);
    ScaleDifference(og, Total(p), Total(labels));
  }

  lemma FusedTerms(labels: seq<real>, p: seq<real>, og: real)
    requires |labels| == |p|
    ensures Differs(|p|, Cells(FusedGrad(labels, p, og)), Cells(Scaled(p, og)), Cells(labels), og)
  {
    forall j: nat | j < |p|
      ensures DiffersAt(Cells(FusedGrad(labels, p, og)), Cells(Scaled(p, og)), Cells(labels), og, j)
    {
      ScaleDifference(og, p[j], labels[j]);
    }
  }

  lemma ScaleDifference(c: real, a: real, b: real)
    ensures c * a - c * b == c * (a - b)
  {
  }

  lemma ScaledTotal(p: seq<real>, og: real)
    ensures Total(Scaled(p, og)) == og * Total(p)
  {
    forall j: nat | j < |p| ensures ScalesAt(Cells(p), Cells(Scaled(p, og)), og, j) {
      CommuteReal(og, p[j]);
    }
    SumScaled(|p|, Cells(p), Cells(Scaled(p, og)), og);
    CommuteReal(og, Total(p));
  }

  /**
    With a class index it sums to zero exactly when the probabilities sum to one or nothing flows
    back; an ignored line is all zeros.
   */
  lemma HardFusedTotal(lbl: int, ignoreIndex: int, p: seq<real>, og: real)
    requires LabelFits(lbl, ignoreIndex, |p|)
    ensures lbl == ignoreIndex ==> Total(HardFusedGrad(lbl, ignoreIndex, p, og)) == 0.0
    ensures lbl != ignoreIndex ==>
      (Total(HardFusedGrad(lbl, ignoreIndex, p, og)) == 0.0 <==> og == 0.0 || Total(p) == 1.0)
  {
    if lbl == ignoreIndex {
      SumZero(|p|, Cells(Zeros(|p|)));
    } else {
      OneHotTotal(|p|, lbl);
      HardIsSoftFused(lbl, ignoreIndex, p, og);
      FusedGradTotal(OneHot(|p|, lbl), p, og);
      ZeroProduct(og, Total(p) - 1.0);
    }
  }

  lemma ZeroProduct(a: real, b: real)
    ensures a * b == 0.0 <==> a == 0.0 || b == 0.0
  {
  }

  /** On a line the softmax kernel wrote, then, it always sums to zero. */
  lemma HardFusedOfSoftmax(e: real -> real, l: seq<real>, lbl: int, ignoreIndex: int, og: real)
    requires ExpLike(e) && |l| > 0 && LabelFits(lbl, ignoreIndex, |l|)
    ensures Total(HardFusedGrad(lbl, ignoreIndex, SoftmaxLine(e, l), og)) == 0.0
  {
    SoftmaxIsDistribution(e, l);
    HardFusedTotal(lbl, ignoreIndex, SoftmaxLine(e, l), og);
  }

  // ---------- the chain rule ----------

  /**
    Pushing the gradient for the probabilities through softmax gives the fused one exactly when the
    labels sum to one, or nothing flows back.
   */
  lemma FusedIsComposed(labels: seq<real>, p: seq<real>, og: real)
    requires |labels| == |p| > 0 && forall j :: 0 <= j < |p| ==> p[j] != 0.0
    ensures GradLine(p, PlainGrad(labels, p, og)) == FusedGrad(labels, p, og) <==> og == 0.0 || Total(labels) == 1.0
  {
    var g := PlainGrad(labels, p, og);
    var t := Total(labels);
    PlainDot(labels, p, og);
    forall j | 0 <= j < |p|
      ensures GradLine(p, g)[j] - FusedGrad(labels, p, og)[j] == og * (t - 1.0) * p[j]
    {
      ComposedTerm(labels[j], p[j], og, LineDot(p, g), t);
    }
    if GradLine(p, g) == FusedGrad(labels, p, og) {
      assert og * (t - 1.0) * p[0] == 0.0;
      ZeroFactors(og, t - 1.0, p[0]);
    } else {
      var j :| 0 <= j < |p| && GradLine(p, g)[j] != FusedGrad(labels, p, og)[j];
      assert og * (t - 1.0) * p[j] != 0.0;
    }
  }

  lemma ZeroFactors(a: real, b: real, c: real)
    requires a * b * c == 0.0 && c != 0.0
    ensures a == 0.0 || b == 0.0
  {
  }

  /** What softmax's gradient subtracts is minus the loss gradient times the total of the labels. */
  lemma PlainDot(labels: seq<real>, p: seq<real>, og: real)
    requires |labels| == |p| && forall j :: 0 <= j < |p| ==> p[j] != 0.0
    ensures LineDot(p, PlainGrad(labels, p, og)) == Total(labels) * -og
  {
    var g, c := PlainGrad(labels, p, og), -og;
    forall j: nat | j < |p| ensures ScalesAt(Cells(labels), Times(Cells(p), Cells(g)), c, j) {
      CancelProbability(labels[j], p[j], og);
    }
    SumScaled(|p|, Cells(labels), Times(Cells(p), Cells(g)), c);
  }

  lemma CancelProbability(y: real, p: real, og: real)
    requires p != 0.0
    ensures p * PlainTerm(y, p, og) == y * -og
  {
    var q := -y / p;
    assert q * p == -y;
  }

  lemma ComposedTerm(y: real, p: real, og: real, d: real, t: real)
    requires p != 0.0 && d == t * -og
    ensures (PlainTerm(y, p, og) - d) * p - FusedTerm(y, p, og) == og * (t - 1.0) * p
  {
    CancelProbability(y, p, og);
    Regroup(PlainTerm(y, p, og), d, p, t, og);
  }

  lemma Regroup(a: real, d: real, p: real, t: real, og: real)
    requires d == t * -og
    ensures (a - d) * p == p * a + t * og * p
    ensures og * (t - 1.0) * p == t * og * p - og * p
  {
  }

  // ---------- the loss kernel ----------

  /** Soft labels for every cell, or a class index for every line. */
  datatype Labels = Soft(values: seq<real>) | Hard(classes: seq<int>)

  /** The buffers of `m` blocks of `n` layers of `r` cells that the kernels take. */
  ghost predicate Shaped(labels: Labels, prob: seq<real>, m: nat, n: nat, r: nat) {
    && |prob| == m * (n * r)
    && match labels case Soft(v) => |v| == m * (n * r) case Hard(cl) => |cl| == m * r
  }

  /** The kernel's check on one line; soft labels are not checked. */
  ghost predicate LineFits(labels: Labels, ignoreIndex: int, n: nat, c: nat)
    requires labels.Hard? ==> c < |labels.classes|
  {
    labels.Hard? ==> LabelFits(labels.classes[c], ignoreIndex, n)
  }

  lemma ColumnNonNegative(prob: seq<real>, m: nat, n: nat, r: nat, c: nat)
    requires |prob| == m * (n * r) && c < m * r && NonNegative(prob)
    ensures NonNegative(Column(prob, m, n, r, c))
  {
    forall j: nat | j < n ensures Column(prob, m, n, r, c)[j] >= 0.0 {
      CellHasCoordinates(m, n, r, c, j);
    }
  }

  ghost function LineLoss(labels: Labels, prob: seq<real>, m: nat, n: nat, r: nat, c: nat, ignoreIndex: int,
                          ln: real -> real): real
    requires Shaped(labels, prob, m, n, r) && c < m * r && NonNegative(prob) && LineFits(labels, ignoreIndex, n, c)
  {
    ColumnNonNegative(prob, m, n, r, c);
    match labels
    case Soft(v) => SoftLoss(ln, Column(v, m, n, r, c), Column(prob, m, n, r, c))
    case Hard(cl) => HardLoss(ln, cl[c], ignoreIndex, Column(prob, m, n, r, c))
  }

  /** The first `cnt` lines have passed the check and have their losses. */
  ghost predicate LossDone(labels: Labels, prob: seq<real>, out: seq<real>, m: nat, n: nat, r: nat, cnt: nat,
                           ignoreIndex: int, ln: real -> real)
    requires Shaped(labels, prob, m, n, r) && NonNegative(prob)
  {
    |out| == m * r && cnt <= m * r
    && forall c :: 0 <= c < cnt ==>
         LineFits(labels, ignoreIndex, n, c) && out[c] == LineLoss(labels, prob, m, n, r, c, ignoreIndex, ln)
  }

  /** The loss of one line with soft labels, accumulated in place. */
  method SoftLine(v: seq<real>, prob: seq<real>, ghost m: nat, n: nat, r: nat, i: nat, k: nat, c: nat,
                  ln: real -> real, out: array<real>)
    requires OnLine(prob, m, n, r, i, k, c) && |v| == |prob| && NonNegative(prob) && out.Length == m * r
    modifies out
    ensures NonNegative(Column(prob, m, n, r, c))
    ensures out[..] == old(out[..])[c := SoftLoss(ln, Column(v, m, n, r, c), Column(prob, m, n, r, c))]
  {
    ColumnNonNegative(prob, m, n, r, c);
    ghost var f := LossTerms(ln, Column(v, m, n, r, c), Column(prob, m, n, r, c));
    out[c] := 0.0;
    for j := 0 to n
      invariant out[..] == old(out[..])[c := -Sum(j, f)]
    {
      var idx := CellIndex(prob, m, n, r, i, j, k, c);
      var idx' := CellIndex(v, m, n, r, i, j, k, c);
      assert f(j) == v[idx] * TolerableValue(Log(ln, prob[idx]));
      out[c] := out[c] - v[idx] * TolerableValue(Log(ln, prob[idx]));
    }
  }

  /** The loss of one line with a class index. */
  method HardLine(lbl: int, prob: seq<real>, ghost m: nat, n: nat, r: nat, i: nat, k: nat, ghost c: nat,
                  ignoreIndex: int, ln: real -> real)
    returns (loss: real)
    requires OnLine(prob, m, n, r, i, k, c) && NonNegative(prob) && LabelFits(lbl, ignoreIndex, n)
    ensures NonNegative(Column(prob, m, n, r, c)) && loss == HardLoss(ln, lbl, ignoreIndex, Column(prob, m, n, r, c))
  {
    ColumnNonNegative(prob, m, n, r, c);
    if lbl == ignoreIndex {
      loss := 0.0;
    } else {
      var idx := CellIndex(prob, m, n, r, i, lbl, k, c);
      loss := -TolerableValue(Log(ln, prob[idx]));
    }
  }

  /** The lines of block `i`, the first of which is line `c0`; stops at a label out of range. */
  method LossBlock(labels: Labels, prob: seq<real>, ghost m: nat, n: nat, r: nat, i: nat, c0: nat, ignoreIndex: int,
                   ln: real -> real, out: array<real>)
    returns (ok: bool)
    requires Shaped(labels, prob, m, n, r) && NonNegative(prob) && i < m && c0 == i * r && c0 + r <= m * r
    requires LossDone(labels, prob, out[..], m, n, r, c0, ignoreIndex, ln)
    modifies out
    ensures ok ==> LossDone(labels, prob, out[..], m, n, r, c0 + r, ignoreIndex, ln)
    ensures !ok ==> exists c :: 0 <= c < m * r && !LineFits(labels, ignoreIndex, n, c)
  {
    for k := 0 to r
      invariant LossDone(labels, prob, out[..], m, n, r, c0 + k, ignoreIndex, ln)
    {
      match labels
      case Soft(v) =>
        SoftLine(v, prob, m, n, r, i, k, c0 + k, ln, out);
      case Hard(cl) =>
        var lbl := cl[c0 + k];
        if lbl != ignoreIndex && !(0 <= lbl < n) {
          assert !LineFits(labels, ignoreIndex, n, c0 + k);
          return false;
        }
        out[c0 + k] := HardLine(lbl, prob, m, n, r, i, k, c0 + k, ignoreIndex, ln);
    }
    return true;
  }

  /** `CrossEntropy`; false where its check on a label throws. */
  method CrossEntropy(prob: seq<real>, labels: Labels, batchSize: nat, numClasses: nat, ignoreIndex: int, axisDim: nat,
                      ln: real -> real, out: array<real>)
    returns (ok: bool)
    requires axisDim > 0 && numClasses == axisDim * (numClasses / axisDim)
    requires Shaped(labels, prob, batchSize, axisDim, numClasses / axisDim) && NonNegative(prob)
    requires out.Length == batchSize * (numClasses / axisDim)
    modifies out
    ensures ok <==> forall c :: 0 <= c < out.Length ==> LineFits(labels, ignoreIndex, axisDim, c)
    ensures ok ==>
      LossDone(labels, prob, out[..], batchSize, axisDim, numClasses / axisDim, out.Length, ignoreIndex, ln)
  {
    var numRemain := numClasses / axisDim;
    for i := 0 to batchSize
      invariant LossDone(labels, prob, out[..], batchSize, axisDim, numRemain, i * numRemain, ignoreIndex, ln)
    {
      BlockBounds(batchSize, numRemain, i);
      NextBlock(i, numRemain);
      ok := LossBlock(labels, prob, batchSize, axisDim, numRemain, i, i * numRemain, ignoreIndex, ln, out);
      if !ok { return; }
    }
    return true;
  }

  // ---------- losses along an axis ----------

  /** A shape or a multi-index without the axis. */
  function Across(s: seq<nat>, a: nat): (t: seq<nat>)
    requires a < |s|
    ensures |t| == |s| - 1 && forall j :: 0 <= j < |t| ==> t[j] == s[if j < a then j else j + 1]
  {
    s[..a] + s[a + 1..]
  }

  /** Soft labels have the shape of the probabilities, class indices that of the loss. */
  ghost predicate LabelsFor(labels: Labels, dims: seq<nat>, a: nat)
    requires a < |dims|
  {
    match labels case Soft(v) => |v| == Product(dims) case Hard(cl) => |cl| == Product(Across(dims, a))
  }

  /** A multi-index without the axis is the number of its line. */
  lemma AcrossIsLine(dims: seq<nat>, a: nat, idx: seq<nat>)
    requires a < |dims| && InBounds(idx, dims)
    ensures InBounds(Across(idx, a), Across(dims, a))
    ensures Encode(Across(dims, a), Across(idx, a)) == LineOf(dims, a, idx)
  {
    EncodeSplit(dims[..a], dims[a + 1..], idx[..a], idx[a + 1..]);
  }

  lemma AcrossSize(dims: seq<nat>, a: nat)
    requires a < |dims|
    ensures Product(Across(dims, a)) == Outer(dims, a) * Inner(dims, a)
    ensures Product(dims) == Outer(dims, a) * (dims[a] * Inner(dims, a))
  {
    ProductConcat(dims[..a], dims[a + 1..]);
    BlockSize(dims, a);
    Commute(dims[a], Inner(dims, a));
  }

  lemma LabelsShaped(labels: Labels, x: seq<real>, dims: seq<nat>, a: nat)
    requires a < |dims| && |x| == Product(dims) && LabelsFor(labels, dims, a)
    ensures Shaped(labels, x, Outer(dims, a), dims[a], Inner(dims, a))
  {
    AcrossSize(dims, a);
  }

  /** The loss of the line through a multi-index. */
  ghost predicate Costs(labels: Labels, x: seq<real>, dims: seq<nat>, a: nat, idx: seq<nat>, ignoreIndex: int,
                        ln: real -> real, cost: real)
    requires a < |dims| && |x| == Product(dims) && LabelsFor(labels, dims, a) && InBounds(idx, dims)
  {
    match labels
    case Soft(v) => SoftCost(ln, Line(v, dims, a, idx), Line(x, dims, a, idx), cost)
    case Hard(cl) =>
      AcrossIsLine(dims, a, idx);
      HardCost(ln, At(cl, Across(dims, a), Across(idx, a)), ignoreIndex, Line(x, dims, a, idx), cost)
  }

  /** Every line has its loss. */
  ghost predicate LossesAlong(labels: Labels, x: seq<real>, dims: seq<nat>, a: nat, ignoreIndex: int,
                              ln: real -> real, out: seq<real>)
    requires a < |dims| && |x| == Product(dims) && LabelsFor(labels, dims, a)
  {
    && |out| == Product(Across(dims, a))
    && forall idx | InBounds(idx, dims) ::
      AcrossIsLine(dims, a, idx);
      Costs(labels, x, dims, a, idx, ignoreIndex, ln, At(out, Across(dims, a), Across(idx, a)))
  }

  lemma LossesMean(labels: Labels, x: seq<real>, dims: seq<nat>, a: nat, ignoreIndex: int, ln: real -> real,
                   out: seq<real>)
    requires a < |dims| && |x| == Product(dims) && NonNegative(x) && LabelsFor(labels, dims, a)
    requires Shaped(labels, x, Outer(dims, a), dims[a], Inner(dims, a)) && |out| == Product(Across(dims, a))
    requires LossDone(labels, x, out, Outer(dims, a), dims[a], Inner(dims, a), |out|, ignoreIndex, ln)
    ensures LossesAlong(labels, x, dims, a, ignoreIndex, ln, out)
  {
    AcrossSize(dims, a);
    forall idx | InBounds(idx, dims)
      ensures InBounds(Across(idx, a), Across(dims, a))
      ensures Costs(labels, x, dims, a, idx, ignoreIndex, ln, At(out, Across(dims, a), Across(idx, a)))
    {
      AcrossIsLine(dims, a, idx);
      LineCosts(labels, x, dims, a, ignoreIndex, ln, idx, out);
    }
  }

  lemma LineCosts(labels: Labels, x: seq<real>, dims: seq<nat>, a: nat, ignoreIndex: int, ln: real -> real,
                  idx: seq<nat>, out: seq<real>)
    requires a < |dims| && |x| == Product(dims) && NonNegative(x) && LabelsFor(labels, dims, a) && InBounds(idx, dims)
    requires Shaped(labels, x, Outer(dims, a), dims[a], Inner(dims, a)) && |out| == Product(Across(dims, a))
    requires LossDone(labels, x, out, Outer(dims, a), dims[a], Inner(dims, a), |out|, ignoreIndex, ln)
    ensures LineOf(dims, a, idx) < |out|
    ensures Costs(labels, x, dims, a, idx, ignoreIndex, ln, out[LineOf(dims, a, idx)])
  {
    AcrossSize(dims, a);
    AcrossIsLine(dims, a, idx);
    var c := LineIsColumn(x, dims, a, idx);
    ColumnNonNegative(x, Outer(dims, a), dims[a], Inner(dims, a), c);
    assert LineFits(labels, ignoreIndex, dims[a], c);
    match labels
    case Soft(v) =>
      var c' := LineIsColumn(v, dims, a, idx);
      SoftLossMeans(ln, Line(v, dims, a, idx), Line(x, dims, a, idx));
    case Hard(cl) =>
      HardLossMeans(ln, cl[c], ignoreIndex, Line(x, dims, a, idx));
  }

  /** The kernel's checks, label by label. */
  lemma LabelsFit(labels: Labels, ignoreIndex: int, n: nat, cnt: nat)
    requires labels.Hard? ==> |labels.classes| == cnt
    ensures (forall c :: 0 <= c < cnt ==> LineFits(labels, ignoreIndex, n, c)) <==> (labels.Hard? ==>
      forall c :: 0 <= c < cnt ==> labels.classes[c] == ignoreIndex || 0 <= labels.classes[c] < n)
  {
    if forall c :: 0 <= c < cnt ==> LineFits(labels, ignoreIndex, n, c) {
      forall c | labels.Hard? && 0 <= c < cnt
        ensures labels.classes[c] == ignoreIndex || 0 <= labels.classes[c] < n
      {
        assert LineFits(labels, ignoreIndex, n, c);
      }
    }
  }

  /** `CrossEntropyKernel` along axis `a`; the loss has one cell for every line. */
  method CrossEntropyKernel(x: seq<real>, dims: seq<nat>, labels: Labels, ignoreIndex: int, axis: int, ghost a: nat,
                            ln: real -> real, out: array<real>)
    returns (ok: bool)
    requires a < |dims| && (axis == a || axis == a - |dims|) && |x| == Product(dims) && NonNegative(x)
    requires LabelsFor(labels, dims, a) && out.Length == Product(Across(dims, a))
    modifies out
    ensures ok <==> dims[a] > 0 && Product(dims[..a]) > 0 && (labels.Hard? ==>
      forall c :: 0 <= c < out.Length ==> labels.classes[c] == ignoreIndex || 0 <= labels.classes[c] < dims[a])
    ensures ok ==> LossesAlong(labels, x, dims, a, ignoreIndex, ln, out[..])
    ensures ok ==>
      && Shaped(labels, x, Outer(dims, a), dims[a], Inner(dims, a))
      && LossDone(labels, x, out[..], Outer(dims, a), dims[a], Inner(dims, a), out.Length, ignoreIndex, ln)
  {
    AxisArgument(axis, |dims|, a);
    LabelsShaped(labels, x, dims, a);
    AcrossSize(dims, a);
    var axisV := CanonicalAxis(axis, |dims|);
    var axisDim := dims[axisV];
    if axisDim <= 0 { return false; }
    var n := SizeToAxis(axisV, dims);
    if n <= 0 { return false; }
    var d := SizeFromAxis(axisV, dims);
    AxisDivides(dims, axisV);
    ok := CrossEntropy(x, labels, n, d, ignoreIndex, axisDim, ln, out);
    LabelsFit(labels, ignoreIndex, axisDim, out.Length);
    if ok {
      LossesMean(labels, x, dims, a, ignoreIndex, ln, out[..]);
    }
  }

  /** `CrossEntropyWithSoftmaxKernel`: on softmax of the logits, or on the logits themselves as probabilities. */
  method CrossEntropyWithSoftmaxKernel(logits: seq<real>, dims: seq<nat>, labels: Labels, useSoftmax: bool,
                                       ignoreIndex: int, axis: int, ghost a: nat,
                                       e: real -> real, ln: real -> real, softmax: array<real>, loss: array<real>)
    returns (ok: bool)
    requires a < |dims| && (axis == a || axis == a - |dims|) && |logits| == softmax.Length == Product(dims)
    requires LabelsFor(labels, dims, a) && loss.Length == Product(Across(dims, a))
    requires ExpLike(e) && (!useSoftmax ==> NonNegative(logits)) && softmax != loss
    modifies softmax, loss
    ensures ok <==> dims[a] > 0 && Product(dims[..a]) > 0 && (labels.Hard? ==>
      forall c :: 0 <= c < loss.Length ==> labels.classes[c] == ignoreIndex || 0 <= labels.classes[c] < dims[a])
    ensures ok && !useSoftmax ==> softmax[..] == logits
    ensures ok && useSoftmax ==> SoftmaxAlong(logits, softmax[..], dims, a, e)
    ensures ok ==> LossesAlong(labels, softmax[..], dims, a, ignoreIndex, ln, loss[..])
  {
    if !useSoftmax {
      ok := CrossEntropyKernel(logits, dims, labels, ignoreIndex, axis, a, ln, loss);
      ghost var losses := loss[..];
      forall p | 0 <= p < softmax.Length { softmax[p] := logits[p]; }
      assert softmax[..] == logits && loss[..] == losses;
      return;
    }
    SoftmaxKernel(logits, dims, axis, a, e, softmax);
    SoftmaxNonNegative(logits, softmax[..], dims, a, e);
    ok := CrossEntropyKernel(softmax[..], dims, labels, ignoreIndex, axis, a, ln, loss);
  }

  /** The softmax of every line makes every cell a probability. */
  lemma SoftmaxNonNegative(x: seq<real>, s: seq<real>, dims: seq<nat>, axis: nat, e: real -> real)
    requires axis < |dims| && |x| == |s| == Product(dims) && ExpLike(e)
    requires SoftmaxAlong(x, s, dims, axis, e)
    ensures NonNegative(s)
  {
    forall p | 0 <= p < |s| ensures s[p] >= 0.0 {
      var idx := Decode(dims, p);
      DecodeInverse(dims, p);
      ProductPositive(dims);
      SoftmaxIsDistribution(e, Line(x, dims, axis, idx));
      CellOnItsLine(s, dims, axis, idx);
    }
  }

  // ---------- the gradient kernel ----------

  /** The gradient along line `c`. */
  ghost predicate GradFits(labels: Labels, p: seq<real>, m: nat, n: nat, r: nat, c: nat, useSoftmax: bool,
                           ignoreIndex: int)
    requires Shaped(labels, p, m, n, r) && c < m * r
  {
    && LineFits(labels, ignoreIndex, n, c)
    && (useSoftmax || match labels
          case Soft(_) => (forall j :: 0 <= j < n ==> Column(p, m, n, r, c)[j] != 0.0)
          case Hard(cl) => cl[c] != ignoreIndex ==> Column(p, m, n, r, c)[cl[c]] != 0.0)
  }

  ghost function LineGrad(labels: Labels, p: seq<real>, og: real, m: nat, n: nat, r: nat, c: nat, useSoftmax: bool,
                          ignoreIndex: int): seq<real>
    requires Shaped(labels, p, m, n, r) && c < m * r && GradFits(labels, p, m, n, r, c, useSoftmax, ignoreIndex)
  {
    match labels
    case Soft(v) =>
      if useSoftmax then FusedGrad(Column(v, m, n, r, c), Column(p, m, n, r, c), og)
      else PlainGrad(Column(v, m, n, r, c), Column(p, m, n, r, c), og)
    case Hard(cl) =>
      if useSoftmax then HardFusedGrad(cl[c], ignoreIndex, Column(p, m, n, r, c), og)
      else HardPlainGrad(cl[c], ignoreIndex, Column(p, m, n, r, c), og)
  }

  /** The new value of a cell: soft labels with respect to the probabilities. */
  function PlainCell(v: seq<real>, og: seq<real>): (nat, nat, real) -> real {
    (c: nat, p: nat, old': real) => if c < |og| && p < |v| && old' != 0.0 then PlainTerm(v[p], old', og[c]) else 0.0
  }

  /** The new value of a cell: soft labels with respect to the logits. */
  function FusedCell(v: seq<real>, og: seq<real>): (nat, nat, real) -> real {
    (c: nat, p: nat, old': real) => if c < |og| && p < |v| then FusedTerm(v[p], old', og[c]) else 0.0
  }

  /** The first pass for class indices with respect to the logits. */
  function ScaleCell(og: seq<real>): (nat, nat, real) -> real {
    (c: nat, p: nat, old': real) => if c < |og| then ScaleTerm(og[c], old') else 0.0
  }

  /** Every line holds its gradient. */
  ghost predicate GradsDone(labels: Labels, p: seq<real>, og: seq<real>, x: seq<real>, m: nat, n: nat, r: nat,
                            useSoftmax: bool, ignoreIndex: int) {
    && Shaped(labels, p, m, n, r) && |x| == |p| && |og| == m * r
    && forall c :: 0 <= c < m * r ==> GradDone(labels, p, og, x, m, n, r, c, useSoftmax, ignoreIndex)
  }

  ghost predicate GradDone(labels: Labels, p: seq<real>, og: seq<real>, x: seq<real>, m: nat, n: nat, r: nat, c: nat,
                           useSoftmax: bool, ignoreIndex: int)
    requires Shaped(labels, p, m, n, r) && |x| == |p| && |og| == m * r && c < m * r
  {
    && GradFits(labels, p, m, n, r, c, useSoftmax, ignoreIndex)
    && Column(x, m, n, r, c) == LineGrad(labels, p, og[c], m, n, r, c, useSoftmax, ignoreIndex)
  }

  lemma PlainColumn(v: seq<real>, p: seq<real>, og: seq<real>, x: seq<real>, m: nat, n: nat, r: nat, c: nat)
    requires |v| == |p| == m * (n * r) && n * r > 0 && r > 0 && |og| == m * r && c < m * r
    requires Updated(p, x, PlainCell(v, og), n, r, |p|) && forall j :: 0 <= j < n ==> Column(p, m, n, r, c)[j] != 0.0
    ensures Column(x, m, n, r, c) == PlainGrad(Column(v, m, n, r, c), Column(p, m, n, r, c), og[c])
  {
    forall j: nat | j < n
      ensures Column(x, m, n, r, c)[j] == PlainTerm(Column(v, m, n, r, c)[j], Column(p, m, n, r, c)[j], og[c])
    {
      UpdatedColumn(p, x, PlainCell(v, og), m, n, r, c, j);
    }
  }

  lemma FusedColumn(v: seq<real>, p: seq<real>, og: seq<real>, x: seq<real>, m: nat, n: nat, r: nat, c: nat)
    requires |v| == |p| == m * (n * r) && n * r > 0 && r > 0 && |og| == m * r && c < m * r
    requires Updated(p, x, FusedCell(v, og), n, r, |p|)
    ensures Column(x, m, n, r, c) == FusedGrad(Column(v, m, n, r, c), Column(p, m, n, r, c), og[c])
  {
    forall j: nat | j < n
      ensures Column(x, m, n, r, c)[j] == FusedTerm(Column(v, m, n, r, c)[j], Column(p, m, n, r, c)[j], og[c])
    {
      UpdatedColumn(p, x, FusedCell(v, og), m, n, r, c, j);
    }
  }

  lemma ScaledColumn(p: seq<real>, og: seq<real>, x: seq<real>, m: nat, n: nat, r: nat, c: nat)
    requires |p| == m * (n * r) && n * r > 0 && r > 0 && |og| == m * r && c < m * r
    requires Updated(p, x, ScaleCell(og), n, r, |p|)
    ensures Column(x, m, n, r, c) == Scaled(Column(p, m, n, r, c), og[c])
  {
    forall j: nat | j < n ensures Column(x, m, n, r, c)[j] == Scaled(Column(p, m, n, r, c), og[c])[j] {
      UpdatedColumn(p, x, ScaleCell(og), m, n, r, c, j);
    }
  }

  /** The loop that clears the line of an ignored label. */
  method ZeroLine(x: array<real>, ghost m: nat, n: nat, r: nat, i: nat, k: nat, ghost c: nat)
    requires OnLine(x[..], m, n, r, i, k, c)
    modifies x
    ensures Column(x[..], m, n, r, c) == Zeros(n) && OtherLines(old(x[..]), x[..], m, n, r, c)
  {
    ghost var before := x[..];
    for j := 0 to n
      invariant OtherLines(before, x[..], m, n, r, c)
      invariant forall t :: 0 <= t < j ==> Column(x[..], m, n, r, c)[t] == 0.0
    {
      var p := CellIndex(x[..], m, n, r, i, j, k, c);
      PutCell(x[..], m, n, r, c, j, 0.0);
      x[p] := 0.0;
    }
  }

  /** The loop that clears the other classes of a line. */
  method ZeroOthers(x: array<real>, lbl: nat, ghost m: nat, n: nat, r: nat, i: nat, k: nat, ghost c: nat)
    requires OnLine(x[..], m, n, r, i, k, c) && lbl < n
    modifies x
    ensures Column(x[..], m, n, r, c) == Zeros(n)[lbl := old(Column(x[..], m, n, r, c)[lbl])]
    ensures OtherLines(old(x[..]), x[..], m, n, r, c)
  {
    ghost var before := x[..];
    for j := 0 to n
      invariant OtherLines(before, x[..], m, n, r, c)
      invariant Column(x[..], m, n, r, c)[lbl] == Column(before, m, n, r, c)[lbl]
      invariant forall t :: 0 <= t < j && t != lbl ==> Column(x[..], m, n, r, c)[t] == 0.0
    {
      if j != lbl {
        var p := CellIndex(x[..], m, n, r, i, j, k, c);
        PutCell(x[..], m, n, r, c, j, 0.0);
        x[p] := 0.0;
      }
    }
  }

  /** One line with a class index, with respect to the probabilities it holds. */
  method HardPlainLine(x: array<real>, lbl: int, og: real, ignoreIndex: int, ghost m: nat, n: nat, r: nat, i: nat,
                       k: nat, ghost c: nat)
    requires OnLine(x[..], m, n, r, i, k, c) && LabelFits(lbl, ignoreIndex, n)
    requires lbl != ignoreIndex ==> Column(x[..], m, n, r, c)[lbl] != 0.0
    modifies x
    ensures Column(x[..], m, n, r, c) == HardPlainGrad(lbl, ignoreIndex, old(Column(x[..], m, n, r, c)), og)
    ensures OtherLines(old(x[..]), x[..], m, n, r, c)
  {
    if lbl == ignoreIndex {
      ZeroLine(x, m, n, r, i, k, c);
    } else {
      var p := CellIndex(x[..], m, n, r, i, lbl, k, c);
      var v := UnitTerm(x[p], og);
      PutCell(x[..], m, n, r, c, lbl, v);
      x[p] := v;
      ZeroOthers(x, lbl, m, n, r, i, k, c);
    }
  }

  /** One line with a class index, with respect to the logits, after the first pass. */
  method HardFusedLine(x: array<real>, lbl: int, og: real, ignoreIndex: int, ghost m: nat, n: nat, r: nat, i: nat,
                       k: nat, ghost c: nat)
    requires OnLine(x[..], m, n, r, i, k, c) && LabelFits(lbl, ignoreIndex, n)
    modifies x
    ensures Column(x[..], m, n, r, c)
         == if lbl == ignoreIndex then Zeros(n)
            else old(Column(x[..], m, n, r, c))[lbl := old(Column(x[..], m, n, r, c)[lbl]) - og]
    ensures OtherLines(old(x[..]), x[..], m, n, r, c)
  {
    if lbl == ignoreIndex {
      ZeroLine(x, m, n, r, i, k, c);
    } else {
      var p := CellIndex(x[..], m, n, r, i, lbl, k, c);
      PutCell(x[..], m, n, r, c, lbl, x[p] - og);
      x[p] := x[p] - og;
    }
  }

  /**
    The line a class index turns `l` into: for the probabilities directly, for the logits from the
    scaled probabilities.
   */
  function HardStep(useSoftmax: bool, lbl: int, ignoreIndex: int, l: seq<real>, og: real): (x: seq<real>)
    requires LabelFits(lbl, ignoreIndex, |l|) && (!useSoftmax && lbl != ignoreIndex ==> l[lbl] != 0.0)
    ensures |x| == |l|
  {
    if !useSoftmax then HardPlainGrad(lbl, ignoreIndex, l, og)
    else if lbl == ignoreIndex then Zeros(|l|)
    else l[lbl := l[lbl] - og]
  }

  ghost predicate StepFits(useSoftmax: bool, cl: seq<int>, ignoreIndex: int, l: seq<real>, c: nat)
    requires c < |cl|
  {
    LabelFits(cl[c], ignoreIndex, |l|) && (!useSoftmax && cl[c] != ignoreIndex ==> l[cl[c]] != 0.0)
  }

  /** The first `cnt` lines have been rewritten from what `start` held, the others not yet. */
  ghost predicate Stepped(useSoftmax: bool, cl: seq<int>, og: seq<real>, ignoreIndex: int, start: seq<real>,
                          x: seq<real>, m: nat, n: nat, r: nat, cnt: nat)
  {
    && |start| == |x| == m * (n * r) && |cl| == |og| == m * r && cnt <= m * r
    && forall c {:trigger Column(x, m, n, r, c)} :: 0 <= c < m * r ==>
         && StepFits(useSoftmax, cl, ignoreIndex, Column(start, m, n, r, c), c)
         && Column(x, m, n, r, c)
           == if c < cnt then HardStep(useSoftmax, cl[c], ignoreIndex, Column(start, m, n, r, c), og[c])
                                     else Column(start, m, n, r, c)
  }

  /** The two loops over lines for class indices, on the lines of block `i`. */
  method HardGradBlock(useSoftmax: bool, cl: seq<int>, og: seq<real>, ignoreIndex: int, ghost start: seq<real>,
                       x: array<real>, ghost m: nat, n: nat, r: nat, i: nat, c0: nat)
    requires i < m && c0 == i * r && c0 + r <= m * r
    requires Stepped(useSoftmax, cl, og, ignoreIndex, start, x[..], m, n, r, c0)
    modifies x
    ensures Stepped(useSoftmax, cl, og, ignoreIndex, start, x[..], m, n, r, c0 + r)
  {
    for k := 0 to r
      invariant Stepped(useSoftmax, cl, og, ignoreIndex, start, x[..], m, n, r, c0 + k)
    {
      ghost var before := x[..];
      ghost var c := c0 + k;
      assert Column(before, m, n, r, c) == Column(start, m, n, r, c);
      if useSoftmax {
        HardFusedLine(x, cl[c0 + k], og[c0 + k], ignoreIndex, m, n, r, i, k, c);
      } else {
        HardPlainLine(x, cl[c0 + k], og[c0 + k], ignoreIndex, m, n, r, i, k, c);
      }
      SteppedOneMore(useSoftmax, cl, og, ignoreIndex, start, before, x[..], m, n, r, c);
    }
  }

  lemma SteppedOneMore(useSoftmax: bool, cl: seq<int>, og: seq<real>, ignoreIndex: int, start: seq<real>,
                       before: seq<real>, after: seq<real>, m: nat, n: nat, r: nat, c: nat)
    requires Stepped(useSoftmax, cl, og, ignoreIndex, start, before, m, n, r, c) && c < m * r
    requires StepFits(useSoftmax, cl, ignoreIndex, Column(start, m, n, r, c), c)
    requires OtherLines(before, after, m, n, r, c)
    requires Column(after, m, n, r, c) == HardStep(useSoftmax, cl[c], ignoreIndex, Column(start, m, n, r, c), og[c])
    ensures Stepped(useSoftmax, cl, og, ignoreIndex, start, after, m, n, r, c + 1)
  {
    forall b | 0 <= b < m * r
      ensures StepFits(useSoftmax, cl, ignoreIndex, Column(start, m, n, r, b), b)
      ensures Column(after, m, n, r, b)
           == if b < c + 1 then HardStep(useSoftmax, cl[b], ignoreIndex, Column(start, m, n, r, b), og[b])
              else Column(start, m, n, r, b)
    {
      assert b != c ==> Column(after, m, n, r, b) == Column(before, m, n, r, b);
    }
  }

  method HardGradLoop(useSoftmax: bool, cl: seq<int>, og: seq<real>, ignoreIndex: int, x: array<real>, m: nat, n: nat,
                      r: nat)
    requires Stepped(useSoftmax, cl, og, ignoreIndex, x[..], x[..], m, n, r, 0)
    modifies x
    ensures Stepped(useSoftmax, cl, og, ignoreIndex, old(x[..]), x[..], m, n, r, m * r)
  {
    ghost var start := x[..];
    for i := 0 to m
      invariant Stepped(useSoftmax, cl, og, ignoreIndex, start, x[..], m, n, r, i * r)
    {
      BlockBounds(m, r, i);
      NextBlock(i, r);
      HardGradBlock(useSoftmax, cl, og, ignoreIndex, start, x, m, n, r, i, i * r);
    }
  }

  /**
    What the kernel asks of its buffers: labels that the forward kernel accepted and, where it
    divides, probabilities other than zero.
   */
  ghost predicate GradArgs(labels: Labels, p: seq<real>, og: seq<real>, m: nat, n: nat, r: nat, useSoftmax: bool,
                           ignoreIndex: int) {
    && Shaped(labels, p, m, n, r) && |og| == m * r
    && forall c {:trigger Column(p, m, n, r, c)} :: 0 <= c < m * r ==>
      GradFits(labels, p, m, n, r, c, useSoftmax, ignoreIndex)
  }

  /** The loops of the gradient kernel, on a buffer that holds the probabilities. */
  method GradLoops(labels: Labels, og: seq<real>, useSoftmax: bool, ignoreIndex: int, m: nat, n: nat, r: nat,
                   x: array<real>)
    requires GradArgs(labels, x[..], og, m, n, r, useSoftmax, ignoreIndex) && n * r > 0 && r > 0
    modifies x
    ensures GradsDone(labels, old(x[..]), og, x[..], m, n, r, useSoftmax, ignoreIndex)
  {
    ghost var p := x[..];
    match labels
    case Soft(v) =>
      UpdateCells(m, n, r, x, if useSoftmax then FusedCell(v, og) else PlainCell(v, og));
      SoftGrads(labels, p, og, x[..], m, n, r, useSoftmax, ignoreIndex);
    case Hard(cl) =>
      if useSoftmax {
        UpdateCells(m, n, r, x, ScaleCell(og));
        ScaledStart(labels, p, og, x[..], m, n, r, ignoreIndex);
      } else {
        PlainStart(labels, p, og, m, n, r, ignoreIndex);
      }
      ghost var start := x[..];
      HardGradLoop(useSoftmax, cl, og, ignoreIndex, x, m, n, r);
      HardGrads(labels, p, og, start, x[..], m, n, r, useSoftmax, ignoreIndex);
  }

  lemma SoftGrads(labels: Labels, p: seq<real>, og: seq<real>, x: seq<real>, m: nat, n: nat, r: nat, useSoftmax: bool,
                  ignoreIndex: int)
    requires labels.Soft? && GradArgs(labels, p, og, m, n, r, useSoftmax, ignoreIndex) && n * r > 0 && r > 0
    requires Updated(p, x, if useSoftmax then FusedCell(labels.values, og) else PlainCell(labels.values, og), n, r, |p|)
    ensures GradsDone(labels, p, og, x, m, n, r, useSoftmax, ignoreIndex)
  {
    forall c | 0 <= c < m * r ensures GradDone(labels, p, og, x, m, n, r, c, useSoftmax, ignoreIndex) {
      assert |Column(p, m, n, r, c)| == n;
      if useSoftmax {
        FusedColumn(labels.values, p, og, x, m, n, r, c);
      } else {
        PlainColumn(labels.values, p, og, x, m, n, r, c);
      }
    }
  }

  lemma ScaledStart(labels: Labels, p: seq<real>, og: seq<real>, x: seq<real>, m: nat, n: nat, r: nat, ignoreIndex: int)
    requires labels.Hard? && GradArgs(labels, p, og, m, n, r, true, ignoreIndex) && n * r > 0 && r > 0
    requires Updated(p, x, ScaleCell(og), n, r, |p|)
    ensures Stepped(true, labels.classes, og, ignoreIndex, x, x, m, n, r, 0)
    ensures ScaledFrom(p, x, og, m, n, r)
  {
    forall c | 0 <= c < m * r
      ensures StepFits(true, labels.classes, ignoreIndex, Column(x, m, n, r, c), c)
      ensures Column(x, m, n, r, c) == Scaled(Column(p, m, n, r, c), og[c])
    {
      assert |Column(p, m, n, r, c)| == n;
      ScaledColumn(p, og, x, m, n, r, c);
    }
  }

  /** The lines of `x` are those of `p`, scaled by their loss gradients. */
  ghost predicate ScaledFrom(p: seq<real>, x: seq<real>, og: seq<real>, m: nat, n: nat, r: nat) {
    && |p| == |x| == m * (n * r) && |og| == m * r
    && forall c {:trigger Column(x, m, n, r, c)} :: 0 <= c < m * r ==>
      Column(x, m, n, r, c) == Scaled(Column(p, m, n, r, c), og[c])
  }

  lemma PlainStart(labels: Labels, p: seq<real>, og: seq<real>, m: nat, n: nat, r: nat, ignoreIndex: int)
    requires labels.Hard? && GradArgs(labels, p, og, m, n, r, false, ignoreIndex)
    ensures Stepped(false, labels.classes, og, ignoreIndex, p, p, m, n, r, 0)
  {
  }

  lemma HardGrads(labels: Labels, p: seq<real>, og: seq<real>, start: seq<real>, x: seq<real>, m: nat, n: nat, r: nat,
                  useSoftmax: bool, ignoreIndex: int)
    requires labels.Hard? && GradArgs(labels, p, og, m, n, r, useSoftmax, ignoreIndex)
    requires if useSoftmax then ScaledFrom(p, start, og, m, n, r) else start == p
    requires Stepped(useSoftmax, labels.classes, og, ignoreIndex, start, x, m, n, r, m * r)
    ensures GradsDone(labels, p, og, x, m, n, r, useSoftmax, ignoreIndex)
  {
    forall c | 0 <= c < m * r ensures GradDone(labels, p, og, x, m, n, r, c, useSoftmax, ignoreIndex) {
      assert |Column(p, m, n, r, c)| == |Column(start, m, n, r, c)| == |Column(x, m, n, r, c)| == n;
      if useSoftmax {
        FusedStep(labels.classes[c], ignoreIndex, Column(p, m, n, r, c), Column(start, m, n, r, c), og[c]);
      }
    }
  }

  lemma FusedStep(lbl: int, ignoreIndex: int, p: seq<real>, start: seq<real>, og: real)
    requires LabelFits(lbl, ignoreIndex, |p|) && start == Scaled(p, og)
    ensures HardStep(true, lbl, ignoreIndex, start, og) == HardFusedGrad(lbl, ignoreIndex, p, og)
  {
  }

  // ---------- gradients along an axis ----------

  /** With soft labels `y`: for the logits g * (p - y), and for the probabilities -y / p * g. */
  predicate SoftGradient(useSoftmax: bool, y: seq<real>, p: seq<real>, g: real, x: seq<real>) {
    && |x| == |y| == |p|
    && forall j :: 0 <= j < |x| ==>
      if useSoftmax then x[j] == g * (p[j] - y[j]) else p[j] != 0.0 && x[j] == -y[j] / p[j] * g
  }

  /** With a class the same, as if `y` were one there and zero elsewhere; an ignored line is all zeros. */
  predicate HardGradient(useSoftmax: bool, lbl: int, ignoreIndex: int, p: seq<real>, g: real, x: seq<real>) {
    && |x| == |p|
    && if lbl == ignoreIndex then forall j :: 0 <= j < |x| ==> x[j] == 0.0
       else 0 <= lbl < |p| && forall j :: 0 <= j < |x| ==>
         if useSoftmax then x[j] == g * (p[j] - if j == lbl then 1.0 else 0.0)
         else if j == lbl then p[j] != 0.0 && x[j] == -1.0 / p[j] * g
         else x[j] == 0.0
  }

  /** Every line has its gradient. */
  ghost predicate GradsAlong(labels: Labels, p: seq<real>, og: seq<real>, x: seq<real>, dims: seq<nat>, a: nat,
                             useSoftmax: bool, ignoreIndex: int)
    requires a < |dims| && |p| == |x| == Product(dims) && |og| == Product(Across(dims, a)) && LabelsFor(labels, dims, a)
  {
    forall idx :: InBounds(idx, dims) ==> GradAlong(labels, p, og, x, dims, a, idx, useSoftmax, ignoreIndex)
  }

  ghost predicate GradAlong(labels: Labels, p: seq<real>, og: seq<real>, x: seq<real>, dims: seq<nat>, a: nat,
                            idx: seq<nat>, useSoftmax: bool, ignoreIndex: int)
    requires a < |dims| && |p| == |x| == Product(dims) && |og| == Product(Across(dims, a)) && LabelsFor(labels, dims, a)
    requires InBounds(idx, dims)
  {
    AcrossIsLine(dims, a, idx);
    var g := At(og, Across(dims, a), Across(idx, a));
    match labels
    case Soft(v) => SoftGradient(useSoftmax, Line(v, dims, a, idx), Line(p, dims, a, idx), g, Line(x, dims, a, idx))
    case Hard(cl) =>
      HardGradient(useSoftmax, At(cl, Across(dims, a), Across(idx, a)), ignoreIndex, Line(p, dims, a, idx), g,
                   Line(x, dims, a, idx))
  }

  lemma SoftGradMeans(useSoftmax: bool, y: seq<real>, p: seq<real>, g: real)
    requires |y| == |p| && (useSoftmax || forall j :: 0 <= j < |p| ==> p[j] != 0.0)
    ensures SoftGradient(useSoftmax, y, p, g, if useSoftmax then FusedGrad(y, p, g) else PlainGrad(y, p, g))
  {
  }

  lemma HardGradMeans(useSoftmax: bool, lbl: int, ignoreIndex: int, p: seq<real>, g: real)
    requires LabelFits(lbl, ignoreIndex, |p|) && (!useSoftmax && lbl != ignoreIndex ==> p[lbl] != 0.0)
    ensures HardGradient(useSoftmax, lbl, ignoreIndex, p, g,
      if useSoftmax then HardFusedGrad(lbl, ignoreIndex, p, g) else HardPlainGrad(lbl, ignoreIndex, p, g))
  {
    if useSoftmax && lbl != ignoreIndex {
      HardIsSoftFused(lbl, ignoreIndex, p, g);
    }
  }

  lemma GradsMean(labels: Labels, p: seq<real>, og: seq<real>, x: seq<real>, dims: seq<nat>, a: nat,
                  useSoftmax: bool, ignoreIndex: int)
    requires a < |dims| && |p| == |x| == Product(dims) && |og| == Product(Across(dims, a)) && LabelsFor(labels, dims, a)
    requires GradsDone(labels, p, og, x, Outer(dims, a), dims[a], Inner(dims, a), useSoftmax, ignoreIndex)
    ensures GradsAlong(labels, p, og, x, dims, a, useSoftmax, ignoreIndex)
  {
    forall idx | InBounds(idx, dims) ensures GradAlong(labels, p, og, x, dims, a, idx, useSoftmax, ignoreIndex) {
      GradMeans(labels, p, og, x, dims, a, idx, useSoftmax, ignoreIndex);
    }
  }

  lemma GradMeans(labels: Labels, p: seq<real>, og: seq<real>, x: seq<real>, dims: seq<nat>, a: nat, idx: seq<nat>,
                  useSoftmax: bool, ignoreIndex: int)
    requires a < |dims| && |p| == |x| == Product(dims) && |og| == Product(Across(dims, a)) && LabelsFor(labels, dims, a)
    requires GradsDone(labels, p, og, x, Outer(dims, a), dims[a], Inner(dims, a), useSoftmax, ignoreIndex)
    requires InBounds(idx, dims)
    ensures GradAlong(labels, p, og, x, dims, a, idx, useSoftmax, ignoreIndex)
  {
    AcrossSize(dims, a);
    AcrossIsLine(dims, a, idx);
    var c := LineIsColumn(p, dims, a, idx);
    var c' := LineIsColumn(x, dims, a, idx);
    assert GradDone(labels, p, og, x, Outer(dims, a), dims[a], Inner(dims, a), c, useSoftmax, ignoreIndex);
    match labels
    case Soft(v) =>
      var c'' := LineIsColumn(v, dims, a, idx);
      SoftGradMeans(useSoftmax, Line(v, dims, a, idx), Line(p, dims, a, idx), og[c]);
    case Hard(cl) =>
      HardGradMeans(useSoftmax, cl[c], ignoreIndex, Line(p, dims, a, idx), og[c]);
  }

  /** `CrossEntropyWithSoftmaxGradCPUKernel` along axis `a`; false where a check on the axis throws. */
  method CrossEntropyWithSoftmaxGradKernel(labels: Labels, softmax: seq<real>, lossGrad: seq<real>, dims: seq<nat>,
                                           useSoftmax: bool, ignoreIndex: int, axis: int, ghost a: nat,
                                           logitsGrad: array<real>)
    returns (ok: bool)
    requires a < |dims| && (axis == a || axis == a - |dims|) && |softmax| == logitsGrad.Length == Product(dims)
    requires LabelsFor(labels, dims, a) && |lossGrad| == Product(Across(dims, a))
    requires GradArgs(labels, softmax, lossGrad, Outer(dims, a), dims[a], Inner(dims, a), useSoftmax, ignoreIndex)
    modifies logitsGrad
    ensures ok <==> dims[a] > 0 && Product(dims[..a]) > 0
    ensures ok ==> GradsAlong(labels, softmax, lossGrad, logitsGrad[..], dims, a, useSoftmax, ignoreIndex)
    ensures ok ==> GradsDone(labels, softmax, lossGrad, logitsGrad[..], Outer(dims, a), dims[a], Inner(dims, a),
      useSoftmax, ignoreIndex)
  {
    AxisArgument(axis, |dims|, a);
    forall p | 0 <= p < |softmax| { logitsGrad[p] := softmax[p]; }
    assert logitsGrad[..] == softmax;
    var axisV := CanonicalAxis(axis, |dims|);
    var axisDim := dims[axisV];
    if axisDim <= 0 { return false; }
    var n := SizeToAxis(axisV, dims);
    if n <= 0 { return false; }
    var d := SizeFromAxis(axisV, dims);
    AxisDivides(dims, axisV);
    var remain := d / axisDim;
    if remain > 0 {
      GradLoops(labels, lossGrad, useSoftmax, ignoreIndex, n, axisDim, remain, logitsGrad);
    }
    GradsMean(labels, softmax, lossGrad, logitsGrad[..], dims, a, useSoftmax, ignoreIndex);
    return true;
  }

  // ---------- class indices against their one-hot encodings ----------

  /** Line `c` of the soft labels is the one-hot encoding of its class, unless the class is ignored. */
  ghost predicate EncodesLine(v: seq<real>, cl: seq<int>, m: nat, n: nat, r: nat, c: nat, ignoreIndex: int)
    requires |v| == m * (n * r) && |cl| == m * r && c < m * r
  {
    LabelFits(cl[c], ignoreIndex, n) && (cl[c] != ignoreIndex ==> Column(v, m, n, r, c) == OneHot(n, cl[c]))
  }

  ghost predicate Encodes(v: seq<real>, cl: seq<int>, m: nat, n: nat, r: nat, ignoreIndex: int) {
    && |v| == m * (n * r) && |cl| == m * r
    && forall c :: 0 <= c < m * r ==> EncodesLine(v, cl, m, n, r, c, ignoreIndex)
  }

  /** The loss kernel writes the same for class indices as for their encodings, and zero where a class is ignored. */
  lemma HardKernelIsSoftLoss(v: seq<real>, cl: seq<int>, prob: seq<real>, hard: seq<real>, soft: seq<real>,
                             m: nat, n: nat, r: nat, ignoreIndex: int, ln: real -> real)
    requires Encodes(v, cl, m, n, r, ignoreIndex) && |prob| == m * (n * r) && NonNegative(prob)
    requires LossDone(Hard(cl), prob, hard, m, n, r, m * r, ignoreIndex, ln)
    requires LossDone(Soft(v), prob, soft, m, n, r, m * r, ignoreIndex, ln)
    ensures forall c :: 0 <= c < m * r ==> hard[c] == if cl[c] == ignoreIndex then 0.0 else soft[c]
  {
    forall c | 0 <= c < m * r ensures hard[c] == if cl[c] == ignoreIndex then 0.0 else soft[c] {
      assert EncodesLine(v, cl, m, n, r, c, ignoreIndex);
      ColumnNonNegative(prob, m, n, r, c);
      if cl[c] != ignoreIndex {
        HardIsSoftLoss(ln, cl[c], ignoreIndex, Column(prob, m, n, r, c));
      }
    }
  }

  lemma HardLineIsSoftGrad(v: seq<real>, cl: seq<int>, p: seq<real>, og: real, m: nat, n: nat, r: nat, c: nat,
                           useSoftmax: bool, ignoreIndex: int)
    requires |v| == |p| == m * (n * r) && |cl| == m * r && c < m * r
    requires EncodesLine(v, cl, m, n, r, c, ignoreIndex) && cl[c] != ignoreIndex
    requires GradFits(Soft(v), p, m, n, r, c, useSoftmax, ignoreIndex)
    ensures GradFits(Hard(cl), p, m, n, r, c, useSoftmax, ignoreIndex)
    ensures LineGrad(Hard(cl), p, og, m, n, r, c, useSoftmax, ignoreIndex)
         == LineGrad(Soft(v), p, og, m, n, r, c, useSoftmax, ignoreIndex)
  {
    if useSoftmax {
      HardIsSoftFused(cl[c], ignoreIndex, Column(p, m, n, r, c), og);
    } else {
      HardIsSoftPlain(cl[c], ignoreIndex, Column(p, m, n, r, c), og);
    }
  }

  /** So does the gradient kernel in either mode, line by line. */
  lemma HardKernelIsSoftGrad(v: seq<real>, cl: seq<int>, p: seq<real>, og: seq<real>, hard: seq<real>, soft: seq<real>,
                             m: nat, n: nat, r: nat, useSoftmax: bool, ignoreIndex: int)
    requires Encodes(v, cl, m, n, r, ignoreIndex)
    requires GradsDone(Hard(cl), p, og, hard, m, n, r, useSoftmax, ignoreIndex)
    requires GradsDone(Soft(v), p, og, soft, m, n, r, useSoftmax, ignoreIndex)
    ensures forall c :: 0 <= c < m * r ==>
      Column(hard, m, n, r, c) == if cl[c] == ignoreIndex then Zeros(n) else Column(soft, m, n, r, c)
  {
    forall c | 0 <= c < m * r
      ensures Column(hard, m, n, r, c) == if cl[c] == ignoreIndex then Zeros(n) else Column(soft, m, n, r, c)
    {
      assert EncodesLine(v, cl, m, n, r, c, ignoreIndex);
      assert GradDone(Hard(cl), p, og, hard, m, n, r, c, useSoftmax, ignoreIndex);
      assert GradDone(Soft(v), p, og, soft, m, n, r, c, useSoftmax, ignoreIndex);
      if cl[c] == ignoreIndex {
        IgnoredLine(cl, p, og[c], m, n, r, c, useSoftmax, ignoreIndex);
      } else {
        HardLineIsSoftGrad(v, cl, p, og[c], m, n, r, c, useSoftmax, ignoreIndex);
      }
    }
  }

  lemma IgnoredLine(cl: seq<int>, p: seq<real>, og: real, m: nat, n: nat, r: nat, c: nat,
                    useSoftmax: bool, ignoreIndex: int)
    requires |p| == m * (n * r) && |cl| == m * r && c < m * r && cl[c] == ignoreIndex
    ensures GradFits(Hard(cl), p, m, n, r, c, useSoftmax, ignoreIndex)
    ensures LineGrad(Hard(cl), p, og, m, n, r, c, useSoftmax, ignoreIndex) == Zeros(n)
  {
  }
}
