/**
  `MatmulKernel` and `MatmulGradKernel`, and the theorem that the latter computes the adjoints
  of the former.
 */
module MatmulGrad {
  import opened Indexing
  import opened Sums
  import opened Gemms
  import opened Pairing
  import opened Matmul
  import opened MatrixProduct
  import opened Options

  datatype Outcome = Done(dims: seq<nat>, data: seq<real>) | CheckFailed

  lemma ForwardSizes(xd: seq<nat>, yd: seq<nat>, tx: bool, ty: bool)
    requires Supported(xd, yd) && ForwardCall(xd, yd, tx, ty).Call?
    requires |xd| == |yd| == 2 ==> Cols(xd, tx) == Rows(yd, ty)
    ensures var g := ForwardCall(xd, yd, tx, ty).gemm; Product(xd) == g.XSize() && Product(yd) == g.YSize()
  {
    if |xd| == 1 { ProductByRank(xd); } else { ProductRowsCols(xd, tx); }
    if |yd| == 1 { ProductByRank(yd); } else { ProductRowsCols(yd, ty); }
  }

  lemma ForwardFits(xd: seq<nat>, yd: seq<nat>, tx: bool, ty: bool, x: seq<real>, y: seq<real>)
    requires Operands(xd, yd, tx, ty, x, y) && ForwardCall(xd, yd, tx, ty).Call?
    ensures var g, size := ForwardCall(xd, yd, tx, ty).gemm, Product(ReadShape(xd, yd, tx, ty));
      && g.Fits(x, y)
      && (size <= |y| ==> g.Fits(x, y[..size]))
  {
    var g, read := ForwardCall(xd, yd, tx, ty).gemm, ReadShape(xd, yd, tx, ty);
    ForwardReads(xd, yd, tx, ty);
    ForwardExtents(xd, yd, tx, ty);
    ForwardSizes(xd, read, tx, ty);
    if Product(read) <= |y| {
      FitsBySize(g, x, y[..Product(read)]);
      FitsLonger(g, x, y, Product(read));
    }
  }

  lemma FitsLonger(g: Gemm, x: seq<real>, y: seq<real>, size: nat)
    requires size <= |y| && g.Fits(x, y[..size])
    ensures g.Fits(x, y)
  {
    forall b: nat, i: nat, j: nat, l: nat | b < g.batch && i < g.m && j < g.n && l < g.k
      ensures g.InReach(x, y, b, i, j, l)
    {
      assert g.InReach(x, y[..size], b, i, j, l);
    }
  }

  /** What lies past the elements a loop nest reads makes no difference to it. */
  lemma RunOnPrefix(g: Gemm, x: seq<real>, y: seq<real>, size: nat)
    requires size <= |y| && g.Fits(x, y[..size])
    ensures Run(g, x, y) == Run(g, x, y[..size])
  {
    forall b: nat, q: nat | b < g.batch && q < g.m * g.n
      ensures CellAt(g, x, y, b, q) == CellAt(g, x, y[..size], b, q)
    {
      RowColBound(g, q);
      CellOnPrefix(g, x, y, size, b, g.Row(q), g.Col(q));
    }
    forall o | 0 <= o < g.OutSize() ensures OutputAt(g, x, y, o) == OutputAt(g, x, y[..size], o) {
      if g.reduceBs {
        SumEq(g.batch, CellColumn(g, x, y, o), CellColumn(g, x, y[..size], o));
      } else {
        var b, q := SplitPosition(g.batch, g.m * g.n, o);
        DivModUnique(b, q, g.m * g.n);
      }
    }
  }

  lemma CellOnPrefix(g: Gemm, x: seq<real>, y: seq<real>, size: nat, b: nat, i: nat, j: nat)
    requires size <= |y| && g.Fits(x, y[..size]) && b < g.batch && i < g.m && j < g.n
    ensures Cell(g, x, y, b, i, j) == Cell(g, x, y[..size], b, i, j)
  {
    forall l: nat | l < g.k ensures Factors(g, x, y, b, i, j)(l) == Factors(g, x, y[..size], b, i, j)(l) {
      assert g.InReach(x, y[..size], b, i, j, l);
    }
    SumEq(g.k, Factors(g, x, y, b, i, j), Factors(g, x, y[..size], b, i, j));
  }

  /**
    `MatmulKernel`: the matrix product of x and what it takes y for, which is y itself for conformable
    operands with at most one batch. Only matrices and vectors of unequal inner extents are refused.
   */
  method MatmulKernel(x: seq<real>, xd: seq<nat>, y: seq<real>, yd: seq<nat>, tx: bool, ty: bool)
    returns (r: Outcome)
    requires Operands(xd, yd, tx, ty, x, y)
    ensures var c := ForwardCall(xd, yd, tx, ty);
      r == if c.DimMismatch? then CheckFailed else Done(c.outDims, Run(c.gemm, x, y))
    ensures r.CheckFailed? <==> InnerOfX(xd, tx) != InnerOfY(yd, ty) && !(|xd| == |yd| == 2)
    ensures r.Done? ==> r.dims == ProductDims(xd, yd, tx, ty) && |r.data| == Product(r.dims)
    ensures r.Done? ==>
      var read := ReadShape(xd, yd, tx, ty);
      && Conformable(xd, read, tx, ty)
      && (Product(read) <= |y| ==> IsMatrixProduct(xd, read, tx, ty, x, y[..Product(read)], r.data))
    ensures r.Done? && Supported(xd, yd) && Conformable(xd, yd, tx, ty) ==>
      IsMatrixProduct(xd, yd, tx, ty, x, y, r.data)
  {
    ForwardShape(xd, yd, tx, ty);
    match ForwardCall(xd, yd, tx, ty)
    case DimMismatch => return CheckFailed;
    case Call(outDims, g) =>
      ForwardFits(xd, yd, tx, ty, x, y);
      ForwardReads(xd, yd, tx, ty);
      OutDimsSize(xd, yd, tx, ty);
      var size := Product(ReadShape(xd, yd, tx, ty));
      if size <= |y| {
        RunOnPrefix(g, x, y, size);
        ForwardIsProduct(xd, ReadShape(xd, yd, tx, ty), tx, ty, x, y[..size]);
        assert size == |y| ==> y[..size] == y;
      }
      var out := new real[g.OutSize()];
      BatchedGemm(g, x, y, out);
      return Done(outDims, out[..]);
  }

  lemma GradFits(xd: seq<nat>, yd: seq<nat>, tx: bool, ty: bool, x: seq<real>, y: seq<real>, dout: seq<real>)
    requires Differentiable(xd, yd, tx, ty, x, y, dout)
    ensures GradXCall(xd, yd, tx, ty).Fits(dout, y) && GradXCall(xd, yd, tx, ty).OutSize() == |x|
    ensures GradYCall(xd, yd, tx, ty).OutSize() == |y|
    ensures |xd| == |yd| == 1 ==> GradYCall(xd, yd, tx, ty).Fits(dout, x)
    ensures !(|xd| == |yd| == 1) ==> GradYCall(xd, yd, tx, ty).Fits(x, dout)
  {
    GradXSizes(xd, yd, tx, ty);
    GradYSizes(xd, yd, tx, ty);
    FitsBySize(GradXCall(xd, yd, tx, ty), dout, y);
    if |xd| == |yd| == 1 {
      FitsBySize(GradYCall(xd, yd, tx, ty), dout, x);
    } else {
      FitsBySize(GradYCall(xd, yd, tx, ty), x, dout);
    }
  }

  /** A forward product writes one matrix a batch, untransposed. */
  predicate IsForward(f: Gemm) {
    !f.transOut && !f.bsFlag && !f.reduceBs
  }

  /** dx = dout * y', stored as x is; summed over the batches when only y has them. */
  predicate LeftShape(h: Gemm, f: Gemm) {
    && h.m == f.m && h.k == f.n && h.n == f.k && h.batch == f.batch && h.xIsLarger == f.xIsLarger
    && h.bsFlag == h.reduceBs == !f.xIsLarger && !h.transX
    && h.transOut == f.transX
    && (h.transY == !f.transY || (f.n == 1 && h.transY == f.transY == false))
  }

  /** dy = x' * dout, stored as y is; summed over the batches when only x has them. */
  predicate RightShape(h: Gemm, f: Gemm) {
    && h.m == f.k && h.k == f.m && h.n == f.n && h.batch == f.batch && h.xIsLarger == f.xIsLarger
    && h.bsFlag == h.reduceBs && (h.bsFlag == f.xIsLarger || f.batch == 1) && !h.transY
    && h.transOut == f.transY
    && (h.transX == !f.transX || (f.m == 1 && h.transX == f.transX == false))
  }

  /** The batch-reducing product that dy amounts to. */
  function ReducedY(xd: seq<nat>, yd: seq<nat>, tx: bool, ty: bool): Gemm
    requires Supported(xd, yd) && |xd| == 3 && |yd| == 2
  {
    Gemm(!tx, false, Rows(yd, ty), Rows(xd, tx), Cols(yd, ty), xd[0], true, ty, true, true)
  }

  lemma ShapeSizes(h: Gemm, f: Gemm)
    requires IsForward(f)
    ensures LeftShape(h, f) ==>
      h.OutSize() == f.XSize() && h.XSize() == f.OutSize() && h.YSize() == f.YSize()
    ensures RightShape(h, f) ==>
      h.OutSize() == f.YSize() && h.XSize() == f.XSize() && h.YSize() == f.OutSize()
  {
    assert f.m * f.k == f.k * f.m && f.k * f.n == f.n * f.k;
  }

  lemma GradXSizes(xd: seq<nat>, yd: seq<nat>, tx: bool, ty: bool)
    requires Supported(xd, yd) && ForwardCall(xd, yd, tx, ty).Call?
    requires |xd| == |yd| == 2 ==> Cols(xd, tx) == Rows(yd, ty)
    ensures var f, h := ForwardCall(xd, yd, tx, ty).gemm, GradXCall(xd, yd, tx, ty);
      h.OutSize() == Product(xd) && h.XSize() == f.OutSize() && h.YSize() == Product(yd)
  {
    var f, h := ForwardCall(xd, yd, tx, ty).gemm, GradXCall(xd, yd, tx, ty);
    ForwardSizes(xd, yd, tx, ty);
    assert IsForward(f) && LeftShape(h, f);
    ShapeSizes(h, f);
  }

  lemma GradYSizes(xd: seq<nat>, yd: seq<nat>, tx: bool, ty: bool)
    requires Supported(xd, yd) && ForwardCall(xd, yd, tx, ty).Call?
    requires |xd| == |yd| == 2 ==> Cols(xd, tx) == Rows(yd, ty)
    ensures var f, h := ForwardCall(xd, yd, tx, ty).gemm, GradYCall(xd, yd, tx, ty);
      && h.OutSize() == Product(yd)
      && (|xd| == |yd| == 1 ==> h.XSize() == f.OutSize() && h.YSize() == Product(xd))
      && (!(|xd| == |yd| == 1) ==> h.XSize() == Product(xd) && h.YSize() == f.OutSize())
  {
    var f, h := ForwardCall(xd, yd, tx, ty).gemm, GradYCall(xd, yd, tx, ty);
    ForwardSizes(xd, yd, tx, ty);
    if |xd| == 3 && |yd| == 2 {
      FlatSizes(f.batch, f.m, f.k, f.n);
    } else if |xd| == 1 && |yd| == 1 {
    } else {
      assert RightShape(h, f);
      ShapeSizes(h, f);
    }
  }

  lemma FlatSizes(b: nat, m: nat, k: nat, n: nat)
    ensures b * (m * k) == k * (m * b) && b * (m * n) == m * b * n
  {
  }

  /** `MatmulGradKernel`; either gradient may be left out. */
  method MatmulGradKernel(x: seq<real>, xd: seq<nat>, y: seq<real>, yd: seq<nat>, dout: seq<real>,
                          tx: bool, ty: bool, wantDx: bool, wantDy: bool)
    returns (dx: Option<seq<real>>, dy: Option<seq<real>>)
    requires Differentiable(xd, yd, tx, ty, x, y, dout)
    ensures dx == if wantDx then Some(GradX(xd, yd, tx, ty, dout, y)) else None
    ensures dy == if wantDy then Some(GradY(xd, yd, tx, ty, x, dout)) else None
  {
    GradFits(xd, yd, tx, ty, x, y, dout);
    dx, dy := None, None;
    if wantDx {
      var out := new real[|x|];
      BatchedGemm(GradXCall(xd, yd, tx, ty), dout, y, out);
      dx := Some(out[..]);
    }
    if wantDy {
      var out := new real[|y|];
      if |xd| == 1 && |yd| == 1 {
        BatchedGemm(GradYCall(xd, yd, tx, ty), dout, x, out);
      } else {
        BatchedGemm(GradYCall(xd, yd, tx, ty), x, dout, out);
      }
      dy := Some(out[..]);
    }
  }

  ghost function Forward(xd: seq<nat>, yd: seq<nat>, tx: bool, ty: bool, x: seq<real>, y: seq<real>): seq<real>
    requires Supported(xd, yd) && ForwardCall(xd, yd, tx, ty).Call?
  {
    Run(ForwardCall(xd, yd, tx, ty).gemm, x, y)
  }

  ghost function GradX(xd: seq<nat>, yd: seq<nat>, tx: bool, ty: bool, dout: seq<real>, y: seq<real>): seq<real>
    requires Supported(xd, yd)
  {
    Run(GradXCall(xd, yd, tx, ty), dout, y)
  }

  ghost function GradY(xd: seq<nat>, yd: seq<nat>, tx: bool, ty: bool, x: seq<real>, dout: seq<real>): seq<real>
    requires Supported(xd, yd)
  {
    if |xd| == 1 && |yd| == 1 then Run(GradYCall(xd, yd, tx, ty), dout, x)
    else Run(GradYCall(xd, yd, tx, ty), x, dout)
  }

  // ---------- the adjoint theorems ----------

  lemma LeftShapeMatches(h: Gemm, f: Gemm, b: nat, i: nat, j: nat, l: nat)
    requires IsForward(f) && LeftShape(h, f) && b < f.batch && i < f.m && j < f.n && l < f.k
    ensures LeftMatch(h, f, b, i, j, l)
  {
    var batchY := b * (f.k * f.n);
    assert batchY == b * (h.k * h.n);
    if h.transY == f.transY {
      assert j * h.n == 0;
      assert l * f.n == l;
    }
  }

  lemma GradXPositions(xd: seq<nat>, yd: seq<nat>, tx: bool, ty: bool)
    requires Supported(xd, yd) && ForwardCall(xd, yd, tx, ty).Call?
    requires |xd| == |yd| == 2 ==> Cols(xd, tx) == Rows(yd, ty)
    ensures LeftGradientOf(GradXCall(xd, yd, tx, ty), ForwardCall(xd, yd, tx, ty).gemm)
  {
    var f, h := ForwardCall(xd, yd, tx, ty).gemm, GradXCall(xd, yd, tx, ty);
    assert IsForward(f) && LeftShape(h, f);
    forall b: nat, i: nat, j: nat, l: nat | b < f.batch && i < f.m && j < f.n && l < f.k
      ensures LeftMatch(h, f, b, i, j, l)
    {
      LeftShapeMatches(h, f, b, i, j, l);
    }
  }

  /** dx is the adjoint of the product in its left operand, for every supported rank and flag. */
  lemma DxIsAdjoint(xd: seq<nat>, yd: seq<nat>, tx: bool, ty: bool, v: seq<real>, y: seq<real>, dout: seq<real>)
    requires Differentiable(xd, yd, tx, ty, v, y, dout)
    ensures Inner(Forward(xd, yd, tx, ty, v, y), dout) == Inner(GradX(xd, yd, tx, ty, dout, y), v)
  {
    GradXPositions(xd, yd, tx, ty);
    LeftAdjoint(GradXCall(xd, yd, tx, ty), ForwardCall(xd, yd, tx, ty).gemm, v, y, dout);
  }

  lemma RightShapeMatches(h: Gemm, f: Gemm, b: nat, i: nat, j: nat, l: nat)
    requires IsForward(f) && RightShape(h, f) && b < f.batch && i < f.m && j < f.n && l < f.k
    ensures RightMatch(h, f, b, i, j, l)
  {
    assert b * (f.m * f.k) == b * (h.m * h.k);
    if f.batch == 1 { assert b == 0; }
    if h.transX == f.transX {
      assert i * f.k == 0;
      assert l * h.k == l;
    }
  }

  lemma GradYPositions(xd: seq<nat>, yd: seq<nat>, tx: bool, ty: bool)
    requires Supported(xd, yd) && ForwardCall(xd, yd, tx, ty).Call? && !(|xd| == |yd| == 1)
    requires |xd| == |yd| == 2 ==> Cols(xd, tx) == Rows(yd, ty)
    ensures |xd| == 3 && |yd| == 2 ==> RightGradientOf(ReducedY(xd, yd, tx, ty), ForwardCall(xd, yd, tx, ty).gemm)
    ensures !(|xd| == 3 && |yd| == 2) ==> RightGradientOf(GradYCall(xd, yd, tx, ty), ForwardCall(xd, yd, tx, ty).gemm)
  {
    var f := ForwardCall(xd, yd, tx, ty).gemm;
    var h := if |xd| == 3 && |yd| == 2 then ReducedY(xd, yd, tx, ty) else GradYCall(xd, yd, tx, ty);
    assert IsForward(f) && RightShape(h, f);
    forall b: nat, i: nat, j: nat, l: nat | b < f.batch && i < f.m && j < f.n && l < f.k
      ensures RightMatch(h, f, b, i, j, l)
    {
      RightShapeMatches(h, f, b, i, j, l);
    }
  }

  /** dy is the adjoint in the right operand, wherever the batch does not have to be flattened. */
  lemma DyIsAdjoint(xd: seq<nat>, yd: seq<nat>, tx: bool, ty: bool, x: seq<real>, v: seq<real>, dout: seq<real>)
    requires Differentiable(xd, yd, tx, ty, x, v, dout)
    requires |xd| == 3 && |yd| == 2 ==> !tx
    ensures Inner(Forward(xd, yd, tx, ty, x, v), dout) == Inner(GradY(xd, yd, tx, ty, x, dout), v)
  {
    var f, h := ForwardCall(xd, yd, tx, ty).gemm, GradYCall(xd, yd, tx, ty);
    if |xd| == 1 && |yd| == 1 {
      VectorGradient(xd[0], x, dout);
      RightAdjoint(Single(false, false, xd[0], 1, 1), f, x, v, dout);
    } else {
      GradYPositions(xd, yd, tx, ty);
      if |xd| == 3 && |yd| == 2 {
        UntransposedFlattens(xd, yd, ty);
        FlattenedBatch(h, ReducedY(xd, yd, tx, ty), x, dout);
        RightAdjoint(ReducedY(xd, yd, tx, ty), f, x, v, dout);
      } else {
        RightAdjoint(h, f, x, v, dout);
      }
    }
  }

  lemma VectorGradient(n: nat, x: seq<real>, dout: seq<real>)
    ensures Run(Single(false, false, 1, 1, n), dout, x) == Run(Single(false, false, n, 1, 1), x, dout)
    ensures RightGradientOf(Single(false, false, n, 1, 1), Single(false, false, 1, n, 1))
  {
    var h, h', f := Single(false, false, 1, 1, n), Single(false, false, n, 1, 1), Single(false, false, 1, n, 1);
    assert h.OutSize() == n && h'.OutSize() == n;
    forall q: nat | q < n ensures Run(h, dout, x)[q] == Run(h', x, dout)[q] {
      RunAt(h, dout, x, 0, 0, q);
      RunAt(h', x, dout, 0, q, 0);
      VectorCell(n, x, dout, q);
    }
    forall b: nat, i: nat, j: nat, l: nat | b < 1 && i < 1 && j < 1 && l < n ensures RightMatch(h', f, b, i, j, l) {
    }
  }

  lemma VectorCell(n: nat, x: seq<real>, dout: seq<real>, q: nat)
    requires q < n
    ensures Cell(Single(false, false, 1, 1, n), dout, x, 0, 0, q)
         == Cell(Single(false, false, n, 1, 1), x, dout, 0, q, 0)
  {
    var f := Factors(Single(false, false, 1, 1, n), dout, x, 0, 0, q);
    assert Sum(1, f) == Sum(0, f) + f(0);
  }

  /** Term `l` of batch `b` is term `b * k + l` of the flattened product. */
  predicate FlatMatch(flat: Gemm, red: Gemm, b: nat, i: nat, j: nat, l: nat) {
    && flat.XPos(0, i, b * red.k + l) == red.XPos(b, i, l)
    && flat.YPos(0, b * red.k + l, j) == red.YPos(b, l, j)
  }

  ghost predicate Flattens(flat: Gemm, red: Gemm) {
    && flat.m == red.m && flat.n == red.n && flat.k == red.batch * red.k && flat.transOut == red.transOut
    && flat.batch == 1 && !flat.reduceBs && red.reduceBs
    && forall b: nat, i: nat, j: nat, l: nat ::
      b < red.batch && i < red.m && j < red.n && l < red.k ==> FlatMatch(flat, red, b, i, j, l)
  }

  /** One product over the flattened batch is the batched product summed over the batches. */
  lemma FlattenedBatch(flat: Gemm, red: Gemm, x: seq<real>, y: seq<real>)
    requires Flattens(flat, red)
    ensures Run(flat, x, y) == Run(red, x, y)
  {
    assert flat.OutSize() == red.OutSize();
    forall q: nat | q < red.m * red.n ensures Run(flat, x, y)[q] == Run(red, x, y)[q] {
      RowColBound(red, q);
      FlattenedCell(flat, red, x, y, red.Row(q), red.Col(q));
      RunAt(flat, x, y, 0, red.Row(q), red.Col(q));
      SummedCells(red, x, y, q);
    }
  }

  lemma SummedCells(red: Gemm, x: seq<real>, y: seq<real>, q: nat)
    requires q < red.m * red.n
    ensures Summed(red, x, y, red.batch, q)
         == Sum(red.batch, (b: nat) => Cell(red, x, y, b, red.Row(q), red.Col(q)))
  {
    SumEq(red.batch, CellColumn(red, x, y, q), (b: nat) => Cell(red, x, y, b, red.Row(q), red.Col(q)));
  }

  lemma FlatFactors(flat: Gemm, red: Gemm, x: seq<real>, y: seq<real>, b: nat, i: nat, j: nat, l: nat)
    requires Flattens(flat, red) && b < red.batch && i < red.m && j < red.n && l < red.k
    ensures Factors(red, x, y, b, i, j)(l) == Factors(flat, x, y, 0, i, j)(b * red.k + l)
  {
    assert FlatMatch(flat, red, b, i, j, l);
  }

  lemma FlattenedCell(flat: Gemm, red: Gemm, x: seq<real>, y: seq<real>, i: nat, j: nat)
    requires Flattens(flat, red) && i < red.m && j < red.n
    ensures Cell(flat, x, y, 0, i, j) == Sum(red.batch, (b: nat) => Cell(red, x, y, b, i, j))
  {
    var f := Factors(flat, x, y, 0, i, j);
    var g := (b: nat, l: nat) => Factors(red, x, y, b, i, j)(l);
    forall b: nat, l: nat | b < red.batch && l < red.k ensures g(b, l) == f(b * red.k + l) {
      FlatFactors(flat, red, x, y, b, i, j, l);
    }
    var cells := (b: nat) => Cell(red, x, y, b, i, j);
    forall b: nat | b < red.batch ensures cells(b) == Sum(red.k, (l: nat) => g(b, l)) {
      SumEq(red.k, (l: nat) => g(b, l), Factors(red, x, y, b, i, j));
    }
    FlattenedSum(red.batch, red.k, f, g, cells);
  }

  lemma FlattenedSum(m: nat, n: nat, f: nat -> real, g: (nat, nat) -> real, h: nat -> real)
    requires forall i: nat, j: nat :: i < m && j < n ==> g(i, j) == f(i * n + j)
    requires forall i: nat :: i < m ==> h(i) == Sum(n, (j: nat) => g(i, j))
    ensures Sum(m * n, f) == Sum(m, h)
  {
    SumFlatten(m, n, f, g);
    SumOfSums(m, n, g, h);
  }

  /** The gradient of a 3D x 2D product reads a batch of x as extra rows. */
  lemma UntransposedFlattens(xd: seq<nat>, yd: seq<nat>, ty: bool)
    requires |xd| == 3 && |yd| == 2
    ensures Flattens(GradYCall(xd, yd, false, ty), ReducedY(xd, yd, false, ty))
  {
    var flat, red := GradYCall(xd, yd, false, ty), ReducedY(xd, yd, false, ty);
    assert red.k * red.batch == red.batch * red.k;
    forall b: nat, i: nat, j: nat, l: nat | b < red.batch && i < red.m && j < red.n && l < red.k
      ensures FlatMatch(flat, red, b, i, j, l)
    {
      FlatPosition(b, l, red.k, red.m);
      FlatPosition(b, l, red.k, red.n);
    }
  }

  lemma FlatPosition(b: nat, l: nat, k: nat, m: nat)
    ensures (b * k + l) * m == b * (k * m) + l * m
    ensures (b * k + l) * m == b * (m * k) + l * m
  {
  }

  // ---------- the flattened batch under transpose_x ----------

  /** A buffer holding a single one. */
  function Unit(n: nat, p: nat): seq<real> {
    seq(n, i => if i == p then 1.0 else 0.0)
  }

  lemma InnerUnit(a: seq<real>, n: nat, p: nat)
    requires |a| == n && p < n
    ensures Inner(a, Unit(n, p)) == a[p]
  {
    var f := (i: nat) => Get(a, i) * Get(Unit(n, p), i);
    forall i: nat | i < n ensures f(i) == if i == p then a[p] else 0.0 {
      assert Get(Unit(n, p), i) == if i == p then 1.0 else 0.0;
    }
    SumSingle(n, f, p);
  }

  /** A buffer is determined by its pairings, so there is only one adjoint. */
  lemma PairingDetermines(a: seq<real>, c: seq<real>)
    requires |a| == |c| && forall v | |v| == |a| :: Inner(a, v) == Inner(c, v)
    ensures a == c
  {
    forall p | 0 <= p < |a| ensures a[p] == c[p] {
      InnerUnit(a, |a|, p);
      InnerUnit(c, |a|, p);
    }
  }

  /**
    For a 3D x read transposed, the flattened product takes the batches of x for its columns. The
    gradient is still right when there is one batch, one inner index, or nothing to sum.
   */
  predicate FlatLayoutAgrees(xd: seq<nat>, yd: seq<nat>, ty: bool)
    requires |xd| == 3 && |yd| == 2
  {
    xd[0] <= 1 || xd[1] <= 1 || xd[2] == 0 || Cols(yd, ty) == 0
  }

  ghost predicate DyAlwaysAdjoint(xd: seq<nat>, yd: seq<nat>, ty: bool)
    requires |xd| == 3 && |yd| == 2 && ForwardCall(xd, yd, true, ty).Call?
  {
    forall x, v, dout | Differentiable(xd, yd, true, ty, x, v, dout) ::
      Inner(Forward(xd, yd, true, ty, x, v), dout) == Inner(GradY(xd, yd, true, ty, x, dout), v)
  }

  lemma TransposedBatchGradient(xd: seq<nat>, yd: seq<nat>, ty: bool)
    requires |xd| == 3 && |yd| == 2 && ForwardCall(xd, yd, true, ty).Call?
    ensures DyAlwaysAdjoint(xd, yd, ty) <==> FlatLayoutAgrees(xd, yd, ty)
  {
    if FlatLayoutAgrees(xd, yd, ty) {
      forall x, v, dout | Differentiable(xd, yd, true, ty, x, v, dout)
        ensures Inner(Forward(xd, yd, true, ty, x, v), dout) == Inner(GradY(xd, yd, true, ty, x, dout), v)
      {
        GradYPositions(xd, yd, true, ty);
        RightAdjoint(ReducedY(xd, yd, true, ty), ForwardCall(xd, yd, true, ty).gemm, x, v, dout);
        AgreeingLayouts(xd, yd, ty, x, dout);
      }
    } else {
      MisreadBatch(xd, yd, ty);
    }
  }

  lemma AgreeingLayouts(xd: seq<nat>, yd: seq<nat>, ty: bool, x: seq<real>, dout: seq<real>)
    requires |xd| == 3 && |yd| == 2 && ForwardCall(xd, yd, true, ty).Call?
    requires FlatLayoutAgrees(xd, yd, ty)
    ensures GradY(xd, yd, true, ty, x, dout) == Run(ReducedY(xd, yd, true, ty), x, dout)
  {
    var flat, red := GradYCall(xd, yd, true, ty), ReducedY(xd, yd, true, ty);
    assert red.k * red.batch == red.batch * red.k;
    forall b: nat, i: nat, j: nat, l: nat | b < red.batch && i < red.m && j < red.n && l < red.k
      ensures FlatMatch(flat, red, b, i, j, l)
    {
      AgreeingPosition(red.batch, red.k, red.m, b, l, i);
      FlatPosition(b, l, red.k, red.n);
    }
    FlattenedBatch(flat, red, x, dout);
  }

  lemma AgreeingPosition(batch: nat, m: nat, k: nat, b: nat, l: nat, i: nat)
    requires b < batch && l < m && i < k && (batch <= 1 || k <= 1)
    ensures i * (m * batch) + (b * m + l) == b * (k * m) + (i * m + l)
  {
  }

  /** Otherwise there is a concrete x, v and dout on which the gradient is wrong. */
  lemma MisreadBatch(xd: seq<nat>, yd: seq<nat>, ty: bool)
    requires |xd| == 3 && |yd| == 2 && ForwardCall(xd, yd, true, ty).Call?
    requires !FlatLayoutAgrees(xd, yd, ty)
    ensures !DyAlwaysAdjoint(xd, yd, ty)
  {
    var f := ForwardCall(xd, yd, true, ty).gemm;
    var m, n := xd[2], Cols(yd, ty);
    ForwardSizes(xd, yd, true, ty);
    MisreadBounds(xd[0], xd[1], m, n);
    var x, v, dout := Unit(Product(xd), m), Unit(Product(yd), 0), Unit(f.OutSize(), m * n);
    assert Differentiable(xd, yd, true, ty, x, v, dout);
    InnerUnit(Forward(xd, yd, true, ty, x, v), f.OutSize(), m * n);
    MisreadForward(xd, yd, ty);
    GradYSizes(xd, yd, true, ty);
    InnerUnit(GradY(xd, yd, true, ty, x, dout), Product(yd), 0);
    MisreadGradient(xd, yd, ty);
  }

  lemma MisreadForward(xd: seq<nat>, yd: seq<nat>, ty: bool)
    requires |xd| == 3 && |yd| == 2 && ForwardCall(xd, yd, true, ty).Call? && !FlatLayoutAgrees(xd, yd, ty)
    ensures var f, p := ForwardCall(xd, yd, true, ty).gemm, xd[2] * Cols(yd, ty);
      p < f.OutSize() && Forward(xd, yd, true, ty, Unit(Product(xd), xd[2]), Unit(Product(yd), 0))[p] == 0.0
  {
    var f := ForwardCall(xd, yd, true, ty).gemm;
    var x, v := Unit(Product(xd), xd[2]), Unit(Product(yd), 0);
    MisreadBounds(xd[0], xd[1], xd[2], Cols(yd, ty));
    RunAt(f, x, v, 1, 0, 0);
    forall l: nat | l < f.k ensures Factors(f, x, v, 1, 0, 0)(l) == 0.0 {
      PositionPast(f.m, f.k, l);
      assert f.XPos(1, 0, l) > xd[2];
    }
    SumZero(f.k, Factors(f, x, v, 1, 0, 0));
  }

  lemma PositionPast(m: nat, k: nat, l: nat)
    requires k > 1 && m > 0
    ensures 1 * (m * k) + (l * m + 0) > m
  {
    assert m * k >= m * 2;
  }

  lemma MisreadGradient(xd: seq<nat>, yd: seq<nat>, ty: bool)
    requires |xd| == 3 && |yd| == 2 && ForwardCall(xd, yd, true, ty).Call? && !FlatLayoutAgrees(xd, yd, ty)
    ensures var f := ForwardCall(xd, yd, true, ty).gemm;
      var dout := Unit(f.OutSize(), xd[2] * Cols(yd, ty));
      var dy := GradY(xd, yd, true, ty, Unit(Product(xd), xd[2]), dout);
      |dy| > 0 && dy[0] == 1.0
  {
    var f, h := ForwardCall(xd, yd, true, ty).gemm, GradYCall(xd, yd, true, ty);
    var b, m, n := xd[0], xd[2], Cols(yd, ty);
    var x, dout := Unit(Product(xd), m), Unit(f.OutSize(), m * n);
    ForwardSizes(xd, yd, true, ty);
    MisreadBounds(b, xd[1], m, n);
    RunAt(h, x, dout, 0, 0, 0);
    SumSingle(m * b, Factors(h, x, dout, 0, 0, 0), m);
  }

  lemma MisreadBounds(b: nat, k: nat, m: nat, n: nat)
    requires b > 1 && k > 1 && m > 0 && n > 0
    ensures m < b * (m * k) && 0 < k * n && m * n < b * (m * n) && m < m * b
    ensures m * k > m
  {
  }
}
