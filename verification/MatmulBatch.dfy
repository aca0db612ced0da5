/** When the product of two batches is what it should be, although `MatmulKernel` reads only y's first matrix. */
module MatmulBatch {
  import opened Indexing
  import opened Sums
  import opened Gemms
  import opened Matmul
  import opened MatrixProduct
  import opened MatmulGrad

  /** Two batches of as many conformable matrices. */
  predicate Batched(xd: seq<nat>, yd: seq<nat>, tx: bool, ty: bool) {
    |xd| == |yd| == 3 && Conformable(xd, yd, tx, ty)
  }

  /** For all elements the loop nest computes the product, batch by batch. */
  ghost predicate AlwaysProduct(xd: seq<nat>, yd: seq<nat>, tx: bool, ty: bool)
    requires Batched(xd, yd, tx, ty)
  {
    forall x: seq<real>, y: seq<real> | |x| == Product(xd) && |y| == Product(yd) ::
      IsMatrixProduct(xd, yd, tx, ty, x, y, Run(ForwardCall(xd, yd, tx, ty).gemm, x, y))
  }

  /** There is one matrix a batch at most, or no term in any sum, or no element. */
  predicate NothingPastFirst(xd: seq<nat>, yd: seq<nat>, tx: bool, ty: bool)
    requires Batched(xd, yd, tx, ty)
  {
    xd[0] <= 1 || Rows(xd, tx) == 0 || Cols(xd, tx) == 0 || Cols(yd, ty) == 0
  }

  lemma BatchOfYUnread(xd: seq<nat>, yd: seq<nat>, tx: bool, ty: bool)
    requires Batched(xd, yd, tx, ty)
    ensures AlwaysProduct(xd, yd, tx, ty) <==> NothingPastFirst(xd, yd, tx, ty)
  {
    if NothingPastFirst(xd, yd, tx, ty) {
      forall x: seq<real>, y: seq<real> | |x| == Product(xd) && |y| == Product(yd)
        ensures IsMatrixProduct(xd, yd, tx, ty, x, y, Run(ForwardCall(xd, yd, tx, ty).gemm, x, y))
      {
        FirstIsEnough(xd, yd, tx, ty, x, y);
      }
    } else {
      SecondIsMissed(xd, yd, tx, ty);
    }
  }

  lemma FirstIsEnough(xd: seq<nat>, yd: seq<nat>, tx: bool, ty: bool, x: seq<real>, y: seq<real>)
    requires Batched(xd, yd, tx, ty) && NothingPastFirst(xd, yd, tx, ty)
    requires |x| == Product(xd) && |y| == Product(yd)
    ensures IsMatrixProduct(xd, yd, tx, ty, x, y, Run(ForwardCall(xd, yd, tx, ty).gemm, x, y))
  {
    var g := ForwardCall(xd, yd, tx, ty).gemm;
    OutDimsSize(xd, yd, tx, ty);
    ForwardShape(xd, yd, tx, ty);
    ForwardExtents(xd, yd, tx, ty);
    forall b: nat, i: nat, j: nat | InProduct(xd, yd, tx, ty, b, i, j)
      ensures HoldsEntry(xd, yd, tx, ty, x, y, Run(g, x, y), b, i, j)
    {
      RunAt(g, x, y, b, i, j);
      OutPosition(xd, yd, tx, ty, b, i, j);
      if b == 0 {
        ForwardEntry(xd, yd, tx, ty, x, y, b, i, j);
      }
    }
  }

  // ---------- a single one in y's second matrix ----------

  /** Where y holds its one: the first element of its second matrix. */
  function Second(yd: seq<nat>): nat
    requires |yd| == 3
  {
    yd[1] * yd[2]
  }

  lemma SecondIsMissed(xd: seq<nat>, yd: seq<nat>, tx: bool, ty: bool)
    requires Batched(xd, yd, tx, ty) && !NothingPastFirst(xd, yd, tx, ty)
    ensures !AlwaysProduct(xd, yd, tx, ty)
  {
    var g := ForwardCall(xd, yd, tx, ty).gemm;
    var x, y := seq(Product(xd), _ => 1.0), Unit(Product(yd), Second(yd));
    ForwardShape(xd, yd, tx, ty);
    ForwardExtents(xd, yd, tx, ty);
    OutDimsSize(xd, yd, tx, ty);
    if IsMatrixProduct(xd, yd, tx, ty, x, y, Run(g, x, y)) {
      assert HoldsEntry(xd, yd, tx, ty, x, y, Run(g, x, y), 1, 0, 0);
      RunAt(g, x, y, 1, 0, 0);
      OutPosition(xd, yd, tx, ty, 1, 0, 0);
      MissedByKernel(xd, yd, tx, ty, x);
      PartOfProduct(xd, yd, tx, ty);
    }
  }

  lemma MissedByKernel(xd: seq<nat>, yd: seq<nat>, tx: bool, ty: bool, x: seq<real>)
    requires Batched(xd, yd, tx, ty) && !NothingPastFirst(xd, yd, tx, ty)
    ensures Cell(ForwardCall(xd, yd, tx, ty).gemm, x, Unit(Product(yd), Second(yd)), 1, 0, 0) == 0.0
  {
    var g, y := ForwardCall(xd, yd, tx, ty).gemm, Unit(Product(yd), Second(yd));
    forall l: nat | l < g.k ensures Factors(g, x, y, 1, 0, 0)(l) == 0.0 {
      FirstMatrix(ty, g.k, g.n, l);
      assert g.YPos(1, l, 0) < Second(yd);
    }
    SumZero(g.k, Factors(g, x, y, 1, 0, 0));
  }

  /** The first column of a matrix lies inside it. */
  lemma FirstMatrix(t: bool, k: nat, n: nat, l: nat)
    requires l < k && 0 < n
    ensures (if t then 0 * k + l else l * n + 0) < k * n
  {
    PosBound(l, 0, k, n);
    PosBound(0, l, n, k);
  }

  lemma PartOfProduct(xd: seq<nat>, yd: seq<nat>, tx: bool, ty: bool)
    requires Batched(xd, yd, tx, ty) && !NothingPastFirst(xd, yd, tx, ty)
    ensures Entry(xd, yd, tx, ty, seq(Product(xd), _ => 1.0), Unit(Product(yd), Second(yd)), 1, 0, 0) == 1.0
  {
    var k, x, y := InnerOfX(xd, tx), seq(Product(xd), _ => 1.0), Unit(Product(yd), Second(yd));
    var f := (l: nat) => if l < k then ElementProduct(xd, yd, tx, ty, x, y, 1, 0, 0, l) else 0.0;
    forall l: nat | l < k ensures f(l) == if l == 0 then 1.0 else 0.0 {
      ColumnOfSecond(xd, yd, tx, ty, l);
    }
    SumSingle(k, f, 0);
  }

  lemma ColumnOfSecond(xd: seq<nat>, yd: seq<nat>, tx: bool, ty: bool, l: nat)
    requires Batched(xd, yd, tx, ty) && !NothingPastFirst(xd, yd, tx, ty) && l < InnerOfX(xd, tx)
    ensures ElementProduct(xd, yd, tx, ty, seq(Product(xd), _ => 1.0), Unit(Product(yd), Second(yd)), 1, 0, 0, l)
         == if l == 0 then 1.0 else 0.0
  {
    OperandAddresses(xd, yd, tx, ty, 1, 0, 0, l);
    OnesAt(xd, XIndex(3, tx, 1, 0, l));
    UnitAt(yd, Second(yd), YIndex(3, ty, 1, l, 0));
    ColumnPosition(yd, ty, l);
  }

  lemma ColumnPosition(yd: seq<nat>, ty: bool, l: nat)
    requires |yd| == 3 && Cols(yd, ty) > 0
    ensures Encode(yd, YIndex(3, ty, 1, l, 0)) == Second(yd) <==> l == 0
  {
    OperandPosition(yd, ty, 1, l, 0);
    assert Rows(yd, ty) * Cols(yd, ty) == Second(yd);
    if l > 0 {
      MulMono(1, l, Cols(yd, ty));
    }
  }

  lemma OnesAt(dims: seq<nat>, idx: seq<nat>)
    requires InBounds(idx, dims)
    ensures At(seq(Product(dims), _ => 1.0), dims, idx) == 1.0
  {
    EncodeBound(dims, idx);
  }

  lemma UnitAt(dims: seq<nat>, p: nat, idx: seq<nat>)
    requires InBounds(idx, dims)
    ensures At(Unit(Product(dims), p), dims, idx) == if Encode(dims, idx) == p then 1.0 else 0.0
  {
    EncodeBound(dims, idx);
  }
}
