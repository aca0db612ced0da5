/** The product of two operands of ranks 1 to 3, element by element, and that the kernel's loop nests compute it. */
module MatrixProduct {
  import opened Indexing
  import opened Sums
  import opened Gemms
  import opened Matmul

  // ---------- what a product is ----------

  /** The extent an operand's inner index runs over; a vector has no flag to apply. */
  function InnerOfX(xd: seq<nat>, tx: bool): nat
    requires 1 <= |xd| <= 3
  {
    if |xd| == 1 then xd[0] else Cols(xd, tx)
  }

  function InnerOfY(yd: seq<nat>, ty: bool): nat
    requires 1 <= |yd| <= 3
  {
    if |yd| == 1 then yd[0] else Rows(yd, ty)
  }

  predicate Conformable(xd: seq<nat>, yd: seq<nat>, tx: bool, ty: bool) {
    Ranked(xd, yd) && InnerOfX(xd, tx) == InnerOfY(yd, ty) && (|xd| == |yd| == 3 ==> xd[0] == yd[0])
  }

  /** The coordinates of one factor: its batch if it has one, then its row and column, exchanged by the flag. */
  function OperandIndex(rank: nat, transposed: bool, b: nat, row: nat, col: nat): (idx: seq<nat>)
    requires 2 <= rank <= 3
    ensures |idx| == rank
  {
    (if rank == 3 then [b] else []) + if transposed then [col, row] else [row, col]
  }

  function XIndex(rank: nat, tx: bool, b: nat, i: nat, l: nat): (idx: seq<nat>)
    requires 1 <= rank <= 3
    ensures |idx| == rank
  {
    if rank == 1 then [l] else OperandIndex(rank, tx, b, i, l)
  }

  function YIndex(rank: nat, ty: bool, b: nat, l: nat, j: nat): (idx: seq<nat>)
    requires 1 <= rank <= 3
    ensures |idx| == rank
  {
    if rank == 1 then [l] else OperandIndex(rank, ty, b, l, j)
  }

  /**
    The shape of a product: a batch if either operand has one, x's rows and y's columns; two vectors
    give one element.
   */
  function ProductDims(xd: seq<nat>, yd: seq<nat>, tx: bool, ty: bool): seq<nat>
    requires Ranked(xd, yd)
  {
    if |xd| == |yd| == 1 then [1] else ProductIndex(xd, yd, Batches(xd, yd), RowsOfX(xd, tx), ColsOfY(yd, ty))
  }

  /** One number for each axis of a product. */
  function ProductIndex(xd: seq<nat>, yd: seq<nat>, b: nat, i: nat, j: nat): seq<nat> {
    if |xd| == |yd| == 1 then [0]
    else
      (if |xd| == 3 || |yd| == 3 then [b] else [])
      + (if |xd| >= 2 then [i] else [])
      + (if |yd| >= 2 then [j] else [])
  }

  /** Row `i` and column `j` of batch `b` are in range. */
  predicate InProduct(xd: seq<nat>, yd: seq<nat>, tx: bool, ty: bool, b: nat, i: nat, j: nat) {
    b < Batches(xd, yd) && i < RowsOfX(xd, tx) && j < ColsOfY(yd, ty)
  }

  /** The coordinates above address an element of the product, and elements of the operands. */
  lemma ProductAddress(xd: seq<nat>, yd: seq<nat>, tx: bool, ty: bool, b: nat, i: nat, j: nat)
    requires Conformable(xd, yd, tx, ty) && InProduct(xd, yd, tx, ty, b, i, j)
    ensures InBounds(ProductIndex(xd, yd, b, i, j), ProductDims(xd, yd, tx, ty))
  {
  }

  lemma OperandAddresses(xd: seq<nat>, yd: seq<nat>, tx: bool, ty: bool, b: nat, i: nat, j: nat, l: nat)
    requires Conformable(xd, yd, tx, ty) && InProduct(xd, yd, tx, ty, b, i, j) && l < InnerOfX(xd, tx)
    ensures InBounds(XIndex(|xd|, tx, b, i, l), xd) && InBounds(YIndex(|yd|, ty, b, l, j), yd)
  {
    if |xd| > 1 { OperandInBounds(xd, tx, b, i, l); }
    if |yd| > 1 { OperandInBounds(yd, ty, b, l, j); }
  }

  lemma OperandInBounds(d: seq<nat>, t: bool, b: nat, row: nat, col: nat)
    requires 2 <= |d| <= 3 && row < Rows(d, t) && col < Cols(d, t) && (|d| == 3 ==> b < d[0])
    ensures InBounds(OperandIndex(|d|, t, b, row, col), d)
  {
  }

  function Multiply(a: real, b: real): real {
    a * b
  }

  /** Term `l` of the sum for row `i` and column `j` of batch `b`. */
  function ElementProduct(xd: seq<nat>, yd: seq<nat>, tx: bool, ty: bool, x: seq<real>, y: seq<real>,
                          b: nat, i: nat, j: nat, l: nat): real
    requires Conformable(xd, yd, tx, ty) && |x| == Product(xd) && |y| == Product(yd)
    requires InProduct(xd, yd, tx, ty, b, i, j) && l < InnerOfX(xd, tx)
  {
    OperandAddresses(xd, yd, tx, ty, b, i, j, l);
    Multiply(At(x, xd, XIndex(|xd|, tx, b, i, l)), At(y, yd, YIndex(|yd|, ty, b, l, j)))
  }

  ghost function Entry(xd: seq<nat>, yd: seq<nat>, tx: bool, ty: bool, x: seq<real>, y: seq<real>,
                       b: nat, i: nat, j: nat): real
    requires Conformable(xd, yd, tx, ty) && |x| == Product(xd) && |y| == Product(yd)
    requires InProduct(xd, yd, tx, ty, b, i, j)
  {
    var k := InnerOfX(xd, tx);
    Sum(k, (l: nat) => if l < k then ElementProduct(xd, yd, tx, ty, x, y, b, i, j, l) else 0.0)
  }

  ghost predicate HoldsEntry(xd: seq<nat>, yd: seq<nat>, tx: bool, ty: bool, x: seq<real>, y: seq<real>, out: seq<real>,
                             b: nat, i: nat, j: nat)
    requires Conformable(xd, yd, tx, ty) && |x| == Product(xd) && |y| == Product(yd)
    requires |out| == Product(ProductDims(xd, yd, tx, ty)) && InProduct(xd, yd, tx, ty, b, i, j)
  {
    ProductAddress(xd, yd, tx, ty, b, i, j);
    At(out, ProductDims(xd, yd, tx, ty), ProductIndex(xd, yd, b, i, j)) == Entry(xd, yd, tx, ty, x, y, b, i, j)
  }

  /** `out` is the matrix product of the operands, batch by batch. */
  ghost predicate IsMatrixProduct(xd: seq<nat>, yd: seq<nat>, tx: bool, ty: bool,
                                  x: seq<real>, y: seq<real>, out: seq<real>)
    requires Conformable(xd, yd, tx, ty) && |x| == Product(xd) && |y| == Product(yd)
  {
    && |out| == Product(ProductDims(xd, yd, tx, ty))
    && forall b: nat, i: nat, j: nat | InProduct(xd, yd, tx, ty, b, i, j) ::
      HoldsEntry(xd, yd, tx, ty, x, y, out, b, i, j)
  }

  /** No element is left unsaid: there is only one matrix product. */
  lemma ProductUnique(xd: seq<nat>, yd: seq<nat>, tx: bool, ty: bool, x: seq<real>, y: seq<real>, r: seq<real>,
                      s: seq<real>)
    requires Conformable(xd, yd, tx, ty) && |x| == Product(xd) && |y| == Product(yd)
    requires IsMatrixProduct(xd, yd, tx, ty, x, y, r) && IsMatrixProduct(xd, yd, tx, ty, x, y, s)
    ensures r == s
  {
    var dims := ProductDims(xd, yd, tx, ty);
    forall idx | InBounds(idx, dims) ensures At(r, dims, idx) == At(s, dims, idx) {
      var b, i, j := AxesOf(xd, yd, tx, ty, idx);
      assert HoldsEntry(xd, yd, tx, ty, x, y, r, b, i, j) && HoldsEntry(xd, yd, tx, ty, x, y, s, b, i, j);
    }
    SameBuffer(r, s, dims);
  }

  /** Every multi-index of the product is that of some batch, row and column. */
  lemma AxesOf(xd: seq<nat>, yd: seq<nat>, tx: bool, ty: bool, idx: seq<nat>) returns (b: nat, i: nat, j: nat)
    requires Ranked(xd, yd) && InBounds(idx, ProductDims(xd, yd, tx, ty))
    ensures InProduct(xd, yd, tx, ty, b, i, j) && idx == ProductIndex(xd, yd, b, i, j)
  {
    b := if |xd| == 3 || |yd| == 3 then idx[0] else 0;
    j := if |yd| >= 2 then idx[|idx| - 1] else 0;
    i := if |xd| == 1 then 0 else if |yd| == 1 then idx[|idx| - 1] else idx[|idx| - 2];
  }

  /** The coordinates, rank by rank. */
  lemma IndicesMean(xd: seq<nat>, yd: seq<nat>, tx: bool, ty: bool, b: nat, i: nat, j: nat, l: nat)
    requires Ranked(xd, yd)
    ensures XIndex(|xd|, tx, b, i, l) ==
      if |xd| == 1 then [l]
      else if |xd| == 2 then (if tx then [l, i] else [i, l])
      else (if tx then [b, l, i] else [b, i, l])
    ensures YIndex(|yd|, ty, b, l, j) ==
      if |yd| == 1 then [l]
      else if |yd| == 2 then (if ty then [j, l] else [l, j])
      else (if ty then [b, j, l] else [b, l, j])
    ensures ProductIndex(xd, yd, b, i, j) ==
      if |xd| == 1 && |yd| == 1 then [0]
      else if |xd| == 1 && |yd| == 2 then [j]
      else if |xd| == 2 && |yd| == 1 then [i]
      else if |xd| == 1 then [b, j]
      else if |yd| == 1 then [b, i]
      else if |xd| == 2 && |yd| == 2 then [i, j]
      else [b, i, j]
  {
  }

  /** The extents: a transposed matrix has its last for rows and the one before for columns. */
  lemma ExtentsMean(xd: seq<nat>, yd: seq<nat>, tx: bool, ty: bool)
    requires Ranked(xd, yd)
    ensures Batches(xd, yd) == if |xd| == 3 then xd[0] else if |yd| == 3 then yd[0] else 1
    ensures |xd| == 1 ==> RowsOfX(xd, tx) == 1 && InnerOfX(xd, tx) == xd[0]
    ensures |xd| == 2 ==> [RowsOfX(xd, tx), InnerOfX(xd, tx)] == if tx then [xd[1], xd[0]] else [xd[0], xd[1]]
    ensures |xd| == 3 ==> [RowsOfX(xd, tx), InnerOfX(xd, tx)] == if tx then [xd[2], xd[1]] else [xd[1], xd[2]]
    ensures |yd| == 1 ==> ColsOfY(yd, ty) == 1 && InnerOfY(yd, ty) == yd[0]
    ensures |yd| == 2 ==> [InnerOfY(yd, ty), ColsOfY(yd, ty)] == if ty then [yd[1], yd[0]] else [yd[0], yd[1]]
    ensures |yd| == 3 ==> [InnerOfY(yd, ty), ColsOfY(yd, ty)] == if ty then [yd[2], yd[1]] else [yd[1], yd[2]]
    ensures ProductDims(xd, yd, tx, ty) ==
      if |xd| == 1 && |yd| == 1 then [1]
      else ProductIndex(xd, yd, Batches(xd, yd), RowsOfX(xd, tx), ColsOfY(yd, ty))
  {
  }

  // ---------- where the loop nest finds its elements ----------

  lemma Encode1(d: seq<nat>, i: nat)
    requires |d| == 1
    ensures Encode(d, [i]) == i
  {
    EncodeStep(d, [i]);
    assert Product(d[1..]) == 1;
  }

  lemma Encode2(d: seq<nat>, i: nat, j: nat)
    requires |d| == 2
    ensures Encode(d, [i, j]) == i * d[1] + j
  {
    EncodeStep(d, [i, j]);
    assert [i, j][1..] == [j];
    Encode1(d[1..], j);
    ProductByRank(d[1..]);
  }

  lemma Encode3(d: seq<nat>, b: nat, i: nat, j: nat)
    requires |d| == 3
    ensures Encode(d, [b, i, j]) == b * (d[1] * d[2]) + (i * d[2] + j)
  {
    EncodeStep(d, [b, i, j]);
    assert [b, i, j][1..] == [i, j];
    Encode2(d[1..], i, j);
    ProductByRank(d[1..]);
  }

  /** Where an operand's row and column are stored. */
  lemma OperandPosition(d: seq<nat>, t: bool, b: nat, row: nat, col: nat)
    requires 2 <= |d| <= 3
    ensures Encode(d, OperandIndex(|d|, t, b, row, col))
         == (if |d| == 3 then b * (Rows(d, t) * Cols(d, t)) else 0)
            + (if t then col * Rows(d, t) + row else row * Cols(d, t) + col)
  {
    var r, c := if t then col else row, if t then row else col;
    if |d| == 2 {
      assert OperandIndex(2, t, b, row, col) == [r, c];
      Encode2(d, r, c);
    } else {
      assert OperandIndex(3, t, b, row, col) == [b, r, c];
      Encode3(d, b, r, c);
      assert Rows(d, t) * Cols(d, t) == d[1] * d[2];
    }
  }

  lemma XPosition(xd: seq<nat>, yd: seq<nat>, tx: bool, ty: bool, b: nat, i: nat, j: nat, l: nat)
    requires Conformable(xd, yd, tx, ty) && InProduct(xd, yd, tx, ty, b, i, j)
    ensures Encode(xd, XIndex(|xd|, tx, b, i, l)) == ForwardCall(xd, yd, tx, ty).gemm.XPos(b, i, l)
  {
    if |xd| == 1 {
      Encode1(xd, l);
    } else {
      OperandPosition(xd, tx, b, i, l);
    }
  }

  /** Of two batches, only the first matrix of y is read where it should be. */
  lemma YPosition(xd: seq<nat>, yd: seq<nat>, tx: bool, ty: bool, b: nat, i: nat, j: nat, l: nat)
    requires Conformable(xd, yd, tx, ty) && InProduct(xd, yd, tx, ty, b, i, j)
    requires Supported(xd, yd) || b == 0
    ensures Encode(yd, YIndex(|yd|, ty, b, l, j)) == ForwardCall(xd, yd, tx, ty).gemm.YPos(b, l, j)
  {
    if |yd| == 1 {
      Encode1(yd, l);
    } else {
      OperandPosition(yd, ty, b, l, j);
    }
  }

  lemma OutPosition(xd: seq<nat>, yd: seq<nat>, tx: bool, ty: bool, b: nat, i: nat, j: nat)
    requires Conformable(xd, yd, tx, ty) && InProduct(xd, yd, tx, ty, b, i, j)
    ensures Encode(ProductDims(xd, yd, tx, ty), ProductIndex(xd, yd, b, i, j))
         == ForwardCall(xd, yd, tx, ty).gemm.OutPos(b, i, j)
  {
    var dims, idx := ProductDims(xd, yd, tx, ty), ProductIndex(xd, yd, b, i, j);
    if |dims| == 1 {
      assert idx == [idx[0]];
      Encode1(dims, idx[0]);
    } else if |dims| == 2 {
      assert idx == [idx[0], idx[1]];
      Encode2(dims, idx[0], idx[1]);
    } else {
      assert idx == [b, i, j];
      Encode3(dims, b, i, j);
    }
  }

  // ---------- the dispatch computes the product ----------

  /** `MatmulKernel` compares the inner extents except between matrices, and gives the output the product's shape. */
  lemma ForwardShape(xd: seq<nat>, yd: seq<nat>, tx: bool, ty: bool)
    requires Ranked(xd, yd)
    ensures ForwardCall(xd, yd, tx, ty).Call? <==> |xd| == |yd| == 2 || InnerOfX(xd, tx) == InnerOfY(yd, ty)
    ensures ForwardCall(xd, yd, tx, ty).Call? ==>
      ForwardCall(xd, yd, tx, ty).outDims == ProductDims(xd, yd, tx, ty)
  {
  }

  /** It runs as it would on a y of the shape it takes y for, which is y's own for conformable operands of one batch. */
  lemma ForwardReads(xd: seq<nat>, yd: seq<nat>, tx: bool, ty: bool)
    requires Ranked(xd, yd) && ForwardCall(xd, yd, tx, ty).Call?
    ensures var read := ReadShape(xd, yd, tx, ty);
      && Supported(xd, read) && Conformable(xd, read, tx, ty)
      && ForwardCall(xd, read, tx, ty) == ForwardCall(xd, yd, tx, ty)
      && (Supported(xd, yd) && Conformable(xd, yd, tx, ty) ==> read == yd)
  {
  }

  lemma OutDimsSize(xd: seq<nat>, yd: seq<nat>, tx: bool, ty: bool)
    requires Ranked(xd, yd) && ForwardCall(xd, yd, tx, ty).Call?
    ensures var c := ForwardCall(xd, yd, tx, ty); Product(c.outDims) == c.gemm.OutSize()
  {
    ProductByRank(ForwardCall(xd, yd, tx, ty).outDims);
  }

  lemma ForwardExtents(xd: seq<nat>, yd: seq<nat>, tx: bool, ty: bool)
    requires Ranked(xd, yd) && ForwardCall(xd, yd, tx, ty).Call?
    ensures var g := ForwardCall(xd, yd, tx, ty).gemm;
      && g.batch == Batches(xd, yd) && g.m == RowsOfX(xd, tx) && g.n == ColsOfY(yd, ty)
      && g.k == InnerOfX(xd, tx) && !g.reduceBs
  {
  }

  /** Each element the loop nest computes is the sum of the operands' products over the inner index. */
  lemma ForwardEntry(xd: seq<nat>, yd: seq<nat>, tx: bool, ty: bool, x: seq<real>, y: seq<real>, b: nat, i: nat, j: nat)
    requires Conformable(xd, yd, tx, ty) && |x| == Product(xd) && |y| == Product(yd)
    requires InProduct(xd, yd, tx, ty, b, i, j) && (Supported(xd, yd) || b == 0)
    ensures Cell(ForwardCall(xd, yd, tx, ty).gemm, x, y, b, i, j) == Entry(xd, yd, tx, ty, x, y, b, i, j)
  {
    var g, k := ForwardCall(xd, yd, tx, ty).gemm, InnerOfX(xd, tx);
    ForwardExtents(xd, yd, tx, ty);
    var f := (l: nat) => if l < k then ElementProduct(xd, yd, tx, ty, x, y, b, i, j, l) else 0.0;
    forall l: nat | l < k ensures Factors(g, x, y, b, i, j)(l) == f(l) {
      ForwardTerm(xd, yd, tx, ty, x, y, b, i, j, l);
    }
    SumEq(k, Factors(g, x, y, b, i, j), f);
  }

  lemma FactorsAt(g: Gemm, xd: seq<nat>, yd: seq<nat>, x: seq<real>, y: seq<real>,
                  b: nat, i: nat, j: nat, l: nat, xi: seq<nat>, yi: seq<nat>)
    requires |x| == Product(xd) && |y| == Product(yd) && InBounds(xi, xd) && InBounds(yi, yd)
    requires Encode(xd, xi) == g.XPos(b, i, l) && Encode(yd, yi) == g.YPos(b, l, j)
    ensures Factors(g, x, y, b, i, j)(l) == Multiply(At(x, xd, xi), At(y, yd, yi))
  {
    GetAt(x, xd, xi, g.XPos(b, i, l));
    GetAt(y, yd, yi, g.YPos(b, l, j));
  }

  lemma ForwardTerm(xd: seq<nat>, yd: seq<nat>, tx: bool, ty: bool, x: seq<real>, y: seq<real>,
                    b: nat, i: nat, j: nat, l: nat)
    requires Conformable(xd, yd, tx, ty) && |x| == Product(xd) && |y| == Product(yd)
    requires InProduct(xd, yd, tx, ty, b, i, j) && l < InnerOfX(xd, tx) && (Supported(xd, yd) || b == 0)
    ensures Factors(ForwardCall(xd, yd, tx, ty).gemm, x, y, b, i, j)(l)
         == ElementProduct(xd, yd, tx, ty, x, y, b, i, j, l)
  {
    var xi, yi := XIndex(|xd|, tx, b, i, l), YIndex(|yd|, ty, b, l, j);
    XPosition(xd, yd, tx, ty, b, i, j, l);
    YPosition(xd, yd, tx, ty, b, i, j, l);
    OperandAddresses(xd, yd, tx, ty, b, i, j, l);
    FactorsAt(ForwardCall(xd, yd, tx, ty).gemm, xd, yd, x, y, b, i, j, l, xi, yi);
  }

  lemma GetAt(x: seq<real>, dims: seq<nat>, idx: seq<nat>, p: nat)
    requires |x| == Product(dims) && InBounds(idx, dims) && Encode(dims, idx) == p
    ensures Get(x, p) == At(x, dims, idx)
  {
    EncodeBound(dims, idx);
  }

  /** For all ranks and flags with at most one batch, the loop nest `MatmulKernel` selects computes the product. */
  lemma ForwardIsProduct(xd: seq<nat>, yd: seq<nat>, tx: bool, ty: bool, x: seq<real>, y: seq<real>)
    requires Supported(xd, yd) && Conformable(xd, yd, tx, ty) && |x| == Product(xd) && |y| == Product(yd)
    ensures IsMatrixProduct(xd, yd, tx, ty, x, y, Run(ForwardCall(xd, yd, tx, ty).gemm, x, y))
  {
    var g := ForwardCall(xd, yd, tx, ty).gemm;
    ForwardShape(xd, yd, tx, ty);
    OutDimsSize(xd, yd, tx, ty);
    ForwardExtents(xd, yd, tx, ty);
    forall b: nat, i: nat, j: nat | InProduct(xd, yd, tx, ty, b, i, j)
      ensures HoldsEntry(xd, yd, tx, ty, x, y, Run(g, x, y), b, i, j)
    {
      RunAt(g, x, y, b, i, j);
      OutPosition(xd, yd, tx, ty, b, i, j);
      ForwardEntry(xd, yd, tx, ty, x, y, b, i, j);
    }
  }
}
