/** Which product the matmul kernels run for operands of ranks 1 to 3, forward and for each gradient. */
module Matmul {
  import opened Indexing
  import opened Gemms

  datatype Call = Call(outDims: seq<nat>, gemm: Gemm) | DimMismatch

  function Single(tx: bool, ty: bool, m: nat, k: nat, n: nat, transOut: bool := false): Gemm {
    Gemm(tx, ty, m, k, n, 1, true, transOut, false, false)
  }

  function Last(d: seq<nat>): nat
    requires |d| >= 1
  {
    d[|d| - 1]
  }

  function Prev(d: seq<nat>): nat
    requires |d| >= 2
  {
    d[|d| - 2]
  }

  /** Extent of an operand's rows and columns once its transpose flag is applied. */
  function Rows(d: seq<nat>, t: bool): nat
    requires |d| >= 2
  {
    if t then Last(d) else Prev(d)
  }

  function Cols(d: seq<nat>, t: bool): nat
    requires |d| >= 2
  {
    if t then Prev(d) else Last(d)
  }

  /** Ranks 1 to 3. */
  predicate Ranked(xd: seq<nat>, yd: seq<nat>) {
    1 <= |xd| <= 3 && 1 <= |yd| <= 3
  }

  /** At most one operand has a batch; `MatmulGradKernel` has no branch for two. */
  predicate Supported(xd: seq<nat>, yd: seq<nat>) {
    Ranked(xd, yd) && |xd| + |yd| <= 5
  }

  function Batches(xd: seq<nat>, yd: seq<nat>): nat {
    if |xd| == 3 then xd[0] else if |yd| == 3 then yd[0] else 1
  }

  function RowsOfX(xd: seq<nat>, tx: bool): nat {
    if |xd| >= 2 then Rows(xd, tx) else 1
  }

  function ColsOfY(yd: seq<nat>, ty: bool): nat {
    if |yd| >= 2 then Cols(yd, ty) else 1
  }

  /**
    The shape `MatmulKernel` takes y for: of two batches it ignores y's, and between matrices it does
    not compare the inner extents but goes by x's.
   */
  function ReadShape(xd: seq<nat>, yd: seq<nat>, tx: bool, ty: bool): seq<nat>
    requires Ranked(xd, yd)
  {
    if |xd| == |yd| == 3 then yd[1..]
    else if |xd| == |yd| == 2 then (if ty then [yd[0], Cols(xd, tx)] else [Cols(xd, tx), yd[1]])
    else yd
  }

  /** The loop nest and output shape `MatmulKernel` selects, or a failed dimension check. */
  function ForwardCall(xd: seq<nat>, yd: seq<nat>, tx: bool, ty: bool): Call
    requires Ranked(xd, yd)
  {
    if |xd| == 1 && |yd| == 1 then
      if xd[0] != yd[0] then DimMismatch
      else Call([1], Single(false, false, 1, xd[0], 1))
    else if |xd| == 1 then
      if xd[0] != Rows(yd, ty) then DimMismatch
      else Call(
        if ty then yd[..|yd| - 1] else yd[..|yd| - 2] + [Last(yd)],
        if |yd| == 2 then Single(false, ty, 1, xd[0], Cols(yd, ty))
        else Gemm(false, ty, 1, xd[0], Cols(yd, ty), yd[0], false, false, false, false))
    else if |yd| == 1 then
      if yd[0] != Cols(xd, tx) then DimMismatch
      else Call(
        if !tx then xd[..|xd| - 1] else xd[..|xd| - 2] + [Last(xd)],
        if |xd| == 2 then Single(tx, false, Rows(xd, tx), yd[0], 1)
        else Gemm(tx, false, Rows(xd, tx), yd[0], 1, xd[0], true, false, false, false))
    else if |xd| == 2 && |yd| == 2 then
      Call([Rows(xd, tx), Cols(yd, ty)], Single(tx, ty, Rows(xd, tx), Cols(xd, tx), Cols(yd, ty)))
    else if |xd| == 3 then
      if Rows(yd, ty) != Cols(xd, tx) then DimMismatch
      else Call([xd[0], Rows(xd, tx), Cols(yd, ty)],
        Gemm(tx, ty, Rows(xd, tx), Cols(xd, tx), Cols(yd, ty), xd[0], true, false, false, false))
    else
      if Cols(xd, tx) != Rows(yd, ty) then DimMismatch
      else Call([yd[0], Rows(xd, tx), Cols(yd, ty)],
        Gemm(tx, ty, Rows(xd, tx), Rows(yd, ty), Cols(yd, ty), yd[0], false, false, false, false))
  }

  /** The loop nest of `MatmulGradKernel` for dx, run on (dout, y). */
  function GradXCall(xd: seq<nat>, yd: seq<nat>, tx: bool, ty: bool): Gemm
    requires Supported(xd, yd)
  {
    if |xd| == 1 && |yd| == 1 then Single(false, false, 1, 1, xd[0])
    else if |xd| == 1 then
      if |yd| == 2 then Single(false, !ty, 1, Cols(yd, ty), Rows(yd, ty))
      else Gemm(false, !ty, 1, Cols(yd, ty), Rows(yd, ty), yd[0], false, false, true, true)
    else if |yd| == 1 then
      if |xd| == 2 then Single(false, false, Rows(xd, tx), 1, Cols(xd, tx), tx)
      else Gemm(false, false, Rows(xd, tx), 1, Cols(xd, tx), xd[0], true, tx, false, false)
    else if |xd| == 2 && |yd| == 2 then
      Single(false, !ty, Rows(xd, tx), Cols(yd, ty), Cols(xd, tx), tx)
    else if |xd| == 2 then
      Gemm(false, !ty, Rows(xd, tx), Cols(yd, ty), Cols(xd, tx), yd[0], false, tx, true, true)
    else
      Gemm(false, !ty, Rows(xd, tx), Cols(yd, ty), Cols(xd, tx), xd[0], true, tx, false, false)
  }

  /** The loop nest for dy, run on (x, dout), or on (dout, x) when both operands are vectors. */
  function GradYCall(xd: seq<nat>, yd: seq<nat>, tx: bool, ty: bool): Gemm
    requires Supported(xd, yd)
  {
    if |xd| == 1 && |yd| == 1 then Single(false, false, 1, 1, xd[0])
    else if |xd| == 1 then
      if |yd| == 2 then Single(false, false, Rows(yd, ty), 1, Cols(yd, ty), ty)
      else Gemm(false, false, Rows(yd, ty), 1, Cols(yd, ty), yd[0], false, ty, false, false)
    else if |yd| == 1 then
      if |xd| == 2 then Single(!tx, false, Cols(xd, tx), Rows(xd, tx), 1)
      else Gemm(!tx, false, Cols(xd, tx), Rows(xd, tx), 1, xd[0], true, false, true, true)
    else if |xd| == 2 && |yd| == 2 then
      Single(!tx, false, Rows(yd, ty), Rows(xd, tx), Cols(yd, ty), ty)
    else if |xd| == 2 then
      Gemm(!tx, false, Rows(yd, ty), Rows(xd, tx), Cols(yd, ty), yd[0], false, ty, false, false)
    else
      Single(!tx, false, Rows(yd, ty), Rows(xd, tx) * xd[0], Cols(yd, ty), ty)
  }

  /** Operands of the forward kernel: if it reads y at all, y has the elements of the shape it is taken for. */
  predicate Operands(xd: seq<nat>, yd: seq<nat>, tx: bool, ty: bool, x: seq<real>, y: seq<real>) {
    && Ranked(xd, yd) && |x| == Product(xd) && |y| == Product(yd)
    && (ForwardCall(xd, yd, tx, ty).Call? && Batches(xd, yd) > 0 && RowsOfX(xd, tx) > 0 ==>
      Product(ReadShape(xd, yd, tx, ty)) <= |y|)
  }

  /** Operands that pass the forward kernel's checks, with an output gradient to match. */
  predicate Differentiable(xd: seq<nat>, yd: seq<nat>, tx: bool, ty: bool, x: seq<real>, y: seq<real>,
                           dout: seq<real>) {
    && Supported(xd, yd) && |x| == Product(xd) && |y| == Product(yd)
    && (|xd| == |yd| == 2 ==> Cols(xd, tx) == Rows(yd, ty))
    && ForwardCall(xd, yd, tx, ty).Call?
    && |dout| == ForwardCall(xd, yd, tx, ty).gemm.OutSize()
  }

  // ---------- sizes ----------

  lemma Product1(a: nat)
    ensures Product([a]) == a
  {
    assert [a][1..] == [];
  }

  lemma Product2(a: nat, b: nat)
    ensures Product([a, b]) == a * b
  {
    assert [a, b][1..] == [b];
    Product1(b);
  }

  lemma Product3(a: nat, b: nat, c: nat)
    ensures Product([a, b, c]) == a * (b * c)
  {
    assert [a, b, c][1..] == [b, c];
    Product2(b, c);
  }

  lemma ProductByRank(d: seq<nat>)
    requires 1 <= |d| <= 3
    ensures |d| == 1 ==> Product(d) == d[0]
    ensures |d| == 2 ==> Product(d) == d[0] * d[1]
    ensures |d| == 3 ==> Product(d) == d[0] * (d[1] * d[2])
  {
    if |d| == 1 {
      assert d == [d[0]];
      Product1(d[0]);
    } else if |d| == 2 {
      assert d == [d[0], d[1]];
      Product2(d[0], d[1]);
    } else {
      assert d == [d[0], d[1], d[2]];
      Product3(d[0], d[1], d[2]);
    }
  }

  /** The size of an operand in terms of its rows and columns. */
  lemma ProductRowsCols(d: seq<nat>, t: bool)
    requires 2 <= |d| <= 3
    ensures Product(d) == (if |d| == 3 then d[0] * (Rows(d, t) * Cols(d, t)) else Rows(d, t) * Cols(d, t))
  {
    ProductByRank(d);
    assert Rows(d, t) * Cols(d, t) == Cols(d, t) * Rows(d, t);
  }

  lemma FitsBySize(g: Gemm, x: seq<real>, y: seq<real>)
    requires |x| == g.XSize() && |y| == g.YSize()
    ensures g.Fits(x, y)
  {
    forall b: nat, i: nat, j: nat, l: nat | b < g.batch && i < g.m && j < g.n && l < g.k
      ensures g.InReach(x, y, b, i, j, l)
    {
      InOperand(g.transX, g.batch, g.m, g.k, b, i, l);
      InOperand(g.transY, g.batch, g.k, g.n, b, l, j);
    }
  }

  /** A row and a column of batch `b`, in either layout, lie among the batches' elements. */
  lemma InOperand(trans: bool, batch: nat, m: nat, k: nat, b: nat, i: nat, l: nat)
    requires b < batch && i < m && l < k
    ensures var q := if trans then l * m + i else i * k + l; q < m * k && b * (m * k) + q < batch * (m * k)
  {
    var q := if trans then l * m + i else i * k + l;
    PosBound(i, l, m, k);
    PosBound(l, i, k, m);
    PosBound(b, q, batch, m * k);
  }
}
