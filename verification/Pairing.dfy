/**
  Pairing the output of a matrix product with a buffer gives a trilinear form in the three
  buffers. Two products are adjoint when their forms are sums of the same terms.
 */
module Pairing {
  import opened Indexing
  import opened Sums
  import opened Gemms

  ghost function Inner(a: seq<real>, v: seq<real>): real {
    Sum(|a|, (i: nat) => Get(a, i) * Get(v, i))
  }

  ghost function Term(g: Gemm, x: seq<real>, y: seq<real>, v: seq<real>, b: nat, i: nat, j: nat, l: nat): real {
    Get(x, g.XPos(b, i, l)) * Get(y, g.YPos(b, l, j)) * Get(v, g.OutPos(b, i, j))
  }

  ghost function Block(g: Gemm, x: seq<real>, y: seq<real>, v: seq<real>, b: nat): real {
    Sum3(g.m, g.n, g.k, (i: nat, j: nat, l: nat) => Term(g, x, y, v, b, i, j, l))
  }

  ghost function Form(g: Gemm, x: seq<real>, y: seq<real>, v: seq<real>): real {
    Sum(g.batch, (b: nat) => Block(g, x, y, v, b))
  }

  ghost function Terms(g: Gemm, x: seq<real>, y: seq<real>, v: seq<real>, b: nat, i: nat, j: nat): nat -> real {
    (l: nat) => Term(g, x, y, v, b, i, j, l)
  }

  /** One cell times its partner is the sum of that cell's terms. */
  lemma CellTerms(g: Gemm, x: seq<real>, y: seq<real>, v: seq<real>, b: nat, i: nat, j: nat)
    ensures Cell(g, x, y, b, i, j) * Get(v, g.OutPos(b, i, j)) == Sum(g.k, Terms(g, x, y, v, b, i, j))
  {
    var f, c, h := Factors(g, x, y, b, i, j), Get(v, g.OutPos(b, i, j)), Terms(g, x, y, v, b, i, j);
    forall l: nat | l < g.k ensures ScalesAt(f, h, c, l) {
      TermAt(g, x, y, v, b, i, j, l);
    }
    SumScaled(g.k, f, h, c);
  }

  lemma TermAt(g: Gemm, x: seq<real>, y: seq<real>, v: seq<real>, b: nat, i: nat, j: nat, l: nat)
    ensures Terms(g, x, y, v, b, i, j)(l) == Factors(g, x, y, b, i, j)(l) * Get(v, g.OutPos(b, i, j))
  {
  }

  ghost function Base(g: Gemm, b: nat): nat {
    if g.reduceBs then 0 else b * (g.m * g.n)
  }

  ghost function CellTimes(g: Gemm, x: seq<real>, y: seq<real>, v: seq<real>, b: nat): (nat, nat) -> real {
    (i: nat, j: nat) => Cell(g, x, y, b, i, j) * Get(v, g.OutPos(b, i, j))
  }

  ghost function CellAtTimes(g: Gemm, x: seq<real>, y: seq<real>, v: seq<real>, b: nat): nat -> real {
    (q: nat) => CellAt(g, x, y, b, q) * Get(v, Base(g, b) + q)
  }

  lemma CellTimesAt(g: Gemm, x: seq<real>, y: seq<real>, v: seq<real>, b: nat, i: nat, j: nat)
    requires i < g.m && j < g.n
    ensures CellTimes(g, x, y, v, b)(i, j) == CellAtTimes(g, x, y, v, b)(g.CellPos(i, j))
  {
    CellPosUnique(g, i, j);
  }

  /** Either layout of the output visits each (row, column) once. */
  lemma FlattenCells(g: Gemm, h: nat -> real, c: (nat, nat) -> real)
    requires forall i: nat, j: nat :: i < g.m && j < g.n ==> c(i, j) == h(g.CellPos(i, j))
    ensures Sum(g.m * g.n, h) == Sum2(g.m, g.n, c)
  {
    if g.transOut {
      var t := (j: nat, i: nat) => c(i, j);
      SumFlatten(g.n, g.m, h, t);
      SumSwap(g.m, g.n, c);
      assert g.n * g.m == g.m * g.n;
    } else {
      SumFlatten(g.m, g.n, h, c);
    }
  }

  lemma BlockForm(g: Gemm, x: seq<real>, y: seq<real>, v: seq<real>, b: nat)
    ensures Sum(g.m * g.n, CellAtTimes(g, x, y, v, b)) == Block(g, x, y, v, b)
  {
    var c := CellTimes(g, x, y, v, b);
    forall i: nat, j: nat | i < g.m && j < g.n ensures c(i, j) == CellAtTimes(g, x, y, v, b)(g.CellPos(i, j)) {
      CellTimesAt(g, x, y, v, b, i, j);
    }
    FlattenCells(g, CellAtTimes(g, x, y, v, b), c);
    CellsToBlock(g, x, y, v, b);
  }

  lemma CellsToBlock(g: Gemm, x: seq<real>, y: seq<real>, v: seq<real>, b: nat)
    ensures Sum2(g.m, g.n, CellTimes(g, x, y, v, b)) == Block(g, x, y, v, b)
  {
    var f := (i: nat, j: nat, l: nat) => Term(g, x, y, v, b, i, j, l);
    var c := CellTimes(g, x, y, v, b);
    forall i: nat, j: nat | i < g.m && j < g.n ensures c(i, j) == Sum(g.k, (l: nat) => f(i, j, l)) {
      CellTerms(g, x, y, v, b, i, j);
      SumEq(g.k, (l: nat) => f(i, j, l), Terms(g, x, y, v, b, i, j));
    }
    Sum3Inner(g.m, g.n, g.k, f, c);
  }

  /** The products of block `b`, indexed by batch and cell. */
  ghost function Paired(g: Gemm, x: seq<real>, y: seq<real>, v: seq<real>): (nat, nat) -> real {
    (b: nat, q: nat) => CellAtTimes(g, x, y, v, b)(q)
  }

  lemma PairedAt(g: Gemm, x: seq<real>, y: seq<real>, v: seq<real>, b: nat, q: nat)
    ensures Paired(g, x, y, v)(b, q) == CellAt(g, x, y, b, q) * Get(v, Base(g, b) + q)
  {
    assert CellAtTimes(g, x, y, v, b)(q) == CellAt(g, x, y, b, q) * Get(v, Base(g, b) + q);
  }

  lemma RowEq(n: nat, f: (nat, nat) -> real, b: nat, h: nat -> real)
    requires forall q: nat :: q < n ==> f(b, q) == h(q)
    ensures Sum(n, (q: nat) => f(b, q)) == Sum(n, h)
  {
    SumEq(n, (q: nat) => f(b, q), h);
  }

  ghost function PairedColumn(f: (nat, nat) -> real, q: nat): nat -> real {
    (b: nat) => f(b, q)
  }

  lemma PairedRow(g: Gemm, x: seq<real>, y: seq<real>, v: seq<real>, b: nat)
    ensures var f := Paired(g, x, y, v); Sum(g.m * g.n, (q: nat) => f(b, q)) == Block(g, x, y, v, b)
  {
    BlockForm(g, x, y, v, b);
    RowEq(g.m * g.n, Paired(g, x, y, v), b, CellAtTimes(g, x, y, v, b));
  }

  lemma PairedSum(g: Gemm, x: seq<real>, y: seq<real>, v: seq<real>)
    ensures Sum2(g.batch, g.m * g.n, Paired(g, x, y, v)) == Form(g, x, y, v)
  {
    var blocks := (b: nat) => Block(g, x, y, v, b);
    var f := Paired(g, x, y, v);
    forall b: nat | b < g.batch ensures blocks(b) == Sum(g.m * g.n, (q: nat) => f(b, q)) {
      PairedRow(g, x, y, v, b);
    }
    SumOfSums(g.batch, g.m * g.n, f, blocks);
  }

  /** <Run(x, y), v> is the trilinear form of the product, with or without batch reduction. */
  lemma InnerIsForm(g: Gemm, x: seq<real>, y: seq<real>, v: seq<real>)
    ensures Inner(Run(g, x, y), v) == Form(g, x, y, v)
  {
    if g.reduceBs {
      ReducedInner(g, x, y, v);
    } else {
      BatchedInner(g, x, y, v);
    }
    PairedSum(g, x, y, v);
  }

  lemma BatchedInner(g: Gemm, x: seq<real>, y: seq<real>, v: seq<real>)
    requires !g.reduceBs
    ensures Inner(Run(g, x, y), v) == Sum2(g.batch, g.m * g.n, Paired(g, x, y, v))
  {
    var r, mn, f := Run(g, x, y), g.m * g.n, Paired(g, x, y, v);
    var p := (o: nat) => Get(r, o) * Get(v, o);
    forall b: nat, q: nat | b < g.batch && q < mn ensures f(b, q) == p(b * mn + q) {
      BatchedCell(g, x, y, v, b, q);
    }
    SumFlatten(g.batch, mn, p, f);
  }

  lemma BatchedCell(g: Gemm, x: seq<real>, y: seq<real>, v: seq<real>, b: nat, q: nat)
    requires !g.reduceBs && b < g.batch && q < g.m * g.n
    ensures var o := b * (g.m * g.n) + q; Paired(g, x, y, v)(b, q) == Get(Run(g, x, y), o) * Get(v, o)
  {
    PairedAt(g, x, y, v, b, q);
    DivModUnique(b, q, g.m * g.n);
    PosBound(b, q, g.batch, g.m * g.n);
  }

  lemma ReducedCell(g: Gemm, x: seq<real>, y: seq<real>, v: seq<real>, q: nat)
    requires g.reduceBs && q < g.m * g.n
    ensures Summed(g, x, y, g.batch, q) * Get(v, q) == Sum(g.batch, PairedColumn(Paired(g, x, y, v), q))
  {
    var cells, c, h := CellColumn(g, x, y, q), Get(v, q), PairedColumn(Paired(g, x, y, v), q);
    forall b: nat | b < g.batch ensures ScalesAt(cells, h, c, b) {
      PairedAt(g, x, y, v, b, q);
      assert cells(b) == CellAt(g, x, y, b, q);
    }
    SumScaled(g.batch, cells, h, c);
  }

  lemma ReducedInner(g: Gemm, x: seq<real>, y: seq<real>, v: seq<real>)
    requires g.reduceBs
    ensures Inner(Run(g, x, y), v) == Sum2(g.batch, g.m * g.n, Paired(g, x, y, v))
  {
    var r, mn, f := Run(g, x, y), g.m * g.n, Paired(g, x, y, v);
    var p := (o: nat) => Get(r, o) * Get(v, o);
    var t := (q: nat, b: nat) => f(b, q);
    forall q: nat | q < mn ensures p(q) == Sum(g.batch, (b: nat) => t(q, b)) {
      ReducedCell(g, x, y, v, q);
      SumEq(g.batch, PairedColumn(f, q), (b: nat) => t(q, b));
    }
    SumOfSums(mn, g.batch, t, p);
    SumSwap(g.batch, mn, f);
  }

  // ---------- adjoint products ----------

  /**
    `h` reads f's output where f writes it, f's right operand where f reads it, and writes where f
    reads its left one.
   */
  predicate LeftMatch(h: Gemm, f: Gemm, b: nat, i: nat, j: nat, l: nat) {
    && h.XPos(b, i, j) == f.OutPos(b, i, j)
    && h.YPos(b, j, l) == f.YPos(b, l, j)
    && h.OutPos(b, i, l) == f.XPos(b, i, l)
  }

  ghost predicate LeftGradientOf(h: Gemm, f: Gemm) {
    && h.m == f.m && h.k == f.n && h.n == f.k && h.batch == f.batch
    && forall b: nat, i: nat, j: nat, l: nat ::
      b < f.batch && i < f.m && j < f.n && l < f.k ==> LeftMatch(h, f, b, i, j, l)
  }

  predicate RightMatch(h: Gemm, f: Gemm, b: nat, i: nat, j: nat, l: nat) {
    && h.XPos(b, l, i) == f.XPos(b, i, l)
    && h.YPos(b, i, j) == f.OutPos(b, i, j)
    && h.OutPos(b, l, j) == f.YPos(b, l, j)
  }

  ghost predicate RightGradientOf(h: Gemm, f: Gemm) {
    && h.m == f.k && h.k == f.m && h.n == f.n && h.batch == f.batch
    && forall b: nat, i: nat, j: nat, l: nat ::
      b < f.batch && i < f.m && j < f.n && l < f.k ==> RightMatch(h, f, b, i, j, l)
  }

  lemma LeftTerm(h: Gemm, f: Gemm, x: seq<real>, y: seq<real>, dout: seq<real>, b: nat, i: nat, j: nat, l: nat)
    requires LeftGradientOf(h, f) && b < f.batch && i < f.m && j < f.n && l < f.k
    ensures Term(f, x, y, dout, b, i, j, l) == Term(h, dout, y, x, b, i, l, j)
  {
    assert LeftMatch(h, f, b, i, j, l);
    TermShuffle(Get(x, f.XPos(b, i, l)), Get(y, f.YPos(b, l, j)), Get(dout, f.OutPos(b, i, j)));
  }

  lemma LeftBlock(h: Gemm, f: Gemm, x: seq<real>, y: seq<real>, dout: seq<real>, b: nat)
    requires LeftGradientOf(h, f) && b < f.batch
    ensures Block(f, x, y, dout, b) == Block(h, dout, y, x, b)
  {
    var s := (i: nat, j: nat, l: nat) => Term(f, x, y, dout, b, i, j, l);
    var s' := (i: nat, l: nat, j: nat) => s(i, j, l);
    var t := (i: nat, l: nat, j: nat) => Term(h, dout, y, x, b, i, l, j);
    SwapInner(f.m, f.n, f.k, s);
    forall i: nat, l: nat, j: nat | i < f.m && l < f.k && j < f.n ensures s'(i, l, j) == t(i, l, j) {
      LeftTerm(h, f, x, y, dout, b, i, j, l);
    }
    Sum3Eq(f.m, f.k, f.n, s', t);
  }

  lemma LeftAdjoint(h: Gemm, f: Gemm, x: seq<real>, y: seq<real>, dout: seq<real>)
    requires LeftGradientOf(h, f)
    ensures Inner(Run(f, x, y), dout) == Inner(Run(h, dout, y), x)
  {
    InnerIsForm(f, x, y, dout);
    InnerIsForm(h, dout, y, x);
    forall b: nat | b < f.batch ensures Block(f, x, y, dout, b) == Block(h, dout, y, x, b) {
      LeftBlock(h, f, x, y, dout, b);
    }
    SumEq(f.batch, (b: nat) => Block(f, x, y, dout, b), (b: nat) => Block(h, dout, y, x, b));
  }

  lemma RightTerm(h: Gemm, f: Gemm, x: seq<real>, y: seq<real>, dout: seq<real>, b: nat, i: nat, j: nat, l: nat)
    requires RightGradientOf(h, f) && b < f.batch && i < f.m && j < f.n && l < f.k
    ensures Term(f, x, y, dout, b, i, j, l) == Term(h, x, dout, y, b, l, j, i)
  {
    assert RightMatch(h, f, b, i, j, l);
    TermShuffle(Get(x, f.XPos(b, i, l)), Get(y, f.YPos(b, l, j)), Get(dout, f.OutPos(b, i, j)));
  }

  lemma RightBlock(h: Gemm, f: Gemm, x: seq<real>, y: seq<real>, dout: seq<real>, b: nat)
    requires RightGradientOf(h, f) && b < f.batch
    ensures Block(f, x, y, dout, b) == Block(h, x, dout, y, b)
  {
    var s := (i: nat, j: nat, l: nat) => Term(f, x, y, dout, b, i, j, l);
    var s' := (l: nat, j: nat, i: nat) => s(i, j, l);
    var t := (l: nat, j: nat, i: nat) => Term(h, x, dout, y, b, l, j, i);
    Reversed(f.m, f.n, f.k, s);
    forall l: nat, j: nat, i: nat | i < f.m && l < f.k && j < f.n ensures s'(l, j, i) == t(l, j, i) {
      RightTerm(h, f, x, y, dout, b, i, j, l);
    }
    Sum3Eq(f.k, f.n, f.m, s', t);
  }

  lemma RightAdjoint(h: Gemm, f: Gemm, x: seq<real>, y: seq<real>, dout: seq<real>)
    requires RightGradientOf(h, f)
    ensures Inner(Run(f, x, y), dout) == Inner(Run(h, x, dout), y)
  {
    InnerIsForm(f, x, y, dout);
    InnerIsForm(h, x, dout, y);
    forall b: nat | b < f.batch ensures Block(f, x, y, dout, b) == Block(h, x, dout, y, b) {
      RightBlock(h, f, x, y, dout, b);
    }
    SumEq(f.batch, (b: nat) => Block(f, x, y, dout, b), (b: nat) => Block(h, x, dout, y, b));
  }

  lemma TermShuffle(a: real, b: real, c: real)
    ensures a * b * c == c * b * a
    ensures a * b * c == a * c * b
  {
  }
}
