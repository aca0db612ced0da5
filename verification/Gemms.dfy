/**
  The two matrix-product loop nests of the CPU matmul kernels. `GEMM` is the batch-of-one case of
  `BatchedGEMM`, whose two branches differ only in which operand steps with the batch; the flags
  below select the same index expressions.
 */
module Gemms {
  import opened Indexing
  import opened Sums

  datatype Gemm = Gemm(
    transX: bool, transY: bool, m: nat, k: nat, n: nat,
    batch: nat, xIsLarger: bool, transOut: bool, bsFlag: bool, reduceBs: bool)
  {
    function XPos(b: nat, i: nat, l: nat): nat {
      (if xIsLarger || bsFlag then b * (m * k) else 0) + (if transX then l * m + i else i * k + l)
    }

    function YPos(b: nat, l: nat, j: nat): nat {
      (if !xIsLarger || bsFlag then b * (k * n) else 0) + (if transY then j * k + l else l * n + j)
    }

    /** Position of row `i`, column `j` inside one output matrix. */
    function CellPos(i: nat, j: nat): nat {
      if transOut then j * m + i else i * n + j
    }

    function OutPos(b: nat, i: nat, j: nat): nat {
      (if reduceBs then 0 else b * (m * n)) + CellPos(i, j)
    }

    function OutSize(): nat {
      if reduceBs then m * n else batch * (m * n)
    }

    function XSize(): nat {
      if xIsLarger || bsFlag then batch * (m * k) else m * k
    }

    function YSize(): nat {
      if !xIsLarger || bsFlag then batch * (k * n) else k * n
    }

    function Row(q: nat): nat
      requires q < m * n
    {
      if transOut then q % m else q / n
    }

    function Col(q: nat): nat
      requires q < m * n
    {
      if transOut then q / m else q % n
    }

    /** Every element `BatchedGEMM` reads is in its operand's buffer. */
    predicate Fits(x: seq<real>, y: seq<real>) {
      forall b: nat, i: nat, j: nat, l: nat :: b < batch && i < m && j < n && l < k ==> InReach(x, y, b, i, j, l)
    }

    predicate InReach(x: seq<real>, y: seq<real>, b: nat, i: nat, j: nat, l: nat) {
      XPos(b, i, l) < |x| && YPos(b, l, j) < |y|
    }
  }

  function Get(x: seq<real>, i: nat): real {
    if i < |x| then x[i] else 0.0
  }

  /** One entry of the product of batch `b`. */
  ghost function Cell(g: Gemm, x: seq<real>, y: seq<real>, b: nat, i: nat, j: nat): real {
    Sum(g.k, Factors(g, x, y, b, i, j))
  }

  ghost function Factors(g: Gemm, x: seq<real>, y: seq<real>, b: nat, i: nat, j: nat): nat -> real {
    (l: nat) => Get(x, g.XPos(b, i, l)) * Get(y, g.YPos(b, l, j))
  }

  ghost function CellAt(g: Gemm, x: seq<real>, y: seq<real>, b: nat, q: nat): real {
    if q < g.m * g.n then Cell(g, x, y, b, g.Row(q), g.Col(q)) else 0.0
  }

  ghost function Summed(g: Gemm, x: seq<real>, y: seq<real>, batches: nat, q: nat): real {
    Sum(batches, CellColumn(g, x, y, q))
  }

  ghost function CellColumn(g: Gemm, x: seq<real>, y: seq<real>, q: nat): nat -> real {
    (b: nat) => CellAt(g, x, y, b, q)
  }

  /** The output buffer: batch after batch, or the batches added up. */
  ghost function Run(g: Gemm, x: seq<real>, y: seq<real>): (r: seq<real>)
    ensures |r| == g.OutSize()
  {
    seq(g.OutSize(), o requires 0 <= o < g.OutSize() => OutputAt(g, x, y, o))
  }

  ghost function OutputAt(g: Gemm, x: seq<real>, y: seq<real>, o: nat): real
    requires o < g.OutSize()
  {
    if g.reduceBs then Summed(g, x, y, g.batch, o)
    else CellAt(g, x, y, o / (g.m * g.n), o % (g.m * g.n))
  }

  // ---------- positions ----------

  lemma CellPosUnique(g: Gemm, i: nat, j: nat)
    requires i < g.m && j < g.n
    ensures g.CellPos(i, j) < g.m * g.n
    ensures g.Row(g.CellPos(i, j)) == i && g.Col(g.CellPos(i, j)) == j
  {
    if g.transOut {
      PosBound(j, i, g.n, g.m);
      DivModUnique(j, i, g.m);
    } else {
      PosBound(i, j, g.m, g.n);
      DivModUnique(i, j, g.n);
    }
  }

  lemma RowColBound(g: Gemm, q: nat)
    requires q < g.m * g.n
    ensures g.Row(q) < g.m && g.Col(q) < g.n && g.CellPos(g.Row(q), g.Col(q)) == q
  {
    var d, e := if g.transOut then g.m else g.n, if g.transOut then g.n else g.m;
    DivModExact(q, d);
    if q / d >= e {
      MulMono(e, q / d, d);
    }
  }

  lemma OutPosUnique(g: Gemm, b: nat, i: nat, j: nat)
    requires b < g.batch && i < g.m && j < g.n
    ensures g.OutPos(b, i, j) < g.OutSize()
    ensures !g.reduceBs ==>
      g.OutPos(b, i, j) / (g.m * g.n) == b && g.OutPos(b, i, j) % (g.m * g.n) == g.CellPos(i, j)
  {
    CellPosUnique(g, i, j);
    DivModUnique(b, g.CellPos(i, j), g.m * g.n);
    PosBound(b, g.CellPos(i, j), g.batch, g.m * g.n);
  }

  /** The output at the position of (b, i, j) is the inner product of row i and column j. */
  lemma RunAt(g: Gemm, x: seq<real>, y: seq<real>, b: nat, i: nat, j: nat)
    requires b < g.batch && i < g.m && j < g.n
    ensures g.OutPos(b, i, j) < |Run(g, x, y)|
    ensures !g.reduceBs ==> Run(g, x, y)[g.OutPos(b, i, j)] == Cell(g, x, y, b, i, j)
    ensures g.reduceBs ==>
      Run(g, x, y)[g.OutPos(b, i, j)] == Sum(g.batch, (b': nat) => Cell(g, x, y, b', i, j))
  {
    OutPosUnique(g, b, i, j);
    CellPosUnique(g, i, j);
    if g.reduceBs {
      var q := g.CellPos(i, j);
      SumEq(g.batch, CellColumn(g, x, y, q), (b': nat) => Cell(g, x, y, b', i, j));
    }
  }

  // ---------- the loop nest ----------

  /** Cells are computed row by row, whatever the layout of the output. */
  function Order(g: Gemm, q: nat): nat
    requires q < g.m * g.n
  {
    g.Row(q) * g.n + g.Col(q)
  }

  /** Contents of output cell `o` after `b` whole batches and the first `r` cells of the next. */
  ghost function Partial(g: Gemm, x: seq<real>, y: seq<real>, b: nat, r: nat, o: nat): real
    requires o < g.OutSize()
  {
    if g.reduceBs then
      Summed(g, x, y, b, o) + (if Order(g, o) < r then CellAt(g, x, y, b, o) else 0.0)
    else
      var bo, q := o / (g.m * g.n), o % (g.m * g.n);
      if bo < b || (bo == b && Order(g, q) < r) then CellAt(g, x, y, bo, q) else 0.0
  }

  lemma OrderOfCell(g: Gemm, i: nat, j: nat, q: nat)
    requires i < g.m && j < g.n && q < g.m * g.n
    ensures Order(g, q) == i * g.n + j <==> q == g.CellPos(i, j)
  {
    CellPosUnique(g, i, j);
    RowColBound(g, q);
    if Order(g, q) == i * g.n + j {
      DivModUnique(g.Row(q), g.Col(q), g.n);
      DivModUnique(i, j, g.n);
    }
  }

  lemma PartialStep(g: Gemm, x: seq<real>, y: seq<real>, b: nat, i: nat, j: nat, o: nat)
    requires b < g.batch && i < g.m && j < g.n && o < g.OutSize()
    ensures Partial(g, x, y, b, i * g.n + j + 1, o)
         == Partial(g, x, y, b, i * g.n + j, o)
            + (if o == g.OutPos(b, i, j) then Cell(g, x, y, b, i, j) else 0.0)
  {
    OutPosUnique(g, b, i, j);
    CellPosUnique(g, i, j);
    if g.reduceBs {
      OrderOfCell(g, i, j, o);
    } else {
      var mn := g.m * g.n;
      DivModExact(o, mn);
      OrderOfCell(g, i, j, o % mn);
    }
  }

  lemma PartialBatch(g: Gemm, x: seq<real>, y: seq<real>, b: nat, o: nat)
    requires b < g.batch && o < g.OutSize()
    ensures Partial(g, x, y, b, g.m * g.n, o) == Partial(g, x, y, b + 1, 0, o)
  {
    var q := if g.reduceBs then o else o % (g.m * g.n);
    RowColBound(g, q);
    PosBound(g.Row(q), g.Col(q), g.m, g.n);
  }

  lemma PartialEnd(g: Gemm, x: seq<real>, y: seq<real>, o: nat)
    requires o < g.OutSize()
    ensures Partial(g, x, y, g.batch, 0, o) == OutputAt(g, x, y, o)
  {
    if !g.reduceBs {
      var mn := g.m * g.n;
      DivModExact(o, mn);
      if o / mn >= g.batch { MulMono(g.batch, o / mn, mn); }
    }
  }

  ghost predicate Progress(g: Gemm, x: seq<real>, y: seq<real>, s: seq<real>, b: nat, r: nat) {
    |s| == g.OutSize() && forall o :: 0 <= o < |s| ==> s[o] == Partial(g, x, y, b, r, o)
  }

  lemma ProgressStep(g: Gemm, x: seq<real>, y: seq<real>, s: seq<real>, b: nat, i: nat, j: nat)
    requires b < g.batch && i < g.m && j < g.n && Progress(g, x, y, s, b, i * g.n + j)
    ensures g.OutPos(b, i, j) < |s|
    ensures var p := g.OutPos(b, i, j);
      Progress(g, x, y, s[p := s[p] + Cell(g, x, y, b, i, j)], b, i * g.n + j + 1)
  {
    OutPosUnique(g, b, i, j);
    var p := g.OutPos(b, i, j);
    var s' := s[p := s[p] + Cell(g, x, y, b, i, j)];
    forall o | 0 <= o < |s| ensures s'[o] == Partial(g, x, y, b, i * g.n + j + 1, o) {
      PartialStep(g, x, y, b, i, j, o);
    }
  }

  /** The innermost loop: `*out_data += x_dat * y_dat` over k. */
  method AccumulateCell(g: Gemm, x: seq<real>, y: seq<real>, out: array<real>, b: nat, i: nat, j: nat)
    requires b < g.batch && i < g.m && j < g.n && g.Fits(x, y) && g.OutPos(b, i, j) < out.Length
    modifies out
    ensures var p := g.OutPos(b, i, j);
      out[..] == old(out[..])[p := old(out[..])[p] + Cell(g, x, y, b, i, j)]
  {
    var p := g.OutPos(b, i, j);
    ghost var was := out[..];
    ghost var f := Factors(g, x, y, b, i, j);
    for l := 0 to g.k
      invariant out[p] == was[p] + Sum(l, f)
      invariant forall o :: 0 <= o < out.Length && o != p ==> out[o] == was[o]
    {
      assert g.InReach(x, y, b, i, j, l);
      var xPos, yPos := g.XPos(b, i, l), g.YPos(b, l, j);
      assert f(l) == x[xPos] * y[yPos];
      out[p] := out[p] + x[xPos] * y[yPos];
    }
  }

  method BatchedGemm(g: Gemm, x: seq<real>, y: seq<real>, out: array<real>)
    requires g.Fits(x, y) && out.Length == g.OutSize()
    modifies out
    ensures out[..] == Run(g, x, y)
  {
    forall o | 0 <= o < out.Length { out[o] := 0.0; }
    for b := 0 to g.batch
      invariant Progress(g, x, y, out[..], b, 0)
    {
      for i := 0 to g.m
        invariant Progress(g, x, y, out[..], b, i * g.n)
      {
        for j := 0 to g.n
          invariant Progress(g, x, y, out[..], b, i * g.n + j)
        {
          ProgressStep(g, x, y, out[..], b, i, j);
          AccumulateCell(g, x, y, out, b, i, j);
        }
        assert (i + 1) * g.n == i * g.n + g.n;
      }
      forall o | 0 <= o < out.Length ensures out[o] == Partial(g, x, y, b + 1, 0, o) {
        PartialBatch(g, x, y, b, o);
      }
    }
    forall o | 0 <= o < out.Length ensures out[o] == Run(g, x, y)[o] {
      PartialEnd(g, x, y, o);
    }
  }
}
