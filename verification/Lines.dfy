/**
  Lines of a tensor along an axis, and the (outer, axis, inner) indexing by which the kernels
  walk them: every cell of the buffer is on exactly one line, at one place.
 */
module Lines {
  import opened Indexing

  /** The number of elements in one layer of a tensor below the axis. */
  function Inner(d: seq<nat>, axis: nat): nat
    requires axis < |d|
  {
    Product(d[axis + 1..])
  }

  function Outer(d: seq<nat>, axis: nat): nat
    requires axis < |d|
  {
    Product(d[..axis])
  }

  /** A tensor is `Outer` blocks, each of as many layers as the axis is long. */
  lemma BlockSize(d: seq<nat>, axis: nat)
    requires axis < |d|
    ensures Product(d) == Outer(d, axis) * (Inner(d, axis) * d[axis])
  {
    var tail := d[axis..];
    assert d == d[..axis] + tail && tail[1..] == d[axis + 1..];
    ProductConcat(d[..axis], tail);
    assert Product(tail) == Inner(d, axis) * d[axis] by { Commute(d[axis], Inner(d, axis)); }
  }

  lemma Commute(a: nat, b: nat)
    ensures a * b == b * a
  {
  }

  /** A position is a block of the outer axes, a layer within it, and a place in the layer. */
  lemma EncodeAround(d: seq<nat>, axis: nat, idx: seq<nat>)
    requires axis < |d| && InBounds(idx, d)
    ensures Encode(d[..axis], idx[..axis]) < Outer(d, axis)
    ensures Encode(d[axis + 1..], idx[axis + 1..]) < Inner(d, axis)
    ensures Encode(d, idx) == Encode(d[..axis], idx[..axis]) * (d[axis] * Inner(d, axis))
                              + (idx[axis] * Inner(d, axis) + Encode(d[axis + 1..], idx[axis + 1..]))
  {
    var da, ia := d[axis..], idx[axis..];
    EncodeBound(d[..axis], idx[..axis]);
    assert d == d[..axis] + da && idx == idx[..axis] + ia;
    assert da[1..] == d[axis + 1..] && ia[1..] == idx[axis + 1..];
    EncodeBound(d[axis + 1..], idx[axis + 1..]);
    EncodeSplit(d[..axis], da, idx[..axis], ia);
    EncodeStep(da, ia);
  }

  /** The cells that differ from `idx` only along the axis. */
  function Line<T>(x: seq<T>, dims: seq<nat>, axis: nat, idx: seq<nat>): (line: seq<T>)
    requires |x| == Product(dims) && axis < |dims| && InBounds(idx, dims)
    ensures |line| == dims[axis] && forall t :: 0 <= t < |line| ==> line[t] == At(x, dims, idx[axis := t])
  {
    seq(dims[axis], t requires 0 <= t < dims[axis] => At(x, dims, idx[axis := t]))
  }

  /** A cell is on the line through it. */
  lemma CellOnItsLine<T>(x: seq<T>, dims: seq<nat>, axis: nat, idx: seq<nat>)
    requires |x| == Product(dims) && axis < |dims| && InBounds(idx, dims)
    ensures At(x, dims, idx) == Line(x, dims, axis, idx)[idx[axis]]
  {
    assert idx[axis := idx[axis]] == idx;
  }

  // ---------- lines by number ----------

  /** The cell at place `j` of line `c`, for an axis of `n` layers of `r` cells. */
  function CellOf(n: nat, r: nat, c: nat, j: nat): nat
    requires r > 0
  {
    c / r * (n * r) + (j * r + c % r)
  }

  /** The line a cell is on. */
  function LineNo(n: nat, r: nat, p: nat): nat
    requires n * r > 0 && r > 0
  {
    p / (n * r) * r + p % (n * r) % r
  }

  /** A cell's place on its line. */
  function AxisNo(n: nat, r: nat, p: nat): nat
    requires n * r > 0 && r > 0
  {
    p % (n * r) / r
  }

  /** The kernels' index expression, with its line number split in two. */
  lemma CellAt(n: nat, r: nat, i: nat, j: nat, k: nat)
    requires k < r
    ensures CellOf(n, r, i * r + k, j) == i * (n * r) + (j * r + k)
  {
    DivModUnique(i, k, r);
  }

  /** A line number and a place name one cell of the buffer. */
  lemma CellHasCoordinates(m: nat, n: nat, r: nat, c: nat, j: nat)
    requires c < m * r && j < n
    ensures r > 0 && n * r > 0
    ensures CellOf(n, r, c, j) < m * (n * r)
    ensures LineNo(n, r, CellOf(n, r, c, j)) == c && AxisNo(n, r, CellOf(n, r, c, j)) == j
  {
    var i, k := SplitPosition(m, r, c);
    CellAt(n, r, i, j, k);
    PosBound(j, k, n, r);
    PosBound(i, j * r + k, m, n * r);
    DivModUnique(i, j * r + k, n * r);
    DivModUnique(j, k, r);
  }

  /** Every cell of the buffer is named. */
  lemma CoordinatesNameCell(m: nat, n: nat, r: nat, p: nat)
    requires p < m * (n * r)
    ensures r > 0 && n * r > 0
    ensures LineNo(n, r, p) < m * r && AxisNo(n, r, p) < n
    ensures CellOf(n, r, LineNo(n, r, p), AxisNo(n, r, p)) == p
  {
    var i, q := SplitPosition(m, n * r, p);
    var j, k := SplitPosition(n, r, q);
    DivModUnique(i, q, n * r);
    DivModUnique(j, k, r);
    CellAt(n, r, i, j, k);
    PosBound(i, k, m, r);
  }

  /** Line `c` of a buffer. */
  function Column<T>(x: seq<T>, m: nat, n: nat, r: nat, c: nat): (l: seq<T>)
    requires |x| == m * (n * r) && c < m * r
    ensures |l| == n
  {
    seq(n, j requires 0 <= j < n => ColumnCell(x, m, n, r, c, j))
  }

  function ColumnCell<T>(x: seq<T>, m: nat, n: nat, r: nat, c: nat, j: nat): T
    requires |x| == m * (n * r) && c < m * r && j < n
  {
    CellHasCoordinates(m, n, r, c, j);
    x[CellOf(n, r, c, j)]
  }

  /** The numbered lines are the lines along the axis. */
  lemma LineIsColumn<T>(x: seq<T>, dims: seq<nat>, axis: nat, idx: seq<nat>) returns (c: nat)
    requires |x| == Product(dims) && axis < |dims| && InBounds(idx, dims)
    ensures Product(dims) == Outer(dims, axis) * (dims[axis] * Inner(dims, axis))
    ensures c == LineOf(dims, axis, idx) < Outer(dims, axis) * Inner(dims, axis)
    ensures Line(x, dims, axis, idx) == Column(x, Outer(dims, axis), dims[axis], Inner(dims, axis), c)
  {
    BlockSize(dims, axis);
    Commute(dims[axis], Inner(dims, axis));
    c := LineOf(dims, axis, idx);
    EncodeAround(dims, axis, idx);
    PosBound(Encode(dims[..axis], idx[..axis]), Encode(dims[axis + 1..], idx[axis + 1..]), Outer(dims, axis),
      Inner(dims, axis));
    forall j: nat | j < dims[axis]
      ensures At(x, dims, idx[axis := j]) == ColumnCell(x, Outer(dims, axis), dims[axis], Inner(dims, axis), c, j)
    {
      LinePosition(dims, axis, idx, j);
      CellHasCoordinates(Outer(dims, axis), dims[axis], Inner(dims, axis), c, j);
    }
  }

  /** The number of the line through a multi-index. */
  function LineOf(dims: seq<nat>, axis: nat, idx: seq<nat>): nat
    requires axis < |dims| == |idx|
  {
    Encode(dims[..axis], idx[..axis]) * Inner(dims, axis) + Encode(dims[axis + 1..], idx[axis + 1..])
  }

  lemma LinePosition(dims: seq<nat>, axis: nat, idx: seq<nat>, j: nat)
    requires axis < |dims| && InBounds(idx, dims) && j < dims[axis]
    ensures Inner(dims, axis) > 0
    ensures Encode(dims, idx[axis := j]) == CellOf(dims[axis], Inner(dims, axis), LineOf(dims, axis, idx), j)
  {
    var moved := idx[axis := j];
    assert moved[..axis] == idx[..axis] && moved[axis + 1..] == idx[axis + 1..];
    EncodeAround(dims, axis, moved);
    CellAt(dims[axis], Inner(dims, axis), Encode(dims[..axis], idx[..axis]), j,
      Encode(dims[axis + 1..], idx[axis + 1..]));
  }

  // ---------- writing one line ----------

  /** `now` differs from `before` only on line `c`, whose first `j` cells are those of `vals`. */
  ghost predicate Written<T>(before: seq<T>, now: seq<T>, m: nat, n: nat, r: nat, c: nat, vals: seq<T>, j: nat) {
    && |before| == |now| == m * (n * r) && c < m * r && j <= |vals| == n
    && (forall b {:trigger Column(now, m, n, r, b)} :: 0 <= b < m * r && b != c ==>
      Column(now, m, n, r, b) == Column(before, m, n, r, b))
    && forall t :: 0 <= t < j ==> ColumnCell(now, m, n, r, c, t) == vals[t]
  }

  lemma WriteCell<T>(before: seq<T>, now: seq<T>, m: nat, n: nat, r: nat, c: nat, vals: seq<T>, j: nat)
    requires Written(before, now, m, n, r, c, vals, j) && j < n
    ensures r > 0 && CellOf(n, r, c, j) < |now|
    ensures Written(before, now[CellOf(n, r, c, j) := vals[j]], m, n, r, c, vals, j + 1)
  {
    CellHasCoordinates(m, n, r, c, j);
    var after := now[CellOf(n, r, c, j) := vals[j]];
    forall b | 0 <= b < m * r && b != c ensures Column(after, m, n, r, b) == Column(before, m, n, r, b) {
      OtherLineKept(now, after, m, n, r, c, j, vals[j], b);
      assert Column(now, m, n, r, b) == Column(before, m, n, r, b);
    }
    forall t | 0 <= t < j + 1 ensures ColumnCell(after, m, n, r, c, t) == vals[t] {
      CellHasCoordinates(m, n, r, c, t);
      if t < j { assert ColumnCell(now, m, n, r, c, t) == vals[t]; }
    }
  }

  lemma OtherLineKept<T>(now: seq<T>, after: seq<T>, m: nat, n: nat, r: nat, c: nat, j: nat, v: T, b: nat)
    requires |now| == m * (n * r) && c < m * r && j < n && b < m * r && b != c && r > 0 && CellOf(n, r, c, j) < |now|
    requires after == now[CellOf(n, r, c, j) := v]
    ensures Column(after, m, n, r, b) == Column(now, m, n, r, b)
  {
    CellHasCoordinates(m, n, r, c, j);
    forall t: nat | t < n ensures ColumnCell(after, m, n, r, b, t) == ColumnCell(now, m, n, r, b, t) {
      CellHasCoordinates(m, n, r, b, t);
    }
  }

  /** Writing one cell updates one place of one line. */
  lemma PutCell<T>(now: seq<T>, m: nat, n: nat, r: nat, c: nat, j: nat, v: T)
    requires |now| == m * (n * r) && c < m * r && j < n
    ensures r > 0 && CellOf(n, r, c, j) < |now|
    ensures var after := now[CellOf(n, r, c, j) := v];
      Column(after, m, n, r, c) == Column(now, m, n, r, c)[j := v] && OtherLines(now, after, m, n, r, c)
  {
    CellHasCoordinates(m, n, r, c, j);
    var after := now[CellOf(n, r, c, j) := v];
    forall b | 0 <= b < m * r && b != c ensures Column(after, m, n, r, b) == Column(now, m, n, r, b) {
      OtherLineKept(now, after, m, n, r, c, j, v, b);
    }
    forall t: nat | t < n
      ensures ColumnCell(after, m, n, r, c, t) == if t == j then v else ColumnCell(now, m, n, r, c, t)
    {
      CellHasCoordinates(m, n, r, c, t);
    }
  }

  /** Only line `c` may differ. */
  ghost predicate OtherLines<T>(before: seq<T>, now: seq<T>, m: nat, n: nat, r: nat, c: nat) {
    |before| == |now| == m * (n * r)
    && forall b {:trigger Column(now, m, n, r, b)} :: 0 <= b < m * r && b != c ==>
      Column(now, m, n, r, b) == Column(before, m, n, r, b)
  }

  lemma WrittenLine<T>(before: seq<T>, now: seq<T>, m: nat, n: nat, r: nat, c: nat, vals: seq<T>)
    requires Written(before, now, m, n, r, c, vals, n)
    ensures Column(now, m, n, r, c) == vals
  {
  }

  lemma NothingWritten<T>(x: seq<T>, m: nat, n: nat, r: nat, c: nat, vals: seq<T>)
    requires |x| == m * (n * r) && c < m * r && |vals| == n
    ensures Written(x, x, m, n, r, c, vals, 0)
  {
  }

  // ---------- the kernels' loops ----------

  /** The kernels' buffers: `m` blocks of `n` layers of `r` cells, line `c` being line `k` of block `i`. */
  ghost predicate OnLine<T>(x: seq<T>, m: nat, n: nat, r: nat, i: nat, k: nat, c: nat) {
    |x| == m * (n * r) && i < m && k < r && c == i * r + k && c < m * r
  }

  /** The kernels' index expression, which finds place `j` of the line. */
  method CellIndex<T>(ghost x: seq<T>, ghost m: nat, n: nat, r: nat, i: nat, j: nat, k: nat, ghost c: nat)
    returns (p: nat)
    requires OnLine(x, m, n, r, i, k, c) && j < n
    ensures r > 0 && p == CellOf(n, r, c, j) < |x| && x[p] == Column(x, m, n, r, c)[j]
  {
    CellAt(n, r, i, j, k);
    CellHasCoordinates(m, n, r, c, j);
    p := i * (n * r) + j * r + k;
  }

  /** The first `n` cells have their new values. */
  ghost predicate Updated(before: seq<real>, now: seq<real>, f: (nat, nat, real) -> real, n: nat, r: nat, cnt: nat)
    requires n * r > 0 && r > 0
  {
    |before| == |now| && cnt <= |now|
    && (forall p :: 0 <= p < cnt ==> now[p] == f(LineNo(n, r, p), p, before[p]))
    && forall p :: cnt <= p < |now| ==> now[p] == before[p]
  }

  /** One layer of a block: `r` cells, each on its own line. */
  method UpdateLayer(m: nat, n: nat, r: nat, i: nat, j: nat, x: array<real>, f: (nat, nat, real) -> real,
                     ghost before: seq<real>, base: nat)
    requires x.Length == m * (n * r) && i < m && j < n && r > 0 && n * r > 0 && base == i * (n * r) + j * r
    requires Updated(before, x[..], f, n, r, base) && base + r <= x.Length
    modifies x
    ensures Updated(before, x[..], f, n, r, base + r)
  {
    for k := 0 to r
      invariant Updated(before, x[..], f, n, r, base + k)
    {
      PosBound(i, k, m, r);
      CellHasCoordinates(m, n, r, i * r + k, j);
      CellAt(n, r, i, j, k);
      x[base + k] := f(i * r + k, base + k, x[base + k]);
    }
  }

  /**
    The loops over blocks, layers and cells that several kernels share: `f` gives a cell's new value
    from its line, position and old value.
   */
  method UpdateCells(m: nat, n: nat, r: nat, x: array<real>, f: (nat, nat, real) -> real)
    requires x.Length == m * (n * r) && n * r > 0 && r > 0
    modifies x
    ensures Updated(old(x[..]), x[..], f, n, r, x.Length)
  {
    ghost var before := x[..];
    for i := 0 to m
      invariant Updated(before, x[..], f, n, r, i * (n * r))
    {
      BlockBounds(m, n * r, i);
      NextBlock(i, n * r);
      ghost var start := i * (n * r);
      for j := 0 to n
        invariant Updated(before, x[..], f, n, r, start + j * r)
      {
        BlockBounds(n, r, j);
        NextBlock(j, r);
        UpdateLayer(m, n, r, i, j, x, f, before, i * (n * r) + j * r);
      }
    }
  }

  /** What the loops leave on a line. */
  lemma UpdatedColumn(before: seq<real>, now: seq<real>, f: (nat, nat, real) -> real, m: nat, n: nat, r: nat, c: nat,
                      j: nat)
    requires |before| == m * (n * r) && n * r > 0 && r > 0 && c < m * r && j < n
    requires Updated(before, now, f, n, r, |before|)
    ensures |now| == |before| && CellOf(n, r, c, j) < |now|
    ensures Column(now, m, n, r, c)[j] == f(c, CellOf(n, r, c, j), Column(before, m, n, r, c)[j])
  {
    CellHasCoordinates(m, n, r, c, j);
  }
}
