/**
  Row-major index arithmetic for tensors of any rank: strides, the dot product of a
  multi-index with a stride vector, its inverse, and the "odometer" by which the CPU
  kernels step through the multi-indices of a tensor.
 */
module Indexing {

  function Product(dims: seq<nat>): nat {
    if dims == [] then 1 else dims[0] * Product(dims[1..])
  }

  function Dot(a: seq<nat>, b: seq<nat>): nat
    requires |a| == |b|
  {
    if a == [] then 0 else a[0] * b[0] + Dot(a[1..], b[1..])
  }

  /** The row-major strides of a shape. */
  function Strides(dims: seq<nat>): (s: seq<nat>)
    ensures |s| == |dims|
  {
    if dims == [] then [] else [Product(dims[1..])] + Strides(dims[1..])
  }

  predicate InBounds(idx: seq<nat>, dims: seq<nat>) {
    |idx| == |dims| && forall j :: 0 <= j < |dims| ==> idx[j] < dims[j]
  }

  /** In bounds except possibly for the leading digit, which the odometer lets grow. */
  predicate TailInBounds(idx: seq<nat>, dims: seq<nat>) {
    |idx| == |dims| && forall j :: 1 <= j < |dims| ==> idx[j] < dims[j]
  }

  /** The flat position of a multi-index. */
  function Encode(dims: seq<nat>, idx: seq<nat>): nat
    requires |idx| == |dims|
  {
    Dot(idx, Strides(dims))
  }

  /** The multi-index of a flat position, most significant digit first. */
  function Decode(dims: seq<nat>, i: nat): (idx: seq<nat>)
    requires Product(dims) > 0
    ensures |idx| == |dims|
  {
    if dims == [] then []
    else
      var p := Product(dims[1..]);
      assert p > 0;
      [i / p] + Decode(dims[1..], i % p)
  }

  /** The element of a row-major buffer at a multi-index. */
  function At<T>(x: seq<T>, dims: seq<nat>, idx: seq<nat>): T
    requires |x| == Product(dims) && InBounds(idx, dims)
  {
    EncodeBound(dims, idx);
    x[Encode(dims, idx)]
  }

  /** An axis argument, negative ones counted from the last axis. */
  predicate InRank(d: int, rank: nat) {
    0 <= d + rank && d < rank
  }

  function CanonicalAxis(d: int, rank: nat): (axis: nat)
    requires InRank(d, rank)
    ensures axis < rank && (d == axis || d == axis - rank)
  {
    if d < 0 then d + rank else d
  }

  /** An axis, or an axis less the rank, is in rank and resolves to that axis. */
  lemma AxisArgument(d: int, rank: nat, a: nat)
    requires a < rank && (d == a || d == a - rank)
    ensures InRank(d, rank) && CanonicalAxis(d, rank) == a
  {
  }

  function Min(a: int, b: int): (m: int)
    ensures m <= a && m <= b && (m == a || m == b)
  {
    if b < a then b else a
  }

  function Max(a: int, b: int): (m: int)
    ensures a <= m && b <= m && (m == a || m == b)
  {
    if a < b then b else a
  }

  predicate AllPositive(dims: seq<int>) {
    forall i :: 0 <= i < |dims| ==> dims[i] > 0
  }

  /** Division truncating towards zero. */
  function TruncDiv(a: int, b: int): int
    requires b != 0
  {
    if a >= 0 then (if b > 0 then a / b else -(a / -b))
    else (if b > 0 then -(-a / b) else -a / -b)
  }

  /** The quotient is the one that leaves a remainder smaller than the divisor and of the dividend's sign. */
  lemma TruncDivMeans(a: int, b: int, q: int)
    requires b != 0
    ensures TruncDiv(a, b) == q <==>
      (if a >= 0 then 0 <= a - q * b < Abs(b) else 0 - Abs(b) < a - q * b <= 0)
  {
    var n, d := Abs(a), Abs(b);
    var m := if (a >= 0) == (b > 0) then q else -q;
    assert m * d == (if a >= 0 then q * b else -(q * b));
    DivModExact(n, d);
    if 0 <= n - m * d < d {
      QuotientOf(n, d, m);
    }
  }

  lemma QuotientOf(n: nat, d: nat, m: int)
    requires d > 0 && 0 <= n - m * d < d
    ensures n / d == m
  {
    if m < 0 { MulMono(m, -1, d); }
    DivModUnique(m, n - m * d, d);
  }

  function Abs(a: int): (n: nat)
    ensures n == a || n == -a
  {
    if a < 0 then -a else a
  }

  // ---------- Encode and Decode are mutually inverse ----------

  lemma EncodeStep(dims: seq<nat>, idx: seq<nat>)
    requires |idx| == |dims| > 0
    ensures Encode(dims, idx) == idx[0] * Product(dims[1..]) + Encode(dims[1..], idx[1..])
  {
    assert Strides(dims)[1..] == Strides(dims[1..]);
  }

  lemma {:induction false} EncodeBound(dims: seq<nat>, idx: seq<nat>)
    requires InBounds(idx, dims)
    ensures Encode(dims, idx) < Product(dims)
  {
    if dims != [] {
      EncodeStep(dims, idx);
      EncodeBound(dims[1..], idx[1..]);
      PosBound(idx[0], Encode(dims[1..], idx[1..]), dims[0], Product(dims[1..]));
    }
  }

  lemma {:induction false} DecodeInverse(dims: seq<nat>, i: nat)
    requires Product(dims) > 0
    requires dims != [] || i == 0
    ensures TailInBounds(Decode(dims, i), dims)
    ensures Encode(dims, Decode(dims, i)) == i
    ensures i < Product(dims) ==> InBounds(Decode(dims, i), dims)
  {
    if dims != [] {
      var p := Product(dims[1..]);
      var idx := Decode(dims, i);
      assert p > 0;
      DecodeInverse(dims[1..], i % p);
      EncodeStep(dims, idx);
      assert idx[1..] == Decode(dims[1..], i % p);
      DivModExact(i, p);
      if i < Product(dims) && idx[0] >= dims[0] {
        MulMono(dims[0], idx[0], p);
      }
    }
  }

  lemma {:induction false} DecodeUnique(dims: seq<nat>, idx: seq<nat>)
    requires TailInBounds(idx, dims) && Product(dims) > 0
    ensures Decode(dims, Encode(dims, idx)) == idx
  {
    if dims != [] {
      var p, r := Product(dims[1..]), Encode(dims[1..], idx[1..]);
      EncodeStep(dims, idx);
      EncodeBound(dims[1..], idx[1..]);
      DivModUnique(idx[0], r, p);
      DecodeUnique(dims[1..], idx[1..]);
    }
  }

  lemma MulMono(a: int, b: int, p: nat)
    requires a <= b
    ensures a * p <= b * p
  {
  }

  lemma PosBound(i: nat, j: nat, m: nat, n: nat)
    requires i < m && j < n
    ensures i * n + j < m * n
  {
    MulMono(i + 1, m, n);
  }

  lemma InBlock(dims: seq<nat>, a: nat, b: nat)
    requires dims != [] && a < dims[0] && b < Product(dims[1..])
    ensures a * Product(dims[1..]) + b < Product(dims)
  {
    PosBound(a, b, dims[0], Product(dims[1..]));
  }

  lemma MulAssoc(a: nat, b: nat, c: nat)
    ensures a * (b * c) == a * b * c
  {
  }

  lemma DivModExact(n: nat, p: nat)
    requires p > 0
    ensures n == n / p * p + n % p
  {
  }

  lemma DivModUnique(q: nat, r: nat, p: nat)
    requires r < p
    ensures (q * p + r) / p == q && (q * p + r) % p == r
  {
    var n := q * p + r;
    DivModExact(n, p);
    if n / p > q {
      MulMono(q + 1, n / p, p);
    } else if n / p < q {
      MulMono(n / p + 1, q, p);
    }
  }

  /** A position in `m` blocks of `n` cells splits into its block and its cell. */
  lemma SplitPosition(m: nat, n: nat, p: nat) returns (i: nat, k: nat)
    requires p < m * n
    ensures i < m && k < n && p == i * n + k
  {
    if n == 0 {
      assert false;
    } else {
      i, k := p / n, p % n;
      DivModExact(p, n);
      if i >= m { MulMono(m, i, n); }
    }
  }

  /** Two buffers that agree at every multi-index are the same buffer. */
  lemma SameBuffer<T>(a: seq<T>, b: seq<T>, dims: seq<nat>)
    requires |a| == |b| == Product(dims)
    requires forall idx :: InBounds(idx, dims) ==> At(a, dims, idx) == At(b, dims, idx)
    ensures a == b
  {
    forall i | 0 <= i < |a| ensures a[i] == b[i] {
      DecodeInverse(dims, i);
      assert At(a, dims, Decode(dims, i)) == At(b, dims, Decode(dims, i));
    }
  }

  // ---------- dot products under update and pointwise equality ----------

  lemma {:induction false} DotUpdate(a: seq<nat>, b: seq<nat>, j: nat, v: nat)
    requires |a| == |b| && j < |a|
    ensures Dot(a[j := v], b) == Dot(a, b) - a[j] * b[j] + v * b[j]
  {
    if j == 0 {
      assert a[j := v][1..] == a[1..];
    } else {
      assert a[j := v][1..] == a[1..][j - 1 := v];
      DotUpdate(a[1..], b[1..], j - 1, v);
    }
  }

  lemma {:induction false} DotZeros(n: nat, b: seq<nat>)
    requires n == |b|
    ensures Dot(seq(n, _ => 0), b) == 0
  {
    if n > 0 {
      assert seq(n, _ => 0)[1..] == seq<nat>(n - 1, _ => 0);
      DotZeros(n - 1, b[1..]);
    }
  }

  lemma {:induction false} StridesAt(dims: seq<nat>, k: nat)
    requires k < |dims|
    ensures Strides(dims)[k] == Product(dims[k + 1..])
  {
    if k > 0 {
      StridesAt(dims[1..], k - 1);
      assert dims[1..][k..] == dims[k + 1..];
    }
  }

  lemma {:induction false} ProductPositive(dims: seq<nat>)
    ensures Product(dims) > 0 <==> forall j :: 0 <= j < |dims| ==> dims[j] > 0
  {
    if dims != [] {
      ProductPositive(dims[1..]);
      assert forall j :: 1 <= j < |dims| ==> dims[j] == dims[1..][j - 1];
      assert dims[0] > 0 && Product(dims[1..]) > 0 ==> dims[0] * Product(dims[1..]) > 0;
    }
  }

  lemma {:induction false} ProductConcat(a: seq<nat>, b: seq<nat>)
    ensures Product(a + b) == Product(a) * Product(b)
  {
    if a == [] {
      assert a + b == b;
    } else {
      assert (a + b)[1..] == a[1..] + b;
      ProductConcat(a[1..], b);
      MulAssoc(a[0], Product(a[1..]), Product(b));
    }
  }

  // ---------- splitting a shape, and blocks of a buffer ----------

  lemma ProductAppend(dims: seq<nat>, w: nat)
    ensures Product(dims + [w]) == Product(dims) * w
  {
    ProductConcat(dims, [w]);
  }

  /** Appending an axis appends a digit. */
  lemma {:induction false} EncodeAppend(dims: seq<nat>, idx: seq<nat>, w: nat, c: nat)
    requires |idx| == |dims|
    ensures Encode(dims + [w], idx + [c]) == Encode(dims, idx) * w + c
  {
    if dims == [] {
      assert dims + [w] == [w] && idx + [c] == [c];
      EncodeStep([w], [c]);
    } else {
      assert (dims + [w])[1..] == dims[1..] + [w] && (idx + [c])[1..] == idx[1..] + [c];
      EncodeStep(dims + [w], idx + [c]);
      EncodeStep(dims, idx);
      EncodeAppend(dims[1..], idx[1..], w, c);
      ProductConcat(dims[1..], [w]);
      AppendArithmetic(idx[0], Product(dims[1..]), w, Encode(dims[1..], idx[1..]), c);
    }
  }

  lemma AppendArithmetic(a: nat, p: nat, w: nat, e: nat, c: nat)
    ensures a * (p * w) + (e * w + c) == (a * p + e) * w + c
  {
    MulAssoc(a, p, w);
  }

  /** The flat position splits at any axis. */
  lemma {:induction false} EncodeSplit(a: seq<nat>, b: seq<nat>, i: seq<nat>, j: seq<nat>)
    requires |i| == |a| && |j| == |b|
    ensures Encode(a + b, i + j) == Encode(a, i) * Product(b) + Encode(b, j)
  {
    if a == [] {
      assert a + b == b && i + j == j;
    } else {
      assert (a + b)[1..] == a[1..] + b && (i + j)[1..] == i[1..] + j;
      EncodeStep(a + b, i + j);
      EncodeStep(a, i);
      EncodeSplit(a[1..], b, i[1..], j);
      ProductConcat(a[1..], b);
      AppendArithmetic(i[0], Product(a[1..]), Product(b), Encode(a[1..], i[1..]), Encode(b, j));
    }
  }

  /** Block `i` of a buffer of blocks of width `w`. */
  function Block<T>(s: seq<T>, w: nat, m: nat, i: nat): (b: seq<T>)
    requires |s| == m * w && i < m
    ensures |b| == w
  {
    BlockBounds(m, w, i);
    s[i * w..i * w + w]
  }

  lemma BlockAt<T>(s: seq<T>, w: nat, m: nat, i: nat, t: nat, k: nat)
    requires |s| == m * w && i < m && t < w && k == i * w + t
    ensures k < |s| && Block(s, w, m, i)[t] == s[k]
  {
    BlockBounds(m, w, i);
    SliceAt(s, i * w, w, t);
  }

  lemma SliceAt<T>(s: seq<T>, lo: nat, w: nat, t: nat)
    requires t < w && lo + w <= |s|
    ensures s[lo..lo + w][t] == s[lo + t]
  {
  }

  lemma NextBlock(r: nat, w: nat)
    ensures r * w + w == (r + 1) * w
  {
  }

  lemma BlockBounds(m: nat, w: nat, i: nat)
    requires i < m
    ensures i * w + w <= m * w
  {
    MulMono(i + 1, m, w);
  }

  // ---------- the loops ----------

  /** `vec_product`: the accumulation loop behind `Dot`. */
  method VecProduct(a: seq<nat>, b: seq<nat>) returns (ret: nat)
    requires |a| == |b|
    ensures ret == Dot(a, b)
  {
    ret := 0;
    assert a[0..] == a && b[0..] == b;
    for i := 0 to |a|
      invariant ret + Dot(a[i..], b[i..]) == Dot(a, b)
    {
      assert a[i..][1..] == a[i + 1..] && b[i..][1..] == b[i + 1..];
      ret := ret + a[i] * b[i];
    }
  }

  /** `product`: the accumulation loop behind `Product`. */
  method ProductLoop(dims: seq<nat>) returns (p: nat)
    ensures p == Product(dims)
  {
    p := 1;
    assert dims[0..] == dims;
    for i := 0 to |dims|
      invariant p * Product(dims[i..]) == Product(dims)
    {
      assert dims[i..][1..] == dims[i + 1..];
      MulAssoc(p, dims[i], Product(dims[i + 1..]));
      p := p * dims[i];
    }
  }

  /** The suffix-product loop by which every kernel computes its `step` vector. */
  method ComputeSteps(dims: seq<nat>) returns (step: seq<nat>)
    requires |dims| > 0
    ensures step == Strides(dims)
  {
    step := seq(|dims|, _ => 1);
    var i := |dims| - 1;
    assert dims[|dims|..] == [];
    while i > 0
      invariant 0 <= i < |dims| == |step|
      invariant Filled(dims, step, i)
    {
      FillStep(dims, step, i - 1);
      step := step[i - 1 := step[i] * dims[i]];
      i := i - 1;
    }
    FilledAll(dims, step);
  }

  /** The entries of `s` from position `from` on are the strides of `dims`. */
  ghost predicate Filled(dims: seq<nat>, s: seq<nat>, from: nat) {
    |s| == |dims| && forall k :: from <= k < |dims| ==> s[k] == Product(dims[k + 1..])
  }

  lemma FillStep(dims: seq<nat>, s: seq<nat>, k: nat)
    requires k + 1 < |dims| && Filled(dims, s, k + 1)
    ensures Filled(dims, s[k := s[k + 1] * dims[k + 1]], k)
  {
    assert dims[k + 1..][1..] == dims[k + 2..];
  }

  lemma FilledAll(dims: seq<nat>, s: seq<nat>)
    requires Filled(dims, s, 0)
    ensures s == Strides(dims)
  {
    forall k | 0 <= k < |dims| ensures s[k] == Strides(dims)[k] {
      StridesAt(dims, k);
    }
  }

  /**
    The odometer at position `n` while it carries into digit `j`: no other digit but the first may
    have reached its extent.
   */
  ghost predicate Carrying(dims: seq<nat>, idx: seq<nat>, j: nat, n: nat) {
    && |idx| == |dims| && j < |dims|
    && Encode(dims, idx) == n
    && (idx[j] <= dims[j] || j == 0)
    && forall k :: 1 <= k < |dims| && k != j ==> idx[k] < dims[k]
  }

  lemma CarryStart(dims: seq<nat>, i: nat)
    requires |dims| > 0 && Product(dims) > 0
    ensures var last, idx := |dims| - 1, Decode(dims, i);
      Carrying(dims, idx[last := idx[last] + 1], last, i + 1)
  {
    var last, idx := |dims| - 1, Decode(dims, i);
    StridesAt(dims, last);
    DecodeInverse(dims, i);
    DotUpdate(idx, Strides(dims), last, idx[last] + 1);
  }

  lemma CarryStep(dims: seq<nat>, idx: seq<nat>, j: nat, n: nat)
    requires Carrying(dims, idx, j, n) && j > 0 && idx[j] >= dims[j] && Product(dims) > 0
    ensures Carrying(dims, idx[j := 0][j - 1 := idx[j - 1] + 1], j - 1, n)
  {
    CarryKeepsPosition(dims, idx, j);
    ProductPositive(dims);
  }

  lemma CarryDone(dims: seq<nat>, idx: seq<nat>, j: nat, n: nat)
    requires Carrying(dims, idx, j, n) && (j == 0 || idx[j] < dims[j]) && Product(dims) > 0
    ensures idx == Decode(dims, n)
  {
    DecodeUnique(dims, idx);
  }

  /**
    The carry loop that ends each iteration of the odometer kernels. It takes the multi-index of one
    position to that of the next; only the leading digit may run past its extent.
   */
  method Advance(dims: seq<nat>, index: seq<nat>, ghost i: nat) returns (next: seq<nat>)
    requires |dims| > 0 && Product(dims) > 0 && index == Decode(dims, i)
    ensures next == Decode(dims, i + 1)
  {
    CarryStart(dims, i);
    var j := |dims| - 1;
    next := index[j := index[j] + 1];
    while j > 0
      invariant Carrying(dims, next, j, i + 1)
    {
      if next[j] >= dims[j] {
        CarryStep(dims, next, j, i + 1);
        next := next[j := 0][j - 1 := next[j - 1] + 1];
        j := j - 1;
      } else {
        break;
      }
    }
    CarryDone(dims, next, j, i + 1);
  }

  lemma CarryKeepsPosition(dims: seq<nat>, idx: seq<nat>, j: nat)
    requires 0 < j < |dims| == |idx| && idx[j] == dims[j]
    ensures Encode(dims, idx[j := 0][j - 1 := idx[j - 1] + 1]) == Encode(dims, idx)
  {
    var s := Strides(dims);
    DotUpdate(idx, s, j, 0);
    DotUpdate(idx[j := 0], s, j - 1, idx[j - 1] + 1);
    StridesAt(dims, j);
    StridesAt(dims, j - 1);
    assert dims[j..][1..] == dims[j + 1..];
    CarryArithmetic(Dot(idx, s), idx[j - 1], s[j - 1], dims[j], s[j]);
  }

  lemma CarryArithmetic(total: nat, digit: nat, bigStep: nat, dim: nat, step: nat)
    requires bigStep == dim * step
    ensures total - dim * step + 0 * step - digit * bigStep + (digit + 1) * bigStep == total
  {
  }

  /** The odometer's initial multi-index. */
  method FirstIndex(dims: seq<nat>) returns (index: seq<nat>)
    requires Product(dims) > 0 && dims != []
    ensures index == Decode(dims, 0)
  {
    index := seq(|dims|, _ => 0);
    ZeroIndex(dims);
  }

  /** The odometer starts at position 0. */
  lemma ZeroIndex(dims: seq<nat>)
    requires Product(dims) > 0 && dims != []
    ensures Decode(dims, 0) == seq(|dims|, _ => 0)
  {
    DotZeros(|dims|, Strides(dims));
    ProductPositive(dims);
    DecodeUnique(dims, seq(|dims|, _ => 0));
  }
}
