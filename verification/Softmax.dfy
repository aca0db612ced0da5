/**
  The softmax kernel and its gradient. The exponential is any positive, strictly increasing
  function; arguments are clipped from below before it is applied.
 */
module Softmax {
  import opened Indexing
  import opened Lines
  import opened Sums

  predicate Below(a: real, b: real) {
    a < b
  }

  /** Positive and strictly increasing. */
  ghost predicate ExpLike(e: real -> real) {
    (forall a :: e(a) > 0.0) && (forall a, b {:trigger Below(a, b)} :: Below(a, b) ==> e(a) < e(b))
  }

  lemma ExpOrder(e: real -> real, a: real, b: real)
    requires ExpLike(e)
    ensures e(a) > 0.0
    ensures a < b <==> e(a) < e(b)
  {
    assert Below(a, b) || a == b || Below(b, a);
  }

  function Plus(a: real, b: real): real {
    a + b
  }

  /** The exponential turns sums into products. */
  ghost predicate Multiplicative(e: real -> real) {
    forall a, b {:trigger Plus(a, b)} :: e(Plus(a, b)) == e(a) * e(b)
  }

  const THRESHOLD: real := -64.0

  function ValueClip(x: real): real {
    if x < THRESHOLD then THRESHOLD else x
  }

  // ---------- one line ----------

  /** The greatest of the first element and the first `j`. */
  function MaxUpTo(l: seq<real>, j: nat): (r: real)
    requires |l| > 0 && j <= |l|
    ensures l[0] <= r && forall t :: 0 <= t < j ==> l[t] <= r
    ensures exists t :: 0 <= t < |l| && l[t] == r
  {
    if j == 0 then l[0] else var before := MaxUpTo(l, j - 1); if before < l[j - 1] then l[j - 1] else before
  }

  function MaxOf(l: seq<real>): (r: real)
    requires |l| > 0
    ensures forall t :: 0 <= t < |l| ==> l[t] <= r
    ensures exists t :: 0 <= t < |l| && l[t] == r
  {
    MaxUpTo(l, |l|)
  }

  /** The exponentials of a line, relative to its maximum. */
  function ExpLine(e: real -> real, l: seq<real>): (x: seq<real>)
    requires |l| > 0
    ensures |x| == |l| && forall j :: 0 <= j < |l| ==> x[j] == e(ValueClip(l[j] - MaxOf(l)))
  {
    seq(|l|, j requires 0 <= j < |l| => e(ValueClip(l[j] - MaxOf(l))))
  }

  ghost function Total(l: seq<real>): real {
    Sum(|l|, Cells(l))
  }

  lemma TotalPositive(l: seq<real>)
    requires |l| > 0 && forall j :: 0 <= j < |l| ==> l[j] > 0.0
    ensures Total(l) > 0.0
  {
    SumPositive(|l|, Cells(l));
  }

  /** Each element divided by the total. */
  ghost function Normalized(l: seq<real>): (s: seq<real>)
    requires Total(l) != 0.0
    ensures |s| == |l| && forall j :: 0 <= j < |l| ==> s[j] == l[j] / Total(l)
  {
    seq(|l|, j requires 0 <= j < |l| => l[j] / Total(l))
  }

  lemma ExpLineTotal(e: real -> real, l: seq<real>)
    requires ExpLike(e) && |l| > 0
    ensures Total(ExpLine(e, l)) > 0.0
  {
    TotalPositive(ExpLine(e, l));
  }

  ghost function SoftmaxLine(e: real -> real, l: seq<real>): (s: seq<real>)
    requires ExpLike(e) && |l| > 0
    ensures |s| == |l|
  {
    ExpLineTotal(e, l);
    Normalized(ExpLine(e, l))
  }

  /** Each element's exponential, clipped at 64 below the greatest, over the total of all of them. */
  lemma SoftmaxLineMeans(e: real -> real, l: seq<real>, max: real, x: seq<real>)
    requires ExpLike(e) && |l| > 0 && (forall j :: 0 <= j < |l| ==> l[j] <= max) && max in l
    requires |x| == |l|
    requires forall j :: 0 <= j < |l| ==> x[j] == e(if l[j] - max < -64.0 then -64.0 else l[j] - max)
    ensures Sum(|x|, Cells(x)) > 0.0
    ensures forall j :: 0 <= j < |l| ==> SoftmaxLine(e, l)[j] == x[j] / Sum(|x|, Cells(x))
  {
    ExpLineTotal(e, l);
    OnlyMax(l, max);
    forall j | 0 <= j < |l| ensures x[j] == ExpLine(e, l)[j] {
      assert ValueClip(l[j] - max) == if l[j] - max < -64.0 then -64.0 else l[j] - max;
    }
    assert x == ExpLine(e, l);
  }

  lemma OnlyMax(l: seq<real>, max: real)
    requires |l| > 0 && (forall j :: 0 <= j < |l| ==> l[j] <= max) && max in l
    ensures MaxOf(l) == max
  {
  }

  lemma DivideScales(a: real, t: real)
    requires t != 0.0
    ensures a / t == a * (1.0 / t) && t * (1.0 / t) == 1.0
  {
  }

  lemma NormalizedTotal(l: seq<real>)
    requires Total(l) != 0.0
    ensures Total(Normalized(l)) == 1.0
  {
    var t := Total(l);
    var c := 1.0 / t;
    forall j: nat | j < |l| ensures ScalesAt(Cells(l), Cells(Normalized(l)), c, j) {
      DivideScales(l[j], t);
    }
    SumScaled(|l|, Cells(l), Cells(Normalized(l)), c);
    DivideScales(t, t);
  }

  /** A line of the output is a probability distribution. */
  lemma SoftmaxIsDistribution(e: real -> real, l: seq<real>)
    requires ExpLike(e) && |l| > 0
    ensures Total(SoftmaxLine(e, l)) == 1.0
    ensures forall j :: 0 <= j < |l| ==> 0.0 < SoftmaxLine(e, l)[j] <= 1.0
  {
    var s := SoftmaxLine(e, l);
    ExpLineTotal(e, l);
    NormalizedTotal(ExpLine(e, l));
    forall j | 0 <= j < |l| ensures s[j] > 0.0 {
      PositiveQuotient(ExpLine(e, l)[j], Total(ExpLine(e, l)));
    }
    forall j: nat | j < |l| ensures s[j] <= 1.0 { PartOfTotal(s, j); }
  }

  lemma PositiveQuotient(a: real, t: real)
    requires a > 0.0 && t > 0.0
    ensures a / t > 0.0
  {
  }

  lemma PartOfTotal(s: seq<real>, j: nat)
    requires j < |s| && forall t :: 0 <= t < |s| ==> s[t] > 0.0
    ensures s[j] <= Total(s)
  {
    var only := (t: nat) => if t == j then s[j] else 0.0;
    SumSingle(|s|, only, j);
    SumMonotone(|s|, only, Cells(s));
  }

  function Shifted(l: seq<real>, c: real): (s: seq<real>)
    ensures |s| == |l| && forall j :: 0 <= j < |l| ==> s[j] == l[j] + c
  {
    seq(|l|, j requires 0 <= j < |l| => l[j] + c)
  }

  /** Adding a constant to a line does not change its softmax. */
  lemma ShiftInvariant(e: real -> real, l: seq<real>, c: real)
    requires ExpLike(e) && |l| > 0
    ensures SoftmaxLine(e, Shifted(l, c)) == SoftmaxLine(e, l)
  {
    var s := Shifted(l, c);
    ShiftedMax(l, c);
    forall j | 0 <= j < |l| ensures s[j] - MaxOf(s) == l[j] - MaxOf(l) {
    }
    assert ExpLine(e, s) == ExpLine(e, l);
  }

  lemma ShiftedMax(l: seq<real>, c: real)
    requires |l| > 0
    ensures MaxOf(Shifted(l, c)) == MaxOf(l) + c
  {
    var s := Shifted(l, c);
    var t :| 0 <= t < |l| && l[t] == MaxOf(l);
    var u :| 0 <= u < |s| && s[u] == MaxOf(s);
    assert s[t] <= MaxOf(s) && l[u] <= MaxOf(l);
  }

  /** Softmax keeps the order of two elements, strictly unless the greater one is clipped too. */
  lemma SoftmaxOrder(e: real -> real, l: seq<real>, a: nat, b: nat)
    requires ExpLike(e) && a < |l| && b < |l|
    ensures l[a] <= l[b] ==> SoftmaxLine(e, l)[a] <= SoftmaxLine(e, l)[b]
    ensures SoftmaxLine(e, l)[a] < SoftmaxLine(e, l)[b] <==> l[a] < l[b] && l[b] > MaxOf(l) - 64.0
  {
    var x := ExpLine(e, l);
    ExpLineTotal(e, l);
    QuotientOrder(x[a], x[b], Total(x));
    QuotientOrder(x[b], x[a], Total(x));
    ExpOrder(e, ValueClip(l[a] - MaxOf(l)), ValueClip(l[b] - MaxOf(l)));
    ExpOrder(e, ValueClip(l[b] - MaxOf(l)), ValueClip(l[a] - MaxOf(l)));
  }

  lemma QuotientOrder(a: real, b: real, t: real)
    requires t > 0.0
    ensures a < b <==> a / t < b / t
  {
    DivideScales(a, t);
    DivideScales(b, t);
    ScaleOrder(a, b, 1.0 / t);
  }

  lemma ScaleOrder(a: real, b: real, c: real)
    requires c > 0.0
    ensures a < b <==> a * c < b * c
  {
    if a < b { assert (b - a) * c > 0.0; } else { assert (a - b) * c >= 0.0; }
  }

  // ---------- the textbook formula ----------

  /** The exponentials of a line as they stand. */
  function PlainExps(e: real -> real, l: seq<real>): (x: seq<real>)
    ensures |x| == |l| && forall j :: 0 <= j < |l| ==> x[j] == e(l[j])
  {
    seq(|l|, j requires 0 <= j < |l| => e(l[j]))
  }

  lemma PlainTotal(e: real -> real, l: seq<real>)
    requires ExpLike(e) && |l| > 0
    ensures Total(PlainExps(e, l)) > 0.0
  {
    var x := PlainExps(e, l);
    forall j | 0 <= j < |x| ensures x[j] > 0.0 {
      ExpOrder(e, l[j], l[j]);
    }
    TotalPositive(x);
  }

  ghost function Textbook(e: real -> real, l: seq<real>): (s: seq<real>)
    requires ExpLike(e) && |l| > 0
    ensures |s| == |l|
  {
    PlainTotal(e, l);
    Normalized(PlainExps(e, l))
  }

  /** The line relative to its maximum, without clipping. */
  function Centred(l: seq<real>): (s: seq<real>)
    requires |l| > 0
    ensures |s| == |l|
  {
    Shifted(l, -MaxOf(l))
  }

  /** With an exponential that turns sums into products, subtracting the maximum changes nothing. */
  lemma TextbookCentred(e: real -> real, l: seq<real>)
    requires ExpLike(e) && |l| > 0 && Multiplicative(e)
    ensures Textbook(e, l) == Textbook(e, Centred(l))
  {
    var x, y, k := PlainExps(e, l), PlainExps(e, Centred(l)), e(MaxOf(l));
    PlainTotal(e, l);
    PlainTotal(e, Centred(l));
    forall j: nat | j < |l| ensures x[j] == y[j] * k {
      CentredFactor(e, l[j], MaxOf(l));
    }
    ScaledNormalized(x, y, k);
  }

  lemma CentredFactor(e: real -> real, a: real, b: real)
    requires Multiplicative(e)
    ensures e(a) == e(a + -b) * e(b)
  {
    assert Plus(a + -b, b) == a;
  }

  /** A common factor cancels. */
  lemma ScaledNormalized(x: seq<real>, y: seq<real>, k: real)
    requires |x| == |y| && forall j {:trigger x[j]} :: 0 <= j < |x| ==> x[j] == y[j] * k
    requires Total(x) > 0.0 && Total(y) > 0.0 && k > 0.0
    ensures Normalized(x) == Normalized(y)
  {
    forall j: nat | j < |x| ensures ScalesAt(Cells(y), Cells(x), k, j) {
      assert x[j] == y[j] * k;
    }
    SumScaled(|x|, Cells(y), Cells(x), k);
    forall j | 0 <= j < |x| ensures x[j] / Total(x) == y[j] / Total(y) {
      CancelFactor(y[j], Total(y), k);
    }
  }

  lemma CancelFactor(a: real, b: real, k: real)
    requires b > 0.0 && k > 0.0
    ensures b * k > 0.0 && a * k / (b * k) == a / b
  {
    var q := a / b;
    assert a == q * b;
    assert a * k == q * (b * k);
  }

  /** The kernel's line is the textbook softmax exactly when nothing lies more than 64 below the maximum. */
  lemma ClipInvisible(e: real -> real, l: seq<real>)
    requires ExpLike(e) && |l| > 0 && Multiplicative(e)
    ensures SoftmaxLine(e, l) == Textbook(e, l) <==> forall j :: 0 <= j < |l| ==> l[j] - MaxOf(l) >= -64.0
  {
    TextbookCentred(e, l);
    if j :| 0 <= j < |l| && l[j] - MaxOf(l) < THRESHOLD {
      ClipShows(e, l, j);
    } else {
      assert ExpLine(e, l) == PlainExps(e, Centred(l));
    }
  }

  /** Clipping raises the total, and so lowers the share of the maximum. */
  lemma ClipShows(e: real -> real, l: seq<real>, j: nat)
    requires ExpLike(e) && j < |l| && l[j] - MaxOf(l) < THRESHOLD
    ensures SoftmaxLine(e, l) != Textbook(e, Centred(l))
  {
    var x, y := ExpLine(e, l), PlainExps(e, Centred(l));
    ExpLineTotal(e, l);
    PlainTotal(e, Centred(l));
    forall t: nat | t < |l| ensures y[t] <= x[t] {
      ExpOrder(e, ValueClip(l[t] - MaxOf(l)), l[t] - MaxOf(l));
    }
    ExpOrder(e, l[j] - MaxOf(l), ValueClip(l[j] - MaxOf(l)));
    assert Cells(y)(j) < Cells(x)(j);
    SumMonotone(|l|, Cells(y), Cells(x));
    var t :| 0 <= t < |l| && l[t] == MaxOf(l);
    assert x[t] == e(0.0) && y[t] == e(0.0);
    LargerTotal(x[t], Total(x), Total(y));
    assert SoftmaxLine(e, l)[t] != Textbook(e, Centred(l))[t];
  }

  lemma LargerTotal(a: real, t: real, u: real)
    requires a > 0.0 && t > u > 0.0
    ensures a / t < a / u
  {
    var q := a / t;
    assert q > 0.0 && q * t == a;
    assert q * u < q * t;
    assert a / u * u == a;
    ScaleOrder(q, a / u, u);
  }

  // ---------- the gradient of one line ----------

  ghost function LineDot(s: seq<real>, g: seq<real>): real {
    Sum(|s|, Times(Cells(s), Cells(g)))
  }

  ghost function GradLine(s: seq<real>, g: seq<real>): (x: seq<real>)
    requires |g| == |s|
    ensures |x| == |s| && forall j :: 0 <= j < |s| ==> x[j] == (g[j] - LineDot(s, g)) * s[j]
  {
    seq(|s|, j requires 0 <= j < |s| => (g[j] - LineDot(s, g)) * s[j])
  }

  /** The terms of `f` are those of `g` less `c` times those of `h`. */
  ghost predicate Differs(n: nat, f: nat -> real, g: nat -> real, h: nat -> real, c: real) {
    forall i: nat {:trigger DiffersAt(f, g, h, c, i)} :: i < n ==> DiffersAt(f, g, h, c, i)
  }

  ghost predicate DiffersAt(f: nat -> real, g: nat -> real, h: nat -> real, c: real, i: nat) {
    f(i) == g(i) - c * h(i)
  }

  lemma {:induction false} SumDifference(n: nat, f: nat -> real, g: nat -> real, h: nat -> real, c: real)
    requires Differs(n, f, g, h, c)
    ensures Sum(n, f) == Sum(n, g) - c * Sum(n, h)
  {
    if n > 0 {
      SumDifference(n - 1, f, g, h, c);
      assert DiffersAt(f, g, h, c, n - 1);
      AddDifferences(Sum(n - 1, g), Sum(n - 1, h), g(n - 1), h(n - 1), c);
    }
  }

  lemma AddDifferences(g0: real, h0: real, g: real, h: real, c: real)
    ensures (g0 - c * h0) + (g - c * h) == (g0 + g) - c * (h0 + h)
  {
  }

  /**
    The gradient along a line sums to zero when the probabilities sum to one; in general to the dot
    product times the defect.
   */
  lemma GradLineTotal(s: seq<real>, g: seq<real>)
    requires |g| == |s|
    ensures Total(GradLine(s, g)) == LineDot(s, g) * (1.0 - Total(s))
  {
    GradTerms(s, g, LineDot(s, g));
    SumDifference(|s|, Cells(GradLine(s, g)), Times(Cells(s), Cells(g)), Cells(s), LineDot(s, g));
    OneLess(LineDot(s, g), Total(s));
  }

  lemma GradTerms(s: seq<real>, g: seq<real>, d: real)
    requires |g| == |s| && d == LineDot(s, g)
    ensures Differs(|s|, Cells(GradLine(s, g)), Times(Cells(s), Cells(g)), Cells(s), d)
  {
    forall j: nat | j < |s| ensures DiffersAt(Cells(GradLine(s, g)), Times(Cells(s), Cells(g)), Cells(s), d, j) {
      Expand(g[j], d, s[j]);
    }
  }

  lemma OneLess(d: real, t: real)
    ensures d - d * t == d * (1.0 - t)
  {
  }

  lemma Expand(a: real, b: real, c: real)
    ensures (a - b) * c == c * a - b * c
  {
  }

  lemma SoftmaxGradTotal(e: real -> real, l: seq<real>, g: seq<real>)
    requires ExpLike(e) && |g| == |l| > 0
    ensures Total(GradLine(SoftmaxLine(e, l), g)) == 0.0
  {
    SoftmaxIsDistribution(e, l);
    GradLineTotal(SoftmaxLine(e, l), g);
  }

  /** The gradient is its own adjoint, as the Jacobian of softmax is symmetric. */
  lemma GradSelfAdjoint(s: seq<real>, g: seq<real>, h: seq<real>)
    requires |g| == |h| == |s|
    ensures LineDot(GradLine(s, g), h) == LineDot(GradLine(s, h), g)
  {
    PairingTerms(s, g, h, LineDot(s, g));
    PairingTerms(s, h, g, LineDot(s, h));
    TripleTotals(s, g, h);
    EqualDifferences(|s|, Times(Cells(GradLine(s, g)), Cells(h)), Times(Cells(GradLine(s, h)), Cells(g)),
                     Times(Cells(s), Cells(g)), Times(Cells(s), Cells(h)), Triple(s, g, h), Triple(s, h, g),
                     LineDot(s, g), LineDot(s, h));
  }

  lemma EqualDifferences(n: nat, p: nat -> real, q: nat -> real, u: nat -> real, v: nat -> real,
                         f1: nat -> real, f2: nat -> real, a: real, b: real)
    requires Differs(n, p, f1, v, a) && Differs(n, q, f2, u, b)
    requires a == Sum(n, u) && b == Sum(n, v) && Sum(n, f1) == Sum(n, f2)
    ensures Sum(n, p) == Sum(n, q)
  {
    SumDifference(n, p, f1, v, a);
    SumDifference(n, q, f2, u, b);
    CommuteReal(a, b);
  }

  lemma TripleTotals(s: seq<real>, g: seq<real>, h: seq<real>)
    requires |g| == |h| == |s|
    ensures Sum(|s|, Triple(s, g, h)) == Sum(|s|, Triple(s, h, g))
  {
    forall j: nat | j < |s| ensures Triple(s, g, h)(j) == Triple(s, h, g)(j) {
      SwapFactors(s[j], g[j], h[j]);
    }
    SumEq(|s|, Triple(s, g, h), Triple(s, h, g));
  }

  ghost function Triple(s: seq<real>, g: seq<real>, h: seq<real>): nat -> real {
    (j: nat) => if j < |s| && |s| == |g| == |h| then s[j] * g[j] * h[j] else 0.0
  }

  lemma SwapFactors(a: real, b: real, c: real)
    ensures a * b * c == a * c * b
  {
  }

  lemma CommuteReal(a: real, b: real)
    ensures a * b == b * a
  {
  }

  lemma PairingTerms(s: seq<real>, g: seq<real>, h: seq<real>, d: real)
    requires |g| == |h| == |s| && d == LineDot(s, g)
    ensures Differs(|s|, Times(Cells(GradLine(s, g)), Cells(h)), Triple(s, g, h), Times(Cells(s), Cells(h)), d)
  {
    forall j: nat | j < |s|
      ensures DiffersAt(Times(Cells(GradLine(s, g)), Cells(h)), Triple(s, g, h), Times(Cells(s), Cells(h)), d, j)
    {
      PairingTerm(s[j], g[j], h[j], d);
    }
  }

  lemma PairingTerm(s: real, g: real, h: real, d: real)
    ensures (g - d) * s * h == s * g * h - d * (s * h)
  {
  }

  // ---------- the forward kernel ----------

  method LineMax(input: seq<real>, ghost m: nat, n: nat, r: nat, i: nat, k: nat, ghost c: nat) returns (maxVal: real)
    requires OnLine(input, m, n, r, i, k, c) && n > 0
    ensures maxVal == MaxOf(Column(input, m, n, r, c))
  {
    ghost var l := Column(input, m, n, r, c);
    var first := CellIndex(input, m, n, r, i, 0, k, c);
    maxVal := input[first];
    for j := 0 to n
      invariant maxVal == MaxUpTo(l, j)
    {
      var p := CellIndex(input, m, n, r, i, j, k, c);
      maxVal := if maxVal < input[p] then input[p] else maxVal;
    }
  }

  /** The first `j` exponentials of a line whose maximum is `top`. */
  ghost predicate ExpsDone(e: real -> real, l: seq<real>, top: real, x: seq<real>, j: nat) {
    |x| == |l| && j <= |x| && forall t :: 0 <= t < j ==> x[t] == e(ValueClip(l[t] - top))
  }

  lemma ExpsAreExpLine(e: real -> real, l: seq<real>, x: seq<real>)
    requires |l| > 0 && ExpsDone(e, l, MaxOf(l), x, |l|)
    ensures x == ExpLine(e, l)
  {
  }

  method LineExps(input: seq<real>, ghost m: nat, n: nat, r: nat, i: nat, k: nat, ghost c: nat, maxVal: real,
                  e: real -> real)
    returns (exps: array<real>)
    requires OnLine(input, m, n, r, i, k, c) && n > 0 && maxVal == MaxOf(Column(input, m, n, r, c))
    ensures fresh(exps) && exps[..] == ExpLine(e, Column(input, m, n, r, c))
  {
    exps := FillExps(input, m, n, r, i, k, c, maxVal, e);
    ExpsAreExpLine(e, Column(input, m, n, r, c), exps[..]);
  }

  method FillExps(input: seq<real>, ghost m: nat, n: nat, r: nat, i: nat, k: nat, ghost c: nat, maxVal: real,
                  e: real -> real)
    returns (exps: array<real>)
    requires OnLine(input, m, n, r, i, k, c)
    ensures fresh(exps) && ExpsDone(e, Column(input, m, n, r, c), maxVal, exps[..], n)
  {
    exps := new real[n];
    for j := 0 to n
      invariant ExpsDone(e, Column(input, m, n, r, c), maxVal, exps[..], j)
    {
      var p := CellIndex(input, m, n, r, i, j, k, c);
      exps[j] := e(ValueClip(input[p] - maxVal));
    }
  }

  method SumOf(a: array<real>) returns (sum: real)
    ensures sum == Total(a[..])
  {
    sum := 0.0;
    for j := 0 to a.Length
      invariant sum == Sum(j, Cells(a[..]))
    {
      sum := sum + a[j];
    }
  }

  /** The body of the kernel's loop over lines. */
  method SoftmaxColumn(input: seq<real>, out: array<real>, ghost m: nat, n: nat, r: nat, i: nat, k: nat, ghost c: nat,
                       e: real -> real)
    requires OnLine(input, m, n, r, i, k, c) && n > 0 && ExpLike(e) && out.Length == |input|
    modifies out
    ensures Written(old(out[..]), out[..], m, n, r, c, SoftmaxLine(e, Column(input, m, n, r, c)), n)
  {
    var maxVal := LineMax(input, m, n, r, i, k, c);
    var exps := LineExps(input, m, n, r, i, k, c, maxVal, e);
    var sum := SumOf(exps);
    ghost var s := SoftmaxLine(e, Column(input, m, n, r, c));
    ExpLineTotal(e, Column(input, m, n, r, c));
    ghost var before := out[..];
    NothingWritten(before, m, n, r, c, s);
    for j := 0 to n
      invariant Written(before, out[..], m, n, r, c, s, j)
      invariant exps[..] == ExpLine(e, Column(input, m, n, r, c))
    {
      WriteCell(before, out[..], m, n, r, c, s, j);
      var p := CellIndex(out[..], m, n, r, i, j, k, c);
      out[p] := exps[j] / sum;
    }
  }

  /** The first `cnt` lines hold the softmax of the input's lines. */
  ghost predicate SoftmaxDone(input: seq<real>, out: seq<real>, m: nat, n: nat, r: nat, cnt: nat, e: real -> real)
    requires ExpLike(e)
  {
    |input| == |out| == m * (n * r) && n > 0 && cnt <= m * r
    && forall c :: 0 <= c < cnt ==> Column(out, m, n, r, c) == SoftmaxLine(e, Column(input, m, n, r, c))
  }

  lemma SoftmaxOneMore(input: seq<real>, before: seq<real>, after: seq<real>, m: nat, n: nat, r: nat, c: nat,
                       e: real -> real)
    requires ExpLike(e) && SoftmaxDone(input, before, m, n, r, c, e) && c < m * r
    requires Written(before, after, m, n, r, c, SoftmaxLine(e, Column(input, m, n, r, c)), n)
    ensures SoftmaxDone(input, after, m, n, r, c + 1, e)
  {
    WrittenLine(before, after, m, n, r, c, SoftmaxLine(e, Column(input, m, n, r, c)));
  }

  /** The kernel's inner loop over the lines of block `i`, the first of which is line `c0`. */
  method SoftmaxBlock(axisDim: nat, input: seq<real>, out: array<real>, ghost m: nat, remain: nat, i: nat,
                      ghost c0: nat, e: real -> real)
    requires ExpLike(e) && i < m && c0 == i * remain && SoftmaxDone(input, out[..], m, axisDim, remain, c0, e)
    modifies out
    ensures SoftmaxDone(input, out[..], m, axisDim, remain, c0 + remain, e)
  {
    BlockBounds(m, remain, i);
    for k := 0 to remain
      invariant SoftmaxDone(input, out[..], m, axisDim, remain, c0 + k, e)
    {
      ghost var before := out[..];
      SoftmaxColumn(input, out, m, axisDim, remain, i, k, c0 + k, e);
      SoftmaxOneMore(input, before, out[..], m, axisDim, remain, c0 + k, e);
    }
  }

  /** `Softmax`, on `m` blocks of `n` cells of which the axis takes `axisDim` layers. */
  method Softmax(axisDim: nat, input: seq<real>, out: array<real>, m: nat, n: nat, e: real -> real)
    requires axisDim > 0 && n % axisDim == 0 && |input| == out.Length == m * n && ExpLike(e)
    modifies out
    ensures n == axisDim * (n / axisDim)
    ensures SoftmaxDone(input, out[..], m, axisDim, n / axisDim, m * (n / axisDim), e)
  {
    var remain := n / axisDim;
    DivModExact(n, axisDim);
    for i := 0 to m
      invariant SoftmaxDone(input, out[..], m, axisDim, remain, i * remain, e)
    {
      SoftmaxBlock(axisDim, input, out, m, remain, i, i * remain, e);
      NextBlock(i, remain);
    }
  }

  /** `SizeToAxis`. */
  method SizeToAxis(axis: nat, dims: seq<nat>) returns (size: nat)
    requires axis < |dims|
    ensures size == Outer(dims, axis)
  {
    size := ProductLoop(dims[..axis]);
  }

  /** `SizeFromAxis`. */
  method SizeFromAxis(axis: nat, dims: seq<nat>) returns (size: nat)
    requires axis < |dims|
    ensures size == dims[axis] * Inner(dims, axis)
  {
    size := ProductLoop(dims[axis..]);
    assert dims[axis..][1..] == dims[axis + 1..];
  }

  /** `SoftmaxKernel`, for rank at least one: every line along the axis becomes its softmax. */
  method SoftmaxKernel(x: seq<real>, dims: seq<nat>, axis: int, ghost a: nat, e: real -> real, out: array<real>)
    requires a < |dims| && (axis == a || axis == a - |dims|) && |x| == out.Length == Product(dims) && ExpLike(e)
    modifies out
    ensures SoftmaxAlong(x, out[..], dims, a, e)
  {
    AxisArgument(axis, |dims|, a);
    var calcAxis := CanonicalAxis(axis, |dims|);
    var axisDim := dims[calcAxis];
    if out.Length == 0 {
      forall idx | InBounds(idx, dims) ensures false { EncodeBound(dims, idx); }
      return;
    }
    ProductPositive(dims);
    var n := SizeToAxis(calcAxis, dims);
    var d := SizeFromAxis(calcAxis, dims);
    AxisDivides(dims, calcAxis);
    Softmax(axisDim, x, out, n, d, e);
    SoftmaxLines(x, out[..], dims, calcAxis, e);
  }

  /** Every line along the axis becomes its softmax. */
  ghost predicate SoftmaxAlong(x: seq<real>, out: seq<real>, dims: seq<nat>, a: nat, e: real -> real)
    requires a < |dims| && |x| == |out| == Product(dims) && ExpLike(e)
  {
    forall idx :: InBounds(idx, dims) ==> Line(out, dims, a, idx) == SoftmaxLine(e, Line(x, dims, a, idx))
  }

  /** The layers' size divides a block, and the blocks make up the tensor. */
  lemma AxisDivides(dims: seq<nat>, axis: nat)
    requires axis < |dims| && dims[axis] > 0
    ensures Product(dims) == Outer(dims, axis) * (dims[axis] * Inner(dims, axis))
    ensures dims[axis] * Inner(dims, axis) % dims[axis] == 0
    ensures dims[axis] * Inner(dims, axis) / dims[axis] == Inner(dims, axis)
  {
    BlockSize(dims, axis);
    Commute(dims[axis], Inner(dims, axis));
    DivModUnique(Inner(dims, axis), 0, dims[axis]);
  }

  /** When all numbered lines are done, all lines along the axis are. */
  lemma SoftmaxLines(x: seq<real>, out: seq<real>, dims: seq<nat>, axis: nat, e: real -> real)
    requires axis < |dims| && |x| == |out| == Product(dims) && ExpLike(e)
    requires SoftmaxDone(x, out, Outer(dims, axis), dims[axis], Inner(dims, axis),
      Outer(dims, axis) * Inner(dims, axis), e)
    ensures SoftmaxAlong(x, out, dims, axis, e)
  {
    forall idx | InBounds(idx, dims) ensures Line(out, dims, axis, idx) == SoftmaxLine(e, Line(x, dims, axis, idx)) {
      var c := LineIsColumn(x, dims, axis, idx);
      var c' := LineIsColumn(out, dims, axis, idx);
    }
  }

  // ---------- the gradient kernel ----------

  /** The dot products of the first `cnt` lines. */
  ghost predicate Dotted(s: seq<real>, g: seq<real>, dot: seq<real>, m: nat, n: nat, r: nat, cnt: nat) {
    |s| == |g| == m * (n * r) && |dot| == m * r && cnt <= m * r
    && forall c :: 0 <= c < cnt ==> dot[c] == LineDot(Column(s, m, n, r, c), Column(g, m, n, r, c))
  }

  /** The loop that accumulates the dot product of one line. */
  method DotLine(s: seq<real>, g: seq<real>, ghost m: nat, n: nat, r: nat, i: nat, k: nat, ghost c: nat)
    returns (d: real)
    requires OnLine(s, m, n, r, i, k, c) && |g| == |s|
    ensures d == LineDot(Column(s, m, n, r, c), Column(g, m, n, r, c))
  {
    ghost var f := Times(Cells(Column(s, m, n, r, c)), Cells(Column(g, m, n, r, c)));
    d := 0.0;
    for j := 0 to n
      invariant d == Sum(j, f)
    {
      var p := CellIndex(s, m, n, r, i, j, k, c);
      var q := CellIndex(g, m, n, r, i, j, k, c);
      d := d + s[p] * g[q];
    }
  }

  /** The first loop nest of `SoftmaxGrad`. */
  method DotLines(s: seq<real>, g: seq<real>, m: nat, n: nat, r: nat) returns (dot: array<real>)
    requires |s| == |g| == m * (n * r)
    ensures fresh(dot) && Dotted(s, g, dot[..], m, n, r, m * r)
  {
    dot := new real[m * r];
    for i := 0 to m
      invariant Dotted(s, g, dot[..], m, n, r, i * r)
    {
      BlockBounds(m, r, i);
      NextBlock(i, r);
      DotBlock(s, g, m, n, r, i, i * r, dot);
    }
  }

  method DotBlock(s: seq<real>, g: seq<real>, ghost m: nat, n: nat, r: nat, i: nat, c0: nat, dot: array<real>)
    requires i < m && c0 == i * r && c0 + r <= m * r && Dotted(s, g, dot[..], m, n, r, c0)
    modifies dot
    ensures Dotted(s, g, dot[..], m, n, r, c0 + r)
  {
    for k := 0 to r
      invariant Dotted(s, g, dot[..], m, n, r, c0 + k)
    {
      dot[c0 + k] := DotLine(s, g, m, n, r, i, k, c0 + k);
    }
  }

  function GradTerm(g: real, d: real, s: real): real {
    (g - d) * s
  }

  /** The value of one cell of the gradient, given the dot product of its line. */
  function GradCell(s: seq<real>, g: seq<real>, dot: seq<real>): (nat, nat, real) -> real {
    (c: nat, p: nat, _: real) => if c < |dot| && p < |s| && p < |g| then GradTerm(g[p], dot[c], s[p]) else 0.0
  }

  /** `SoftmaxGrad`, on `m` blocks of `n` cells of which the axis takes `axisDim` layers. */
  method SoftmaxGrad(out: seq<real>, outGrad: seq<real>, axisDim: nat, m: nat, n: nat, xGrad: array<real>)
    requires axisDim > 0 && n > 0 && n % axisDim == 0 && |out| == |outGrad| == xGrad.Length == m * n
    modifies xGrad
    ensures n == axisDim * (n / axisDim)
    ensures GradDone(out, outGrad, xGrad[..], m, axisDim, n / axisDim)
  {
    var numRemain := n / axisDim;
    DivModExact(n, axisDim);
    var dot := DotLines(out, outGrad, m, axisDim, numRemain);
    ghost var before := xGrad[..];
    UpdateCells(m, axisDim, numRemain, xGrad, GradCell(out, outGrad, dot[..]));
    GradColumns(out, outGrad, dot[..], before, xGrad[..], m, axisDim, numRemain);
  }

  /** Every line holds its gradient. */
  ghost predicate GradDone(s: seq<real>, g: seq<real>, x: seq<real>, m: nat, n: nat, r: nat) {
    |s| == |g| == |x| == m * (n * r)
    && forall c :: 0 <= c < m * r ==>
         Column(x, m, n, r, c) == GradLine(Column(s, m, n, r, c), Column(g, m, n, r, c))
  }

  lemma GradColumns(s: seq<real>, g: seq<real>, dot: seq<real>, before: seq<real>, x: seq<real>, m: nat, n: nat, r: nat)
    requires n * r > 0 && r > 0 && Dotted(s, g, dot, m, n, r, m * r) && |before| == |s|
    requires Updated(before, x, GradCell(s, g, dot), n, r, |before|)
    ensures GradDone(s, g, x, m, n, r)
  {
    forall c | 0 <= c < m * r
      ensures Column(x, m, n, r, c) == GradLine(Column(s, m, n, r, c), Column(g, m, n, r, c))
    {
      GradColumn(s, g, dot, before, x, m, n, r, c);
    }
  }

  lemma GradColumn(s: seq<real>, g: seq<real>, dot: seq<real>, before: seq<real>, x: seq<real>, m: nat, n: nat, r: nat,
                   c: nat)
    requires n * r > 0 && r > 0 && Dotted(s, g, dot, m, n, r, m * r) && |before| == |s| && c < m * r
    requires Updated(before, x, GradCell(s, g, dot), n, r, |before|)
    ensures Column(x, m, n, r, c) == GradLine(Column(s, m, n, r, c), Column(g, m, n, r, c))
  {
    var sl, gl, xl := Column(s, m, n, r, c), Column(g, m, n, r, c), Column(x, m, n, r, c);
    forall j: nat | j < n ensures xl[j] == GradTerm(gl[j], dot[c], sl[j]) {
      GradColumnCell(s, g, dot, before, x, m, n, r, c, j);
    }
    GradLineFrom(sl, gl, xl, dot[c]);
  }

  lemma GradColumnCell(s: seq<real>, g: seq<real>, dot: seq<real>, before: seq<real>, x: seq<real>,
                       m: nat, n: nat, r: nat, c: nat, j: nat)
    requires n * r > 0 && r > 0 && |s| == |g| == |before| == m * (n * r) && |dot| == m * r && c < m * r && j < n
    requires Updated(before, x, GradCell(s, g, dot), n, r, |before|)
    ensures Column(x, m, n, r, c)[j] == GradTerm(Column(g, m, n, r, c)[j], dot[c], Column(s, m, n, r, c)[j])
  {
    UpdatedColumn(before, x, GradCell(s, g, dot), m, n, r, c, j);
  }

  lemma GradLineFrom(s: seq<real>, g: seq<real>, x: seq<real>, d: real)
    requires |s| == |g| == |x| && d == LineDot(s, g)
    requires forall j: nat :: j < |x| ==> x[j] == GradTerm(g[j], d, s[j])
    ensures x == GradLine(s, g)
  {
  }

  /** `SoftmaxGradKernel`, for rank at least one. */
  method SoftmaxGradKernel(out: seq<real>, outGrad: seq<real>, dims: seq<nat>, axis: int, ghost a: nat,
                           xGrad: array<real>)
    requires a < |dims| && (axis == a || axis == a - |dims|) && |out| == |outGrad| == xGrad.Length == Product(dims)
    modifies xGrad
    ensures forall idx :: InBounds(idx, dims) ==>
      Line(xGrad[..], dims, a, idx) == GradLine(Line(out, dims, a, idx), Line(outGrad, dims, a, idx))
  {
    AxisArgument(axis, |dims|, a);
    var calcAxis := CanonicalAxis(axis, |dims|);
    var axisDim := dims[calcAxis];
    if xGrad.Length == 0 {
      forall idx | InBounds(idx, dims) ensures false { EncodeBound(dims, idx); }
      return;
    }
    ProductPositive(dims);
    var n := SizeToAxis(calcAxis, dims);
    var d := SizeFromAxis(calcAxis, dims);
    AxisDivides(dims, calcAxis);
    SoftmaxGrad(out, outGrad, axisDim, n, d, xGrad);
    GradLines(out, outGrad, xGrad[..], dims, calcAxis);
  }

  lemma GradLines(s: seq<real>, g: seq<real>, x: seq<real>, dims: seq<nat>, axis: nat)
    requires axis < |dims| && |s| == |g| == |x| == Product(dims)
    requires GradDone(s, g, x, Outer(dims, axis), dims[axis], Inner(dims, axis))
    ensures forall idx :: InBounds(idx, dims) ==>
      Line(x, dims, axis, idx) == GradLine(Line(s, dims, axis, idx), Line(g, dims, axis, idx))
  {
    forall idx | InBounds(idx, dims)
      ensures Line(x, dims, axis, idx) == GradLine(Line(s, dims, axis, idx), Line(g, dims, axis, idx))
    {
      var c := LineIsColumn(s, dims, axis, idx);
      var c' := LineIsColumn(g, dims, axis, idx);
      var c'' := LineIsColumn(x, dims, axis, idx);
    }
  }
}
