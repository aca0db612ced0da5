/**
  Folding the cells of a buffer into the cells a projection selects. The projection is any function
  of positions here; the reduction kernels instantiate it with the one that drops coordinates, and
  broadcasting reads back along it.
 */
module Fibres {
  import opened Indexing
  import opened Sums

  /** The fold of the first `n` cells of `x` that project to `o`. */
  ghost function FibreFold<T>(x: seq<T>, proj: nat -> nat, init: T, op: (T, T) -> T, n: nat, o: nat): T
    requires n <= |x|
  {
    if n == 0 then init
    else
      var before := FibreFold(x, proj, init, op, n - 1, o);
      if proj(n - 1) == o then op(before, x[n - 1]) else before
  }

  /** The output after the first `n` cells have been folded in. */
  ghost predicate Folded<T>(x: seq<T>, proj: nat -> nat, init: T, op: (T, T) -> T, out: seq<T>, n: nat) {
    n <= |x| && forall o :: 0 <= o < |out| ==> out[o] == FibreFold(x, proj, init, op, n, o)
  }

  lemma FoldedStep<T>(x: seq<T>, proj: nat -> nat, init: T, op: (T, T) -> T, out: seq<T>, n: nat)
    requires n < |x| && proj(n) < |out| && Folded(x, proj, init, op, out, n)
    ensures Folded(x, proj, init, op, out[proj(n) := op(out[proj(n)], x[n])], n + 1)
  {
  }

  // ---------- sums ----------

  /** The terms of the fibre over `o`, zero elsewhere. */
  ghost function Selected(x: seq<real>, proj: nat -> nat, o: nat): nat -> real {
    (i: nat) => if i < |x| && proj(i) == o then x[i] else 0.0
  }

  ghost function FibreSum(x: seq<real>, proj: nat -> nat, o: nat): real {
    Sum(|x|, Selected(x, proj, o))
  }

  /** Adding a term `y[i]` for each cell of the fibre. */
  lemma {:induction false} FoldIsSum(x: seq<real>, y: seq<real>, proj: nat -> nat, op: (real, real) -> real, n: nat,
                                     o: nat)
    requires n <= |x| == |y|
    requires forall i, a :: 0 <= i < |x| ==> op(a, x[i]) == a + y[i]
    ensures FibreFold(x, proj, 0.0, op, n, o) == Sum(n, Selected(y, proj, o))
  {
    if n > 0 {
      FoldIsSum(x, y, proj, op, n - 1, o);
    }
  }

  ghost function FibreSums(x: seq<real>, proj: nat -> nat): nat -> real {
    (o: nat) => FibreSum(x, proj, o)
  }

  ghost function SelectedBy(x: seq<real>, proj: nat -> nat): (nat, nat) -> real {
    (o: nat, i: nat) => Selected(x, proj, o)(i)
  }

  /** The total over the output is the total over the input. */
  lemma SumConserves(x: seq<real>, proj: nat -> nat, m: nat)
    requires forall i: nat :: i < |x| ==> proj(i) < m
    ensures Sum(m, FibreSums(x, proj)) == Sum(|x|, Cells(x))
  {
    var n, f := |x|, SelectedBy(x, proj);
    var t := (i: nat, o: nat) => f(o, i);
    forall o: nat | o < m ensures FibreSums(x, proj)(o) == Sum(n, (i: nat) => f(o, i)) {
      SumEq(n, Selected(x, proj, o), (i: nat) => f(o, i));
    }
    SumOfSums(m, n, f, FibreSums(x, proj));
    SumSwap(m, n, f);
    forall i: nat | i < n ensures Cells(x)(i) == Sum(m, (o: nat) => t(i, o)) {
      OneFibre(x, proj, m, i, t);
    }
    SumOfSums(n, m, t, Cells(x));
  }

  /** A cell is counted in the fibre of its projection and in no other. */
  lemma OneFibre(x: seq<real>, proj: nat -> nat, m: nat, i: nat, t: (nat, nat) -> real)
    requires i < |x| && proj(i) < m && forall o: nat :: t(i, o) == Selected(x, proj, o)(i)
    ensures Sum(m, (o: nat) => t(i, o)) == x[i]
  {
    SumSingle(m, (o: nat) => t(i, o), proj(i));
  }

  /** The update of the mean: add the quotient by `c`. */
  function AddQuotient(c: real): (real, real) -> real
    requires c != 0.0
  {
    (a: real, b: real) => a + b / c
  }

  /** Adding quotients by `c` gives the sum over `c`. */
  lemma QuotientFolded(x: seq<real>, proj: nat -> nat, c: real, out: seq<real>)
    requires c != 0.0 && Folded(x, proj, 0.0, AddQuotient(c), out, |x|)
    ensures forall o :: 0 <= o < |out| ==> out[o] * c == FibreSum(x, proj, o)
  {
    var y := seq(|x|, i requires 0 <= i < |x| => x[i] / c);
    forall o | 0 <= o < |out| ensures out[o] * c == FibreSum(x, proj, o) {
      FoldIsSum(x, y, proj, AddQuotient(c), |x|, o);
      ScaledSelection(x, y, proj, c, o);
    }
  }

  lemma ScaledSelection(x: seq<real>, y: seq<real>, proj: nat -> nat, c: real, o: nat)
    requires |x| == |y| && forall i :: 0 <= i < |x| ==> y[i] * c == x[i]
    ensures FibreSum(y, proj, o) * c == FibreSum(x, proj, o)
  {
    forall i: nat | i < |x| ensures ScalesAt(Selected(y, proj, o), Selected(x, proj, o), c, i) {
    }
    SumScaled(|x|, Selected(y, proj, o), Selected(x, proj, o), c);
  }

  // ---------- pullbacks ----------

  /** `s` repeats `x` along the projection. */
  ghost predicate Pullback<T>(x: seq<T>, s: seq<T>, proj: nat -> nat) {
    forall i: nat :: i < |s| ==> proj(i) < |x| && s[i] == x[proj(i)]
  }

  /** `w` is the pointwise product of `s` and `v`. */
  ghost predicate IsProduct(w: seq<real>, s: seq<real>, v: seq<real>) {
    |w| == |s| == |v| && forall i {:trigger w[i]} :: 0 <= i < |w| ==> w[i] == s[i] * v[i]
  }

  /** Within a fibre the pullback is constant. */
  lemma PullbackFibre(x: seq<real>, s: seq<real>, proj: nat -> nat, v: seq<real>, w: seq<real>, o: nat)
    requires Pullback(x, s, proj) && IsProduct(w, s, v) && o < |x|
    ensures FibreSum(w, proj, o) == FibreSum(v, proj, o) * x[o]
  {
    SelectedScales(x, s, proj, v, w, o, x[o]);
    SumScaled(|v|, Selected(v, proj, o), Selected(w, proj, o), x[o]);
  }

  lemma SelectedScales(x: seq<real>, s: seq<real>, proj: nat -> nat, v: seq<real>, w: seq<real>, o: nat, c: real)
    requires Pullback(x, s, proj) && IsProduct(w, s, v) && o < |x| && c == x[o]
    ensures Scales(|w|, Selected(v, proj, o), Selected(w, proj, o), c)
  {
    forall i: nat | i < |w| ensures ScalesAt(Selected(v, proj, o), Selected(w, proj, o), c, i) {
      if proj(i) == o {
        assert w[i] == s[i] * v[i] && s[i] == c;
      }
    }
  }

  /** Pulling back along a projection is the adjoint of summing its fibres. */
  lemma PullbackAdjoint(x: seq<real>, s: seq<real>, proj: nat -> nat, v: seq<real>, w: seq<real>)
    requires Pullback(x, s, proj) && IsProduct(w, s, v)
    ensures Sum(|w|, Cells(w)) == Sum(|x|, Times(FibreSums(v, proj), Cells(x)))
  {
    forall i: nat | i < |w| ensures proj(i) < |x| {
      assert |s| == |w|;
    }
    SumConserves(w, proj, |x|);
    forall o: nat | o < |x| ensures FibreSums(w, proj)(o) == Times(FibreSums(v, proj), Cells(x))(o) {
      PullbackFibre(x, s, proj, v, w, o);
    }
    SumEq(|x|, FibreSums(w, proj), Times(FibreSums(v, proj), Cells(x)));
  }

  // ---------- counting ----------

  ghost function Indicator(proj: nat -> nat, o: nat): nat -> real {
    (i: nat) => if proj(i) == o then 1.0 else 0.0
  }

  /** The projection of row `a`, column `b` of a block with rows of `p` cells. */
  ghost function RowProjection(proj: nat -> nat, p: nat): (nat, nat) -> nat {
    (a: nat, b: nat) => proj(a * p + b)
  }

  lemma BlockedIndicator(proj: nat -> nat, p: nat, o: nat, a: nat, b: nat)
    ensures Blocked(Indicator(proj, o), p)(a, b) == if RowProjection(proj, p)(a, b) == o then 1.0 else 0.0
  {
    BlockedAt(Indicator(proj, o), p, a, b);
  }

  /** If all rows project alike, a fibre takes its share of each. */
  lemma CountEqualRows(m: nat, p: nat, proj: nat -> nat, o: nat, size: nat)
    requires forall a: nat, b: nat :: a < m && b < p ==> RowProjection(proj, p)(a, b) == proj(b)
    requires Sum(p, Indicator(proj, o)) == size as real
    ensures Sum(m * p, Indicator(proj, o)) == (m * size) as real
  {
    var f := Indicator(proj, o);
    forall a: nat, b: nat | a < m && b < p ensures Blocked(f, p)(a, b) == f(b) {
      BlockedIndicator(proj, p, o, a, b);
    }
    SumOfBlockRows(m, p, f, f, size as real);
  }

  /** If row `a` projects into the a-th block of `q` cells, a fibre lies in a single row. */
  lemma CountOneRow(m: nat, p: nat, q: nat, proj: nat -> nat, a0: nat, r: nat)
    requires forall a: nat, b: nat :: a < m && b < p ==> RowProjection(proj, p)(a, b) == a * q + proj(b)
    requires (forall b: nat :: b < p ==> proj(b) < q) && a0 < m && r < q
    ensures Sum(m * p, Indicator(proj, a0 * q + r)) == Sum(p, Indicator(proj, r))
  {
    var o := a0 * q + r;
    var f, h := Indicator(proj, o), Indicator(proj, r);
    forall a: nat, b: nat | a < m && b < p ensures Blocked(f, p)(a, b) == if a == a0 then h(b) else 0.0 {
      BlockedIndicator(proj, p, o, a, b);
      SameDigits(a, proj(b), a0, r, q);
    }
    SumOfBlockRow(m, p, f, h, a0);
  }

  lemma SameDigits(a: nat, b: nat, a0: nat, r: nat, q: nat)
    requires b < q && r < q
    ensures a * q + b == a0 * q + r <==> a == a0 && b == r
  {
    DivModUnique(a, b, q);
    DivModUnique(a0, r, q);
  }

  // ---------- extremes ----------

  /** `r` bounds the start value and every cell of the fibre, and is one of them. */
  ghost predicate Extreme(le: (real, real) -> bool, x: seq<real>, proj: nat -> nat, init: real, n: nat, o: nat, r: real)
    requires n <= |x|
  {
    && le(init, r)
    && (forall i: nat :: i < n && proj(i) == o ==> le(x[i], r))
    && (r == init || exists i: nat :: i < n && proj(i) == o && x[i] == r)
  }

  lemma {:induction false} FoldIsExtreme(le: (real, real) -> bool, op: (real, real) -> real,
                                         x: seq<real>, proj: nat -> nat, init: real, n: nat, o: nat)
    requires n <= |x|
    requires forall a :: le(a, a)
    requires forall a, b, c :: le(a, b) && le(b, c) ==> le(a, c)
    requires forall a, b :: op(a, b) == (if le(b, a) then a else b) && (le(a, b) || le(b, a))
    ensures Extreme(le, x, proj, init, n, o, FibreFold(x, proj, init, op, n, o))
  {
    if n > 0 {
      FoldIsExtreme(le, op, x, proj, init, n - 1, o);
      var before := FibreFold(x, proj, init, op, n - 1, o);
      if before != init {
        var i: nat :| i < n - 1 && proj(i) == o && x[i] == before;
      }
    }
  }
}
