/**
  Finite sums of reals: congruence, linearity, exchange of order, and flattening of a double sum
  into a single one. Sums are over functions of the index, with the number of terms given, so that
  a sum over a buffer, a line or a block differs only in the function.
 */
module Sums {
  ghost function Sum(n: nat, f: nat -> real): real {
    if n == 0 then 0.0 else Sum(n - 1, f) + f(n - 1)
  }

  lemma {:induction false} SumEq(n: nat, f: nat -> real, g: nat -> real)
    requires forall i :: 0 <= i < n ==> f(i) == g(i)
    ensures Sum(n, f) == Sum(n, g)
  {
    if n > 0 {
      SumEq(n - 1, f, g);
    }
  }

  lemma {:induction false} SumZero(n: nat, f: nat -> real)
    requires forall i :: 0 <= i < n ==> f(i) == 0.0
    ensures Sum(n, f) == 0.0
  {
    if n > 0 {
      SumZero(n - 1, f);
    }
  }

  /** A sum with a single non-zero term. */
  lemma {:induction false} SumSingle(n: nat, f: nat -> real, k: nat)
    requires k < n && forall i :: 0 <= i < n && i != k ==> f(i) == 0.0
    ensures Sum(n, f) == f(k)
  {
    if k == n - 1 {
      SumZero(n - 1, f);
    } else {
      SumSingle(n - 1, f, k);
    }
  }

  /** The terms of `g` are those of `f`, scaled. */
  ghost predicate Scales(n: nat, f: nat -> real, g: nat -> real, c: real) {
    forall i: nat {:trigger ScalesAt(f, g, c, i)} :: i < n ==> ScalesAt(f, g, c, i)
  }

  ghost predicate ScalesAt(f: nat -> real, g: nat -> real, c: real, i: nat) {
    g(i) == f(i) * c
  }

  lemma {:induction false} SumScaled(n: nat, f: nat -> real, g: nat -> real, c: real)
    requires Scales(n, f, g, c)
    ensures Sum(n, g) == Sum(n, f) * c
  {
    if n > 0 {
      SumScaled(n - 1, f, g, c);
      assert ScalesAt(f, g, c, n - 1);
      Distribute(Sum(n - 1, f), f(n - 1), c);
    }
  }

  lemma Distribute(a: real, b: real, c: real)
    ensures (a + b) * c == a * c + b * c
  {
  }

  lemma {:induction false} SumAdd(n: nat, f: nat -> real, g: nat -> real)
    ensures Sum(n, (i: nat) => f(i) + g(i)) == Sum(n, f) + Sum(n, g)
  {
    if n > 0 {
      SumAdd(n - 1, f, g);
    }
  }

  lemma {:induction false} SumAppend(m: nat, n: nat, f: nat -> real)
    ensures Sum(m + n, f) == Sum(m, f) + Sum(n, (i: nat) => f(m + i))
  {
    if n > 0 {
      SumAppend(m, n - 1, f);
    }
  }

  /** The double sum, rows outermost. */
  ghost function Sum2(m: nat, n: nat, f: (nat, nat) -> real): real {
    if m == 0 then 0.0 else Sum2(m - 1, n, f) + Sum(n, (j: nat) => f(m - 1, j))
  }

  lemma {:induction false} Sum2Eq(m: nat, n: nat, f: (nat, nat) -> real, g: (nat, nat) -> real)
    requires forall i, j :: 0 <= i < m && 0 <= j < n ==> f(i, j) == g(i, j)
    ensures Sum2(m, n, f) == Sum2(m, n, g)
  {
    if m > 0 {
      Sum2Eq(m - 1, n, f, g);
      SumEq(n, (j: nat) => f(m - 1, j), (j: nat) => g(m - 1, j));
    }
  }

  /** A sum of sums is a double sum. */
  lemma {:induction false} SumOfSums(m: nat, n: nat, f: (nat, nat) -> real, g: nat -> real)
    requires forall i: nat :: i < m ==> g(i) == Sum(n, (j: nat) => f(i, j))
    ensures Sum(m, g) == Sum2(m, n, f)
  {
    if m > 0 {
      SumOfSums(m - 1, n, f, g);
      assert g(m - 1) == Sum(n, (j: nat) => f(m - 1, j));
    }
  }

  lemma {:induction false} Sum2AddColumn(m: nat, n: nat, f: (nat, nat) -> real)
    ensures Sum2(m, n + 1, f) == Sum2(m, n, f) + Sum(m, (i: nat) => f(i, n))
  {
    if m > 0 {
      Sum2AddColumn(m - 1, n, f);
    }
  }

  lemma {:induction false} SumSwap(m: nat, n: nat, f: (nat, nat) -> real)
    ensures Sum2(m, n, f) == Sum2(n, m, (j: nat, i: nat) => f(i, j))
  {
    var t := (j: nat, i: nat) => f(i, j);
    if n == 0 {
      Sum2Empty(m, f);
    } else {
      SumSwap(m, n - 1, f);
      Sum2AddColumn(m, n - 1, f);
      SumEq(m, (i: nat) => f(i, n - 1), (i: nat) => t(n - 1, i));
    }
  }

  lemma {:induction false} Sum2Empty(m: nat, f: (nat, nat) -> real)
    ensures Sum2(m, 0, f) == 0.0
  {
    if m > 0 {
      Sum2Empty(m - 1, f);
    }
  }

  /** A sum over a row-major block is the double sum over its rows and columns. */
  lemma {:induction false} SumFlatten(m: nat, n: nat, f: nat -> real, g: (nat, nat) -> real)
    requires forall i: nat, j: nat :: i < m && j < n ==> g(i, j) == f(i * n + j)
    ensures Sum(m * n, f) == Sum2(m, n, g)
  {
    if m > 0 {
      SumFlatten(m - 1, n, f, g);
      assert m * n == (m - 1) * n + n;
      SumAppend((m - 1) * n, n, f);
      SumEq(n, (j: nat) => f((m - 1) * n + j), (j: nat) => g(m - 1, j));
    }
  }

  ghost function Constant(c: real): nat -> real {
    (_: nat) => c
  }

  lemma {:induction false} SumConstant(n: nat, c: real)
    ensures Sum(n, Constant(c)) == n as real * c
  {
    if n > 0 {
      SumConstant(n - 1, c);
      assert Constant(c)(n - 1) == c;
      OneMore((n - 1) as real, c);
    }
  }

  lemma OneMore(a: real, c: real)
    ensures (a + 1.0) * c == a * c + c
  {
  }

  /** A flat sequence read as rows of `n`. */
  ghost function Blocked(f: nat -> real, n: nat): (nat, nat) -> real {
    (a: nat, b: nat) => f(a * n + b)
  }

  lemma BlockedAt(f: nat -> real, n: nat, a: nat, b: nat)
    ensures Blocked(f, n)(a, b) == f(a * n + b)
  {
  }

  lemma SumBlocked(m: nat, n: nat, f: nat -> real)
    ensures Sum(m * n, f) == Sum2(m, n, Blocked(f, n))
  {
    SumFlatten(m, n, f, Blocked(f, n));
  }

  /** A block whose rows are all the same. */
  lemma SumOfEqualRows(m: nat, n: nat, g: (nat, nat) -> real, h: nat -> real, c: real)
    requires forall a: nat, b: nat :: a < m && b < n ==> g(a, b) == h(b)
    requires c == Sum(n, h)
    ensures Sum2(m, n, g) == Sum(m, Constant(c))
  {
    var rows := Constant(c);
    forall a: nat | a < m ensures rows(a) == Sum(n, (b: nat) => g(a, b)) {
      SumEq(n, h, (b: nat) => g(a, b));
    }
    SumOfSums(m, n, g, rows);
  }

  /** A block with a single non-zero row. */
  lemma SumOfOneRow(m: nat, n: nat, g: (nat, nat) -> real, h: nat -> real, a0: nat)
    requires a0 < m
    requires forall a: nat, b: nat :: a < m && b < n ==> g(a, b) == if a == a0 then h(b) else 0.0
    ensures Sum2(m, n, g) == Sum(n, h)
  {
    var c := Sum(n, h);
    var rows := (a: nat) => if a == a0 then c else 0.0;
    forall a: nat | a < m ensures rows(a) == Sum(n, (b: nat) => g(a, b)) {
      if a == a0 {
        SumEq(n, h, (b: nat) => g(a, b));
      } else {
        SumZero(n, (b: nat) => g(a, b));
      }
    }
    SumOfSums(m, n, g, rows);
    SumSingle(m, rows, a0);
  }

  lemma SumOfBlockRows(m: nat, n: nat, f: nat -> real, h: nat -> real, c: real)
    requires forall a: nat, b: nat :: a < m && b < n ==> Blocked(f, n)(a, b) == h(b)
    requires c == Sum(n, h)
    ensures Sum(m * n, f) == m as real * c
  {
    SumBlocked(m, n, f);
    SumOfEqualRows(m, n, Blocked(f, n), h, c);
    SumConstant(m, c);
  }

  lemma SumOfBlockRow(m: nat, n: nat, f: nat -> real, h: nat -> real, a0: nat)
    requires a0 < m
    requires forall a: nat, b: nat :: a < m && b < n ==> Blocked(f, n)(a, b) == if a == a0 then h(b) else 0.0
    ensures Sum(m * n, f) == Sum(n, h)
  {
    SumBlocked(m, n, f);
    SumOfOneRow(m, n, Blocked(f, n), h, a0);
  }

  // ---------- threefold sums ----------

  ghost function Sum3(m: nat, n: nat, k: nat, f: (nat, nat, nat) -> real): real {
    if m == 0 then 0.0 else Sum3(m - 1, n, k, f) + Sum2(n, k, (j: nat, l: nat) => f(m - 1, j, l))
  }

  lemma {:induction false} Sum3Eq(m: nat, n: nat, k: nat, f: (nat, nat, nat) -> real, g: (nat, nat, nat) -> real)
    requires forall i, j, l :: 0 <= i < m && 0 <= j < n && 0 <= l < k ==> f(i, j, l) == g(i, j, l)
    ensures Sum3(m, n, k, f) == Sum3(m, n, k, g)
  {
    if m > 0 {
      Sum3Eq(m - 1, n, k, f, g);
      Sum2Eq(n, k, (j: nat, l: nat) => f(m - 1, j, l), (j: nat, l: nat) => g(m - 1, j, l));
    }
  }

  /** Summing the innermost index first turns a threefold sum into a double one. */
  lemma {:induction false} Sum3Inner(m: nat, n: nat, k: nat, f: (nat, nat, nat) -> real, g: (nat, nat) -> real)
    requires forall i: nat, j: nat :: i < m && j < n ==> g(i, j) == Sum(k, (l: nat) => f(i, j, l))
    ensures Sum3(m, n, k, f) == Sum2(m, n, g)
  {
    if m > 0 {
      Sum3Inner(m - 1, n, k, f, g);
      var f', g' := (j: nat, l: nat) => f(m - 1, j, l), (j: nat) => g(m - 1, j);
      forall j: nat | j < n ensures g'(j) == Sum(k, (l: nat) => f'(j, l)) {
        SumEq(k, (l: nat) => f(m - 1, j, l), (l: nat) => f'(j, l));
      }
      SumOfSums(n, k, f', g');
    }
  }

  lemma {:induction false} SwapInner(m: nat, n: nat, k: nat, f: (nat, nat, nat) -> real)
    ensures Sum3(m, n, k, f) == Sum3(m, k, n, (i: nat, l: nat, j: nat) => f(i, j, l))
  {
    if m > 0 {
      SwapInner(m - 1, n, k, f);
      var t := (i: nat, l: nat, j: nat) => f(i, j, l);
      var f' := (j: nat, l: nat) => f(m - 1, j, l);
      SumSwap(n, k, f');
      Sum2Eq(k, n, (l: nat, j: nat) => f'(j, l), (l: nat, j: nat) => t(m - 1, l, j));
    }
  }

  lemma SwapOuter(m: nat, n: nat, k: nat, f: (nat, nat, nat) -> real)
    ensures Sum3(m, n, k, f) == Sum3(n, m, k, (j: nat, i: nat, l: nat) => f(i, j, l))
  {
    var t := (j: nat, i: nat, l: nat) => f(i, j, l);
    var g := (i: nat, j: nat) => Sum(k, (l: nat) => f(i, j, l));
    var g' := (j: nat, i: nat) => g(i, j);
    Sum3Inner(m, n, k, f, g);
    SumSwap(m, n, g);
    forall j: nat, i: nat | j < n && i < m ensures g'(j, i) == Sum(k, (l: nat) => t(j, i, l)) {
      SumEq(k, (l: nat) => f(i, j, l), (l: nat) => t(j, i, l));
    }
    Sum3Inner(n, m, k, t, g');
  }

  /** Reversing the order of summation of a threefold sum. */
  lemma Reversed(m: nat, n: nat, k: nat, f: (nat, nat, nat) -> real)
    ensures Sum3(m, n, k, f) == Sum3(k, n, m, (l: nat, j: nat, i: nat) => f(i, j, l))
  {
    var a := (j: nat, i: nat, l: nat) => f(i, j, l);
    var b := (j: nat, l: nat, i: nat) => a(j, i, l);
    var c := (l: nat, j: nat, i: nat) => b(j, l, i);
    SwapOuter(m, n, k, f);
    SwapInner(n, m, k, a);
    SwapOuter(n, k, m, b);
    Sum3Eq(k, n, m, c, (l: nat, j: nat, i: nat) => f(i, j, l));
  }

  lemma {:induction false} SumPositive(n: nat, f: nat -> real)
    requires forall i :: 0 <= i < n ==> f(i) > 0.0
    ensures Sum(n, f) >= 0.0 && (n > 0 ==> Sum(n, f) > 0.0)
  {
    if n > 0 {
      SumPositive(n - 1, f);
    }
  }

  // ---------- sums over sequences ----------

  ghost function Cells(x: seq<real>): nat -> real {
    (i: nat) => if i < |x| then x[i] else 0.0
  }

  ghost function Times(f: nat -> real, g: nat -> real): nat -> real {
    (i: nat) => f(i) * g(i)
  }

  lemma {:induction false} SumMonotone(n: nat, f: nat -> real, g: nat -> real)
    requires forall i :: 0 <= i < n ==> f(i) <= g(i)
    ensures Sum(n, f) <= Sum(n, g)
    ensures (exists i :: 0 <= i < n && f(i) < g(i)) ==> Sum(n, f) < Sum(n, g)
  {
    if n > 0 {
      SumMonotone(n - 1, f, g);
    }
  }
}
