/**
  Permutations of axes: reindexing a vector by a permutation, its inverse, and the fact
  that sums and products over axes do not depend on their order.
 */
module Permutations {
  import opened Indexing

  predicate IsPermutation(p: seq<nat>, n: nat) {
    |p| == n
    && (forall j :: 0 <= j < n ==> p[j] < n)
    && (forall j, k :: 0 <= j < k < n ==> p[j] != p[k])
  }

  function Gather<T>(s: seq<T>, p: seq<nat>): (r: seq<T>)
    requires forall j :: 0 <= j < |p| ==> p[j] < |s|
    ensures |r| == |p|
    ensures forall j :: 0 <= j < |p| ==> r[j] == s[p[j]]
  {
    seq(|p|, j requires 0 <= j < |p| => s[p[j]])
  }

  function Without<T>(s: seq<T>, k: nat): seq<T>
    requires k < |s|
  {
    s[..k] + s[k + 1..]
  }

  /** Where a value sits in a permutation. */
  function Position(p: seq<nat>, n: nat, v: nat): (k: nat)
    requires IsPermutation(p, n) && v < n
    ensures k < n && p[k] == v
  {
    Surjective(p, n, v);
    var k: nat :| k < n && p[k] == v;
    k
  }

  function Inverse(p: seq<nat>, n: nat): (q: seq<nat>)
    requires IsPermutation(p, n)
    ensures IsPermutation(q, n)
    ensures forall v :: 0 <= v < n ==> p[q[v]] == v
    ensures forall k :: 0 <= k < n ==> q[p[k]] == k
  {
    seq(n, v requires 0 <= v < n => Position(p, n, v))
  }

  lemma Surjective(p: seq<nat>, n: nat, v: nat)
    requires IsPermutation(p, n) && v < n
    ensures exists k: nat :: k < n && p[k] == v
  {
    var image := set j | 0 <= j < n :: p[j];
    DistinctImage(p);
    assert image <= Below(n);
    if v !in image {
      SubsetSize(image, Below(n) - {v});
    }
    assert v in image;
  }

  lemma SubsetSize<T>(a: set<T>, b: set<T>)
    requires a <= b
    ensures |a| <= |b|
  {
    assert b == a + (b - a);
  }

  ghost function Below(n: nat): (s: set<nat>)
    ensures |s| == n
    ensures forall j: nat :: j in s <==> j < n
  {
    if n == 0 then {} else Below(n - 1) + {n - 1}
  }

  lemma {:induction false} DistinctImage(p: seq<nat>)
    requires forall j, k :: 0 <= j < k < |p| ==> p[j] != p[k]
    ensures |set j | 0 <= j < |p| :: p[j]| == |p|
  {
    if p != [] {
      var n := |p| - 1;
      DistinctImage(p[..n]);
      var rest := set j | 0 <= j < n :: p[..n][j];
      assert (set j | 0 <= j < |p| :: p[j]) == rest + {p[n]};
    }
  }

  // ---------- sums and products over permuted axes ----------

  lemma {:induction false} DotWithout(a: seq<nat>, b: seq<nat>, k: nat)
    requires |a| == |b| && k < |a|
    ensures Dot(a, b) == Dot(Without(a, k), Without(b, k)) + a[k] * b[k]
  {
    if k == 0 {
      assert Without(a, 0) == a[1..] && Without(b, 0) == b[1..];
    } else {
      DotWithout(a[1..], b[1..], k - 1);
      assert Without(a, k)[1..] == Without(a[1..], k - 1);
      assert Without(b, k)[1..] == Without(b[1..], k - 1);
    }
  }

  lemma {:induction false} ProductWithout(a: seq<nat>, k: nat)
    requires k < |a|
    ensures Product(a) == Product(Without(a, k)) * a[k]
  {
    if k == 0 {
      assert Without(a, 0) == a[1..];
    } else {
      ProductWithout(a[1..], k - 1);
      assert Without(a, k)[1..] == Without(a[1..], k - 1);
      MulAssoc(a[0], Product(Without(a[1..], k - 1)), a[k]);
    }
  }

  /** Removing the largest value of a permutation leaves a permutation of the rest. */
  lemma DropLargest(p: seq<nat>, n: nat, k: nat)
    requires n > 0 && IsPermutation(p, n) && k == Position(p, n, n - 1)
    ensures IsPermutation(Without(p, k), n - 1)
  {
    var w := Without(p, k);
    forall j | 0 <= j < n - 1 ensures w[j] < n - 1 {
      assert w[j] == if j < k then p[j] else p[j + 1];
    }
  }

  lemma GatherWithout<T>(s: seq<T>, p: seq<nat>, n: nat, k: nat)
    requires |s| == n > 0 && IsPermutation(p, n) && k == Position(p, n, n - 1)
    ensures IsPermutation(Without(p, k), n - 1)
    ensures Without(Gather(s, p), k) == Gather(s[..n - 1], Without(p, k))
    ensures Without(s, n - 1) == s[..n - 1]
  {
    DropLargest(p, n, k);
  }

  lemma {:induction false} DotPermuted(a: seq<nat>, b: seq<nat>, p: seq<nat>)
    requires |a| == |b| && IsPermutation(p, |a|)
    ensures Dot(Gather(a, p), Gather(b, p)) == Dot(a, b)
  {
    var n := |a|;
    if n > 0 {
      var k := Position(p, n, n - 1);
      GatherWithout(a, p, n, k);
      GatherWithout(b, p, n, k);
      DotPermuted(a[..n - 1], b[..n - 1], Without(p, k));
      DotWithout(Gather(a, p), Gather(b, p), k);
      DotWithout(a, b, n - 1);
    }
  }

  lemma {:induction false} ProductPermuted(a: seq<nat>, p: seq<nat>)
    requires IsPermutation(p, |a|)
    ensures Product(Gather(a, p)) == Product(a)
  {
    var n := |a|;
    if n > 0 {
      var k := Position(p, n, n - 1);
      GatherWithout(a, p, n, k);
      ProductPermuted(a[..n - 1], Without(p, k));
      ProductWithout(Gather(a, p), k);
      ProductWithout(a, n - 1);
    }
  }

  lemma GatherInBounds(idx: seq<nat>, dims: seq<nat>, p: seq<nat>)
    requires IsPermutation(p, |dims|) && |idx| == |dims|
    ensures InBounds(idx, dims) <==> InBounds(Gather(idx, p), Gather(dims, p))
  {
    if InBounds(Gather(idx, p), Gather(dims, p)) {
      var q := Inverse(p, |dims|);
      forall j | 0 <= j < |dims| ensures idx[j] < dims[j] {
        assert Gather(idx, p)[q[j]] < Gather(dims, p)[q[j]];
      }
    }
  }

  lemma GatherInverse<T>(s: seq<T>, p: seq<nat>)
    requires IsPermutation(p, |s|)
    ensures Gather(Gather(s, p), Inverse(p, |s|)) == s
    ensures Gather(Gather(s, Inverse(p, |s|)), p) == s
  {
  }
}
