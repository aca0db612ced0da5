/**
  The comparator of the argsort kernel over numbers that may be NaN, sorting by it, and what a
  sorted line determines.
 */
module Sorting {
  import opened Permutations

  datatype Elem = NaN | Num(value: real)

  datatype Pair = Pair(first: Elem, second: nat)

  /** The comparison lambdas: NaN comes last in ascending order and first in descending order. */
  predicate Less(descending: bool, l: Elem, r: Elem) {
    if descending then (l.NaN? && !r.NaN?) || (l.Num? && r.Num? && l.value > r.value)
    else (!l.NaN? && r.NaN?) || (l.Num? && r.Num? && l.value < r.value)
  }

  /** The comparator is a strict weak order, and only equal elements are equivalent. */
  lemma StrictWeakOrder(d: bool, a: Elem, b: Elem, c: Elem)
    ensures !Less(d, a, a)
    ensures Less(d, a, b) && Less(d, b, c) ==> Less(d, a, c)
    ensures !Less(d, a, b) && !Less(d, b, c) ==> !Less(d, a, c)
    ensures !Less(d, a, b) && !Less(d, b, a) <==> a == b
  {
  }

  // ---------- sorted lines ----------

  /** `out` is `line` gathered through the permutation `ind`, in the comparator's order. */
  predicate SortedLine(line: seq<Elem>, out: seq<Elem>, ind: seq<nat>, descending: bool) {
    && IsPermutation(ind, |line|) && out == Gather(line, ind)
    && forall j, k :: 0 <= j < k < |out| ==> !Less(descending, out[k], out[j])
  }

  /** Numbers rise, or fall when descending; NaN comes after them, or before them when descending. */
  predicate InOrder(out: seq<Elem>, descending: bool) {
    forall j, k :: 0 <= j < k < |out| ==>
      && (out[j].Num? && out[k].Num? ==>
        if descending then out[j].value >= out[k].value else out[j].value <= out[k].value)
      && (if descending then out[k].NaN? ==> out[j].NaN? else out[j].NaN? ==> out[k].NaN?)
  }

  /** Every place of the line is listed once, and each element listed is the one at its place. */
  predicate Gathered(line: seq<Elem>, out: seq<Elem>, ind: seq<nat>) {
    && |out| == |ind| == |line|
    && (forall j :: 0 <= j < |ind| ==> ind[j] < |line| && out[j] == line[ind[j]])
    && forall j, k :: 0 <= j < k < |ind| ==> ind[j] != ind[k]
  }

  /** What being sorted by the comparator comes to. */
  lemma SortedLineMeans(line: seq<Elem>, out: seq<Elem>, ind: seq<nat>, descending: bool)
    ensures SortedLine(line, out, ind, descending) <==> InOrder(out, descending) && Gathered(line, out, ind)
  {
  }

  /** Equal elements keep their order. */
  predicate KeepsTies(out: seq<Elem>, ind: seq<nat>)
    requires |out| == |ind|
  {
    forall j, k :: 0 <= j < k < |out| && out[j] == out[k] ==> ind[j] < ind[k]
  }

  /** A stable sort has one result. */
  lemma StableIsUnique(line: seq<Elem>, d: bool, out1: seq<Elem>, ind1: seq<nat>, out2: seq<Elem>, ind2: seq<nat>)
    requires SortedLine(line, out1, ind1, d) && KeepsTies(out1, ind1)
    requires SortedLine(line, out2, ind2, d) && KeepsTies(out2, ind2)
    ensures ind1 == ind2 && out1 == out2
  {
    if ind1 != ind2 {
      var k := FirstDifference(ind1, ind2);
      var a, b := ind1[k], ind2[k];
      ComesLater(line, d, out1, ind1, ind2, k, b);
      ComesLater(line, d, out2, ind2, ind1, k, a);
    }
  }

  lemma {:induction false} FirstDifference(p: seq<nat>, q: seq<nat>) returns (k: nat)
    requires |p| == |q| && p != q
    ensures k < |p| && p[k] != q[k] && p[..k] == q[..k]
  {
    if p[0] != q[0] {
      k := 0;
    } else {
      k := FirstDifference(p[1..], q[1..]);
      k := k + 1;
      assert p[..k] == [p[0]] + p[1..][..k - 1] && q[..k] == [q[0]] + q[1..][..k - 1];
    }
  }

  /** An index that is not among the first `k` nor in place `k` stands behind it. */
  lemma ComesLater(line: seq<Elem>, d: bool, out: seq<Elem>, ind: seq<nat>, other: seq<nat>, k: nat, b: nat)
    requires SortedLine(line, out, ind, d) && KeepsTies(out, ind) && IsPermutation(other, |line|)
    requires k < |ind| && ind[..k] == other[..k] && b == other[k] && b != ind[k]
    ensures !Less(d, line[b], line[ind[k]]) && (line[b] == line[ind[k]] ==> ind[k] < b)
  {
    forall m | 0 <= m < k ensures ind[m] != b {
      assert ind[m] == ind[..k][m] == other[..k][m] == other[m];
    }
    var m := Position(ind, |line|, b);
    assert out[k] == line[ind[k]] && out[m] == line[b];
  }

  /** Stable or not, the sorted values are determined; only the indices of ties are free. */
  lemma ValuesAreUnique(line: seq<Elem>, d: bool, out1: seq<Elem>, ind1: seq<nat>, out2: seq<Elem>, ind2: seq<nat>)
    requires SortedLine(line, out1, ind1, d) && SortedLine(line, out2, ind2, d)
    ensures out1 == out2
  {
    forall k | 0 <= k < |line| ensures out1[k] == out2[k] {
      NotBefore(line, d, out1, ind1, out2, ind2, k);
      NotBefore(line, d, out2, ind2, out1, ind1, k);
    }
  }

  /** By counting: at most `k` elements can come before place `k`. */
  lemma NotBefore(line: seq<Elem>, d: bool, out1: seq<Elem>, ind1: seq<nat>, out2: seq<Elem>, ind2: seq<nat>, k: nat)
    requires SortedLine(line, out1, ind1, d) && SortedLine(line, out2, ind2, d) && k < |line|
    ensures !Less(d, out1[k], out2[k])
  {
    if Less(d, out1[k], out2[k]) {
      var p1, p2 := ind1[..k + 1], ind2[..k];
      var front, slots := set j | 0 <= j < |p1| :: p1[j], set j | 0 <= j < |p2| :: p2[j];
      DistinctImage(p1);
      DistinctImage(p2);
      forall i | i in front ensures i in slots {
        var m :| 0 <= m < |p1| && p1[m] == i;
        var j := EarlyPlace(line, d, out1, ind1, out2, ind2, k, m);
        assert p2[j] == i;
      }
      SubsetSize(front, slots);
    }
  }

  /** What stands no later than place `k` in one result stands before it in the other. */
  lemma EarlyPlace(line: seq<Elem>, d: bool, out1: seq<Elem>, ind1: seq<nat>, out2: seq<Elem>, ind2: seq<nat>, k: nat,
                   m: nat)
    returns (j: nat)
    requires SortedLine(line, out1, ind1, d) && SortedLine(line, out2, ind2, d) && m <= k < |line|
    requires Less(d, out1[k], out2[k])
    ensures j < k && ind2[j] == ind1[m]
  {
    j := Position(ind2, |line|, ind1[m]);
    assert out2[j] == line[ind1[m]] == out1[m];
    StrictWeakOrder(d, out1[k], out1[m], out2[k]);
    StrictWeakOrder(d, out1[k], out1[k], out1[k]);
  }

  // ---------- sorting ----------

  function Firsts(s: seq<Pair>): (v: seq<Elem>)
    ensures |v| == |s| && forall j :: 0 <= j < |s| ==> v[j] == s[j].first
  {
    seq(|s|, j requires 0 <= j < |s| => s[j].first)
  }

  /** Place `a` of `v` comes before place `b`, by value or, between equals, by place. */
  predicate ComesFirst(v: seq<Elem>, a: nat, b: nat, descending: bool)
    requires a < |v| && b < |v|
  {
    !Less(descending, v[b], v[a]) && (v[a] == v[b] ==> a < b)
  }

  predicate StableOrder(v: seq<Elem>, perm: seq<nat>, descending: bool) {
    && (forall j :: 0 <= j < |perm| ==> perm[j] < |v|)
    && forall j, k :: 0 <= j < k < |perm| ==> ComesFirst(v, perm[j], perm[k], descending)
  }

  /** `std::stable_sort`, here by insertion; `perm` records where each pair came from. */
  method StableSort(col: seq<Pair>, descending: bool) returns (s: seq<Pair>, ghost perm: seq<nat>)
    ensures |s| == |col| && forall j, k :: 0 <= j < k < |s| ==> !Less(descending, s[k].first, s[j].first)
    ensures IsPermutation(perm, |col|) && s == Gather(col, perm) && StableOrder(Firsts(col), perm, descending)
  {
    s, perm := [], [];
    for n := 0 to |col|
      invariant IsPermutation(perm, n) && |s| == n && forall j :: 0 <= j < n ==> s[j] == col[perm[j]]
      invariant StableOrder(Firsts(col), perm, descending)
    {
      var pos := n;
      while pos > 0 && Less(descending, col[n].first, s[pos - 1].first)
        invariant pos <= n && forall j :: pos <= j < n ==> Less(descending, col[n].first, s[j].first)
      {
        pos := pos - 1;
      }
      InsertKeepsOrder(Firsts(col), perm, descending, n, pos);
      s := s[..pos] + [col[n]] + s[pos..];
      perm := Insert(perm, pos, n);
    }
    forall j, k | 0 <= j < k < |s| ensures !Less(descending, s[k].first, s[j].first) {
      assert ComesFirst(Firsts(col), perm[j], perm[k], descending);
    }
  }

  function Insert(p: seq<nat>, pos: nat, n: nat): (q: seq<nat>)
    requires pos <= |p|
    ensures |q| == |p| + 1
    ensures forall j :: 0 <= j < |q| ==> q[j] == if j < pos then p[j] else if j == pos then n else p[j - 1]
  {
    p[..pos] + [n] + p[pos..]
  }

  lemma InsertKeepsOrder(v: seq<Elem>, perm: seq<nat>, d: bool, n: nat, pos: nat)
    requires n < |v| && IsPermutation(perm, n) && StableOrder(v, perm, d) && pos <= n
    requires forall j :: pos <= j < n ==> Less(d, v[n], v[perm[j]])
    requires pos > 0 ==> !Less(d, v[n], v[perm[pos - 1]])
    ensures IsPermutation(Insert(perm, pos, n), n + 1) && StableOrder(v, Insert(perm, pos, n), d)
  {
    var q := Insert(perm, pos, n);
    forall j | 0 <= j < n ensures if j < pos then ComesFirst(v, perm[j], n, d) else ComesFirst(v, n, perm[j], d) {
      StrictWeakOrder(d, v[n], v[perm[j]], v[n]);
      if j < pos - 1 {
        assert ComesFirst(v, perm[j], perm[pos - 1], d);
        StrictWeakOrder(d, v[n], v[perm[pos - 1]], v[perm[j]]);
      }
    }
    forall j, k | 0 <= j < k < |q| ensures ComesFirst(v, q[j], q[k], d) {
      InsertedPair(v, perm, d, n, pos, j, k);
    }
  }

  lemma InsertedPair(v: seq<Elem>, perm: seq<nat>, d: bool, n: nat, pos: nat, j: nat, k: nat)
    requires n < |v| && IsPermutation(perm, n) && StableOrder(v, perm, d) && pos <= n && j < k <= n
    requires forall i :: 0 <= i < n ==> if i < pos then ComesFirst(v, perm[i], n, d) else ComesFirst(v, n, perm[i], d)
    ensures Insert(perm, pos, n)[j] < |v| && Insert(perm, pos, n)[k] < |v|
    ensures ComesFirst(v, Insert(perm, pos, n)[j], Insert(perm, pos, n)[k], d)
  {
    if j == pos {
      assert Insert(perm, pos, n)[k] == perm[k - 1];
    } else if k == pos {
      assert Insert(perm, pos, n)[j] == perm[j];
    } else {
      var j', k' := if j < pos then j else j - 1, if k < pos then k else k - 1;
      assert ComesFirst(v, perm[j'], perm[k'], d);
    }
  }

  /** `std::sort`: as above, but nothing is promised about ties. */
  method UnstableSort(col: seq<Pair>, descending: bool) returns (s: seq<Pair>, ghost perm: seq<nat>)
    ensures IsPermutation(perm, |col|) && s == Gather(col, perm)
    ensures forall j, k :: 0 <= j < k < |s| ==> !Less(descending, s[k].first, s[j].first)
  {
    s, perm := StableSort(col, descending);
  }
}
