/** Broadcasting: the shape two operands share, the spreading of an operand over it, and the elementwise kernels. */
module Broadcast {
  import opened Indexing
  import opened Sums
  import opened Fibres
  import opened Reduce

  // ---------- shapes ----------

  /** Where the operand's axes start, once the default -1 is resolved. */
  function Resolve(axis: int, n: nat, rank: nat): int {
    if axis == -1 then (if n < rank then rank - n else n - rank) else axis
  }

  function Offset(axis: int, n: nat, rank: nat): int {
    if n == rank then 0 else Resolve(axis, n, rank)
  }

  /** The axis argument the kernels accept for operands of these ranks. */
  predicate AxisFits(axis: int, n: nat, rank: nat) {
    n <= rank && 0 <= Offset(axis, n, rank) <= rank - n
  }

  /** Any is, for operands of equal rank; otherwise the default, or one that leaves room for the operand's axes. */
  lemma AxisAccepted(axis: int, n: nat, rank: nat)
    ensures AxisFits(axis, n, rank) <==> n <= rank && (axis == -1 || n == rank || 0 <= axis <= rank - n)
  {
  }

  /** The operand's shape with ones around it. */
  function Padded(dims: seq<nat>, offset: nat, rank: nat): (p: seq<nat>)
    requires offset + |dims| <= rank
    ensures |p| == rank
  {
    seq(rank, j requires 0 <= j < rank => if offset <= j < offset + |dims| then dims[j - offset] else 1)
  }

  function Placed(dims: seq<nat>, axis: int, rank: nat): (p: seq<nat>)
    requires AxisFits(axis, |dims|, rank)
    ensures |p| == rank
  {
    Padded(dims, Offset(axis, |dims|, rank), rank)
  }

  /** Does the operand itself have axis `j`, or only the padding? */
  predicate Has(dims: seq<nat>, axis: int, rank: nat, j: nat) {
    Offset(axis, |dims|, rank) <= j < Offset(axis, |dims|, rank) + |dims|
  }

  function MaxRank(x: seq<nat>, y: seq<nat>): (rank: nat)
    ensures rank >= |x| && rank >= |y|
  {
    Max(|x|, |y|)
  }

  predicate AxisFitsBoth(axis: int, xDims: seq<nat>, yDims: seq<nat>) {
    AxisFits(axis, |xDims|, MaxRank(xDims, yDims)) && AxisFits(axis, |yDims|, MaxRank(xDims, yDims))
  }

  /** The greater extent on the axes both operands have, the only extent on the others. */
  function Joined(axis: int, xDims: seq<nat>, yDims: seq<nat>): (d: seq<nat>)
    requires AxisFitsBoth(axis, xDims, yDims)
    ensures |d| == MaxRank(xDims, yDims)
  {
    var rank := MaxRank(xDims, yDims);
    var p, q := Placed(xDims, axis, rank), Placed(yDims, axis, rank);
    seq(rank, j requires 0 <= j < rank =>
      if !Has(yDims, axis, rank, j) then p[j] else if !Has(xDims, axis, rank, j) then q[j] else Max(p[j], q[j]))
  }

  /** Shape `p` can be spread over shape `d`. */
  predicate SpreadsTo(p: seq<nat>, d: seq<nat>) {
    |p| == |d| && forall j :: 0 <= j < |p| ==> p[j] == 1 || p[j] == d[j]
  }

  /** The operand's axis that is the output's axis `j`, if it has one: counted from the last, or from `axis`. */
  function AxisAt(n: nat, axis: int, rank: nat, j: nat): int {
    if axis == -1 || n == rank then n - (rank - j) else j - axis
  }

  /** The greater extent of those the operands have on an output axis. */
  function JoinedExtent(xDims: seq<nat>, yDims: seq<nat>, axis: int, rank: nat, j: nat): nat
    requires 0 <= AxisAt(|xDims|, axis, rank, j) < |xDims| || 0 <= AxisAt(|yDims|, axis, rank, j) < |yDims|
  {
    var s, t := AxisAt(|xDims|, axis, rank, j), AxisAt(|yDims|, axis, rank, j);
    if !(0 <= s < |xDims|) then yDims[t] else if !(0 <= t < |yDims|) then xDims[s] else Max(xDims[s], yDims[t])
  }

  /** The shape, extent by extent. */
  lemma JoinedAt(axis: int, xDims: seq<nat>, yDims: seq<nat>, j: nat)
    requires AxisFitsBoth(axis, xDims, yDims) && j < MaxRank(xDims, yDims)
    ensures var rank := MaxRank(xDims, yDims);
      && (0 <= AxisAt(|xDims|, axis, rank, j) < |xDims| || 0 <= AxisAt(|yDims|, axis, rank, j) < |yDims|)
      && Joined(axis, xDims, yDims)[j] == JoinedExtent(xDims, yDims, axis, rank, j)
  {
  }

  /** `BroadcastDims`. */
  method BroadcastDims(axis: int, xDims: seq<nat>, yDims: seq<nat>) returns (dst: seq<nat>)
    requires AxisFitsBoth(axis, xDims, yDims)
    ensures dst == Joined(axis, xDims, yDims)
    ensures |dst| == Max(|xDims|, |yDims|) && forall j :: 0 <= j < |dst| ==>
      && (0 <= AxisAt(|xDims|, axis, |dst|, j) < |xDims| || 0 <= AxisAt(|yDims|, axis, |dst|, j) < |yDims|)
      && dst[j] == JoinedExtent(xDims, yDims, axis, |dst|, j)
  {
    forall j: nat | j < MaxRank(xDims, yDims)
      ensures 0 <= AxisAt(|xDims|, axis, MaxRank(xDims, yDims), j) < |xDims|
           || 0 <= AxisAt(|yDims|, axis, MaxRank(xDims, yDims), j) < |yDims|
      ensures Joined(axis, xDims, yDims)[j] == JoinedExtent(xDims, yDims, axis, MaxRank(xDims, yDims), j)
    {
      JoinedAt(axis, xDims, yDims, j);
    }
    var a := Resolve(axis, |xDims|, |yDims|);
    if |xDims| == |yDims| {
      dst := [];
      for i := 0 to |xDims|
        invariant |dst| == i && forall j :: 0 <= j < i ==> dst[j] == Max(xDims[j], yDims[j])
      {
        dst := dst + [Max(xDims[i], yDims[i])];
      }
    } else if |xDims| >= |yDims| {
      dst := Overlay(xDims, yDims, a);
    } else {
      dst := Overlay(yDims, xDims, a);
    }
  }

  method Overlay(large: seq<nat>, small: seq<nat>, a: nat) returns (dst: seq<nat>)
    requires a + |small| <= |large|
    ensures |dst| == |large|
    ensures forall j :: 0 <= j < |large| ==>
      dst[j] == if a <= j < a + |small| then Max(large[j], small[j - a]) else large[j]
  {
    dst := large;
    for i := 0 to |small|
      invariant |dst| == |large|
      invariant forall j :: 0 <= j < |large| ==>
        dst[j] == if a <= j < a + i then Max(large[j], small[j - a]) else large[j]
    {
      dst := dst[a + i := Max(dst[a + i], small[i])];
    }
  }

  /** No axis that both operands have is empty in one and of extent one in the other. */
  predicate NoEmptyAgainstOne(axis: int, xDims: seq<nat>, yDims: seq<nat>)
    requires AxisFitsBoth(axis, xDims, yDims)
  {
    var rank := MaxRank(xDims, yDims);
    var p, q := Placed(xDims, axis, rank), Placed(yDims, axis, rank);
    forall j :: 0 <= j < rank && Has(xDims, axis, rank, j) && Has(yDims, axis, rank, j) ==>
      !(p[j] == 0 && q[j] == 1) && !(p[j] == 1 && q[j] == 0)
  }

  ghost predicate CommonShape(axis: int, xDims: seq<nat>, yDims: seq<nat>, d: seq<nat>)
    requires AxisFitsBoth(axis, xDims, yDims)
  {
    var rank := MaxRank(xDims, yDims);
    SpreadsTo(Placed(xDims, axis, rank), d) && SpreadsTo(Placed(yDims, axis, rank), d)
  }

  /**
    For operands that some shape accommodates, `BroadcastDims` gives such a shape exactly when no
    empty axis meets an axis of extent one, and it is then the least one.
   */
  lemma JoinedIsLeast(axis: int, xDims: seq<nat>, yDims: seq<nat>, d: seq<nat>)
    requires AxisFitsBoth(axis, xDims, yDims) && CommonShape(axis, xDims, yDims, d)
    ensures CommonShape(axis, xDims, yDims, Joined(axis, xDims, yDims)) <==> NoEmptyAgainstOne(axis, xDims, yDims)
    ensures NoEmptyAgainstOne(axis, xDims, yDims) ==> SpreadsTo(Joined(axis, xDims, yDims), d)
  {
    var rank, e := MaxRank(xDims, yDims), Joined(axis, xDims, yDims);
    var p, q := Placed(xDims, axis, rank), Placed(yDims, axis, rank);
    forall j | 0 <= j < rank
      ensures (p[j] == 1 || p[j] == d[j]) && (q[j] == 1 || q[j] == d[j])
    {
    }
  }

  /** Shapes [0] and [1] both spread to [0], but are given [1]. */
  lemma EmptyAgainstOne()
    ensures AxisFitsBoth(-1, [0], [1]) && CommonShape(-1, [0], [1], [0])
    ensures Joined(-1, [0], [1]) == [1] && !CommonShape(-1, [0], [1], [1])
  {
    assert Placed([0], -1, 1)[0] == 0 && Placed([1], -1, 1)[0] == 1;
  }

  /** With the default axis the shape does not depend on the order of the operands. */
  lemma JoinedSymmetric(xDims: seq<nat>, yDims: seq<nat>)
    ensures AxisFitsBoth(-1, xDims, yDims) && AxisFitsBoth(-1, yDims, xDims)
    ensures Joined(-1, xDims, yDims) == Joined(-1, yDims, xDims)
  {
  }

  // ---------- spreading ----------

  /** The axes along which shape `p` is spread. */
  function OnesMask(p: seq<nat>): (m: Mask)
    ensures |m| == |p|
  {
    seq(|p|, j requires 0 <= j < |p| => p[j] == 1)
  }

  lemma KeptIsSource(p: seq<nat>, d: seq<nat>)
    requires SpreadsTo(p, d)
    ensures KeptDims(d, OnesMask(p)) == p
  {
  }

  /** The operand spread over shape `d`. */
  ghost function Spread<T>(x: seq<T>, p: seq<nat>, d: seq<nat>): (s: seq<T>)
    requires |x| == Product(p) && SpreadsTo(p, d)
    ensures |s| == Product(d)
  {
    seq(Product(d), i requires 0 <= i < Product(d) => SpreadCell(x, p, d, i))
  }

  ghost function SpreadCell<T>(x: seq<T>, p: seq<nat>, d: seq<nat>, i: nat): T
    requires |x| == Product(p) && SpreadsTo(p, d) && i < Product(d)
  {
    KeptIsSource(p, d);
    ProjectionInRange(d, OnesMask(p), i);
    x[Projection(d, OnesMask(p), i)]
  }

  /** A multi-index with the coordinates of the axes of extent one pinned to zero. */
  function Pinned(idx: seq<nat>, p: seq<nat>): (k: seq<nat>)
    requires |idx| == |p|
    ensures |k| == |idx|
  {
    Kept(idx, OnesMask(p))
  }

  /** Each cell of the spread tensor is the operand's at the pinned multi-index. */
  lemma SpreadAt<T>(x: seq<T>, p: seq<nat>, d: seq<nat>, idx: seq<nat>)
    requires |x| == Product(p) && SpreadsTo(p, d) && InBounds(idx, d)
    ensures InBounds(Pinned(idx, p), p)
    ensures At(Spread(x, p, d), d, idx) == At(x, p, Pinned(idx, p))
  {
    EncodeBound(d, idx);
    DecodeUnique(d, idx);
    KeptIsSource(p, d);
  }

  lemma {:induction false} ProductOnes(n: nat)
    ensures Product(seq(n, _ => 1)) == 1
  {
    if n > 0 {
      assert seq(n, _ => 1)[1..] == seq<nat>(n - 1, _ => 1);
      ProductOnes(n - 1);
    }
  }

  lemma ProductPadded(dims: seq<nat>, offset: nat, rank: nat)
    requires offset + |dims| <= rank
    ensures Product(Padded(dims, offset, rank)) == Product(dims)
  {
    var before, after := seq<nat>(offset, _ => 1), seq<nat>(rank - offset - |dims|, _ => 1);
    assert Padded(dims, offset, rank) == before + dims + after;
    ProductConcat(before + dims, after);
    ProductConcat(before, dims);
    ProductOnes(offset);
    ProductOnes(rank - offset - |dims|);
  }

  lemma SpreadIdentity<T>(x: seq<T>, d: seq<nat>)
    requires |x| == Product(d)
    ensures Spread(x, d, d) == x
  {
    forall idx | InBounds(idx, d) ensures At(Spread(x, d, d), d, idx) == At(x, d, idx) {
      SpreadAt(x, d, d, idx);
      assert Pinned(idx, d) == idx;
    }
    SameBuffer(Spread(x, d, d), x, d);
  }

  /** `BroadcastTo` pads the input's shape with ones to the rank of the output. */
  method PadDims(inDims: seq<nat>, a: nat, retain: nat) returns (tmpDims: seq<nat>)
    ensures tmpDims == Padded(inDims, a, a + |inDims| + retain)
  {
    tmpDims := [];
    for i := 0 to a
      invariant tmpDims == seq(i, _ => 1)
    {
      tmpDims := tmpDims + [1];
    }
    tmpDims := tmpDims + inDims;
    for i := 0 to retain
      invariant tmpDims == seq(a, _ => 1) + inDims + seq(i, _ => 1)
    {
      tmpDims := tmpDims + [1];
    }
  }

  /** The coordinates of the axes of extent one are reset in a copy of the odometer. */
  method PinIndex(index: seq<nat>, tmpDims: seq<nat>) returns (srcIndex: seq<nat>)
    requires |index| == |tmpDims|
    ensures srcIndex == Pinned(index, tmpDims)
  {
    srcIndex := index;
    for j := 0 to |tmpDims|
      invariant |srcIndex| == |index|
      invariant forall k :: 0 <= k < |index| ==> srcIndex[k] == if k < j && tmpDims[k] == 1 then 0 else index[k]
    {
      if tmpDims[j] == 1 {
        srcIndex := srcIndex[j := 0];
      }
    }
  }

  /** `BroadcastTo`. An operand that already has the shape is shared, not copied. */
  method BroadcastTo<T(0)>(input: seq<T>, inDims: seq<nat>, outDims: seq<nat>, axis: int) returns (out: seq<T>)
    requires |input| == Product(inDims)
    requires AxisFits(axis, |inDims|, |outDims|)
    requires SpreadsTo(Placed(inDims, axis, |outDims|), outDims)
    requires inDims == outDims || Resolve(axis, |inDims|, |outDims|) == Offset(axis, |inDims|, |outDims|)
    ensures var p := Placed(inDims, axis, |outDims|);
      Product(p) == |input| && out == Spread(input, p, outDims)
  {
    ProductPadded(inDims, Offset(axis, |inDims|, |outDims|), |outDims|);
    if inDims == outDims {
      assert Placed(inDims, axis, |outDims|) == outDims;
      SpreadIdentity(input, outDims);
      return input;
    }
    var a := Resolve(axis, |inDims|, |outDims|);
    var tmpDims := PadDims(inDims, a, |outDims| - a - |inDims|);
    var buffer := new T[Product(outDims)];
    SpreadLoop(input, tmpDims, outDims, buffer);
    out := buffer[..];
  }

  method SpreadLoop<T>(input: seq<T>, tmpDims: seq<nat>, outDims: seq<nat>, out: array<T>)
    requires |input| == Product(tmpDims) && SpreadsTo(tmpDims, outDims) && |outDims| > 0
    requires out.Length == Product(outDims)
    modifies out
    ensures out[..] == Spread(input, tmpDims, outDims)
  {
    var inStep := ComputeSteps(tmpDims);
    var outStep := ComputeSteps(outDims);
    KeptIsSource(tmpDims, outDims);
    if out.Length == 0 { return; }
    var index := FirstIndex(outDims);
    for i := 0 to out.Length
      invariant index == Decode(outDims, i)
      invariant forall k :: 0 <= k < i ==> out[k] == SpreadCell(input, tmpDims, outDims, k)
    {
      var srcIndex := PinIndex(index, tmpDims);
      DecodeInverse(outDims, i);
      ProjectionInRange(outDims, OnesMask(tmpDims), i);
      var dst := VecProduct(index, outStep);
      var src := VecProduct(srcIndex, inStep);
      out[dst] := input[src];
      index := Advance(outDims, index, i);
    }
  }

  // ---------- the elementwise kernels ----------

  predicate BinaryArgs<T>(x: seq<T>, xDims: seq<nat>, y: seq<T>, yDims: seq<nat>, axis: int) {
    && |x| == Product(xDims) && |y| == Product(yDims)
    && AxisFitsBoth(axis, xDims, yDims)
    && Spreadable(xDims, axis, Joined(axis, xDims, yDims)) && Spreadable(yDims, axis, Joined(axis, xDims, yDims))
  }

  /** What `BroadcastTo` asks of the operand, its axis and the shape. */
  predicate Spreadable(dims: seq<nat>, axis: int, d: seq<nat>) {
    && AxisFits(axis, |dims|, |d|)
    && SpreadsTo(Placed(dims, axis, |d|), d)
    && (dims == d || Resolve(axis, |dims|, |d|) == Offset(axis, |dims|, |d|))
  }

  ghost function SpreadOperand<T>(x: seq<T>, dims: seq<nat>, axis: int, d: seq<nat>): (s: seq<T>)
    requires |x| == Product(dims) && Spreadable(dims, axis, d)
    ensures |s| == Product(d)
  {
    ProductPadded(dims, Offset(axis, |dims|, |d|), |d|);
    Spread(x, Placed(dims, axis, |d|), d)
  }

  /** The operand's value at a multi-index of the output: size-one axes pinned, padding axes dropped. */
  ghost function OperandAt<T>(x: seq<T>, dims: seq<nat>, axis: int, d: seq<nat>, idx: seq<nat>): T
    requires |x| == Product(dims) && Spreadable(dims, axis, d) && InBounds(idx, d)
  {
    var own := OwnIndex(dims, axis, idx);
    OwnIndexInBounds(dims, axis, d, idx);
    At(x, dims, own)
  }

  /** The operand's own multi-index for a multi-index of the output. */
  function OwnIndex(dims: seq<nat>, axis: int, idx: seq<nat>): (own: seq<nat>)
    requires AxisFits(axis, |dims|, |idx|)
    ensures |own| == |dims|
  {
    seq(|dims|, j requires 0 <= j < |dims| => if dims[j] == 1 then 0 else idx[Offset(axis, |dims|, |idx|) + j])
  }

  lemma OwnIndexInBounds(dims: seq<nat>, axis: int, d: seq<nat>, idx: seq<nat>)
    requires Spreadable(dims, axis, d) && InBounds(idx, d)
    ensures InBounds(OwnIndex(dims, axis, idx), dims)
  {
    var own, o := OwnIndex(dims, axis, idx), Offset(axis, |dims|, |d|);
    forall j | 0 <= j < |dims| ensures own[j] < dims[j] {
      assert Placed(dims, axis, |d|)[o + j] == dims[j];
    }
  }

  lemma {:induction false} ZeroPrefix(n: nat, dims: seq<nat>, idx: seq<nat>)
    requires |idx| == |dims|
    ensures Encode(seq(n, _ => 1) + dims, seq(n, _ => 0) + idx) == Encode(dims, idx)
  {
    var e, z := seq<nat>(n, _ => 1) + dims, seq<nat>(n, _ => 0) + idx;
    if n == 0 {
      assert e == dims && z == idx;
    } else {
      EncodeStep(e, z);
      assert e[1..] == seq<nat>(n - 1, _ => 1) + dims && z[1..] == seq<nat>(n - 1, _ => 0) + idx;
      ZeroPrefix(n - 1, dims, idx);
    }
  }

  lemma {:induction false} ZeroSuffix(n: nat, dims: seq<nat>, idx: seq<nat>)
    requires |idx| == |dims|
    ensures Encode(dims + seq(n, _ => 1), idx + seq(n, _ => 0)) == Encode(dims, idx)
  {
    var ones, zeros := seq<nat>(n, _ => 1), seq<nat>(n, _ => 0);
    if dims == [] {
      assert dims + ones == ones + [] && idx + zeros == zeros + [];
      ZeroPrefix(n, [], []);
    } else {
      EncodeStep(dims + ones, idx + zeros);
      EncodeStep(dims, idx);
      assert (dims + ones)[1..] == dims[1..] + ones && (idx + zeros)[1..] == idx[1..] + zeros;
      ZeroSuffix(n, dims[1..], idx[1..]);
      ProductConcat(dims[1..], ones);
      ProductOnes(n);
    }
  }

  function PaddedIndex(own: seq<nat>, offset: nat, rank: nat): (k: seq<nat>)
    requires offset + |own| <= rank
    ensures |k| == rank
  {
    seq(offset, _ => 0) + own + seq(rank - offset - |own|, _ => 0)
  }

  /** The padded shape and the operand's own shape put the same cell at the same place. */
  lemma EncodePadded(dims: seq<nat>, own: seq<nat>, offset: nat, rank: nat)
    requires |own| == |dims| && offset + |dims| <= rank
    ensures Encode(Padded(dims, offset, rank), PaddedIndex(own, offset, rank)) == Encode(dims, own)
  {
    var after := rank - offset - |dims|;
    assert Padded(dims, offset, rank) == (seq<nat>(offset, _ => 1) + dims) + seq<nat>(after, _ => 1);
    ZeroSuffix(after, seq<nat>(offset, _ => 1) + dims, seq<nat>(offset, _ => 0) + own);
    ZeroPrefix(offset, dims, own);
  }

  lemma PinnedIsPadded(dims: seq<nat>, axis: int, idx: seq<nat>)
    requires AxisFits(axis, |dims|, |idx|)
    ensures Pinned(idx, Placed(dims, axis, |idx|))
         == PaddedIndex(OwnIndex(dims, axis, idx), Offset(axis, |dims|, |idx|), |idx|)
  {
  }

  lemma SpreadOperandAt<T>(x: seq<T>, dims: seq<nat>, axis: int, d: seq<nat>, idx: seq<nat>)
    requires |x| == Product(dims) && Spreadable(dims, axis, d) && InBounds(idx, d)
    ensures At(SpreadOperand(x, dims, axis, d), d, idx) == OperandAt(x, dims, axis, d, idx)
  {
    var o := Offset(axis, |dims|, |d|);
    ProductPadded(dims, o, |d|);
    SpreadAt(x, Placed(dims, axis, |d|), d, idx);
    OwnIndexInBounds(dims, axis, d, idx);
    PinnedIsPadded(dims, axis, idx);
    EncodePadded(dims, OwnIndex(dims, axis, idx), o, |d|);
  }

  /**
    Where an operand is read for the output's coordinates. By default its axes are the output's last
    ones; an explicit axis says where they begin when the ranks differ. An axis of extent one is read
    at zero.
   */
  predicate ReadAt(dims: seq<nat>, axis: int, idx: seq<nat>, own: seq<nat>) {
    && |own| == |dims| <= |idx|
    && (axis == -1 || |dims| == |idx| || 0 <= axis <= |idx| - |dims|)
    && forall t :: 0 <= t < |dims| ==>
      own[t] == if dims[t] == 1 then 0
                else if axis == -1 || |dims| == |idx| then idx[|idx| - |dims| + t]
                else idx[axis + t]
  }

  /** By default a vector is read along the last axis of a matrix, and so spread over its rows. */
  lemma VectorOverRows(n: nat, i: nat, j: nat, own: seq<nat>)
    requires n != 1
    ensures ReadAt([n], -1, [i, j], own) <==> own == [j]
    ensures ReadAt([n], 0, [i, j], own) <==> own == [i]
  {
  }

  lemma ReadAtIsOwn(dims: seq<nat>, axis: int, idx: seq<nat>, own: seq<nat>)
    requires AxisFits(axis, |dims|, |idx|)
    ensures ReadAt(dims, axis, idx, own) <==> own == OwnIndex(dims, axis, idx)
  {
  }

  /** `out` combines the operands at every multi-index. */
  ghost predicate Combines<T(!new)>(op: (T, T) -> T, x: seq<T>, xDims: seq<nat>, y: seq<T>, yDims: seq<nat>, axis: int,
                                    out: seq<T>)
    requires BinaryArgs(x, xDims, y, yDims, axis)
  {
    var d := Joined(axis, xDims, yDims);
    && |out| == Product(d)
    && forall idx, xi, yi :: InBounds(idx, d) && ReadAt(xDims, axis, idx, xi) && ReadAt(yDims, axis, idx, yi) ==>
         CombinedAt(op, x, xDims, xi, y, yDims, yi, out, d, idx)
  }

  ghost predicate CombinedAt<T>(op: (T, T) -> T, x: seq<T>, xDims: seq<nat>, xi: seq<nat>,
                                y: seq<T>, yDims: seq<nat>, yi: seq<nat>, out: seq<T>, d: seq<nat>, idx: seq<nat>)
    requires |x| == Product(xDims) && |y| == Product(yDims) && |out| == Product(d) && InBounds(idx, d)
  {
    && InBounds(xi, xDims) && InBounds(yi, yDims)
    && At(out, d, idx) == op(At(x, xDims, xi), At(y, yDims, yi))
  }

  lemma PointwiseCombines<T(!new)>(op: (T, T) -> T, x: seq<T>, xDims: seq<nat>, y: seq<T>, yDims: seq<nat>, axis: int,
                                   out: seq<T>)
    requires BinaryArgs(x, xDims, y, yDims, axis)
    requires var d := Joined(axis, xDims, yDims);
      && |out| == Product(d)
      && forall i :: 0 <= i < |out| ==>
           out[i] == op(SpreadOperand(x, xDims, axis, d)[i], SpreadOperand(y, yDims, axis, d)[i])
    ensures Combines(op, x, xDims, y, yDims, axis, out)
  {
    var d := Joined(axis, xDims, yDims);
    forall idx, xi, yi | InBounds(idx, d) && ReadAt(xDims, axis, idx, xi) && ReadAt(yDims, axis, idx, yi)
      ensures CombinedAt(op, x, xDims, xi, y, yDims, yi, out, d, idx)
    {
      EncodeBound(d, idx);
      ReadIsSpread(x, xDims, axis, d, idx, xi);
      ReadIsSpread(y, yDims, axis, d, idx, yi);
    }
  }

  lemma ReadIsSpread<T>(x: seq<T>, dims: seq<nat>, axis: int, d: seq<nat>, idx: seq<nat>, own: seq<nat>)
    requires |x| == Product(dims) && Spreadable(dims, axis, d) && InBounds(idx, d) && ReadAt(dims, axis, idx, own)
    ensures InBounds(own, dims) && At(SpreadOperand(x, dims, axis, d), d, idx) == At(x, dims, own)
  {
    ReadAtIsOwn(dims, axis, idx, own);
    OwnIndexInBounds(dims, axis, d, idx);
    SpreadOperandAt(x, dims, axis, d, idx);
  }

  /** The body shared by the raw kernels, at the operation each applies. */
  method BinaryRawKernel<T(0, !new)>(op: (T, T) -> T, x: seq<T>, xDims: seq<nat>, y: seq<T>, yDims: seq<nat>,
                                     axis: int, out: array<T>)
    requires BinaryArgs(x, xDims, y, yDims, axis)
    requires out.Length == Product(Joined(axis, xDims, yDims))
    modifies out
    ensures Combines(op, x, xDims, y, yDims, axis, out[..])
  {
    var dstDims := BroadcastDims(axis, xDims, yDims);
    var tmpX := BroadcastTo(x, xDims, dstDims, axis);
    var tmpY := BroadcastTo(y, yDims, dstDims, axis);
    assert tmpX == SpreadOperand(x, xDims, axis, dstDims) && tmpY == SpreadOperand(y, yDims, axis, dstDims);
    for i := 0 to out.Length
      invariant forall k :: 0 <= k < i ==> out[k] == op(tmpX[k], tmpY[k])
    {
      out[i] := op(tmpX[i], tmpY[i]);
    }
    PointwiseCombines(op, x, xDims, y, yDims, axis, out[..]);
  }

  method AddRawKernel(x: seq<real>, xDims: seq<nat>, y: seq<real>, yDims: seq<nat>, axis: int, out: array<real>)
    requires BinaryArgs(x, xDims, y, yDims, axis)
    requires out.Length == Product(Joined(axis, xDims, yDims))
    modifies out
    ensures Combines((a, b) => a + b, x, xDims, y, yDims, axis, out[..])
  {
    BinaryRawKernel((a, b) => a + b, x, xDims, y, yDims, axis, out);
  }

  method MultiplyRawKernel(x: seq<real>, xDims: seq<nat>, y: seq<real>, yDims: seq<nat>, axis: int, out: array<real>)
    requires BinaryArgs(x, xDims, y, yDims, axis)
    requires out.Length == Product(Joined(axis, xDims, yDims))
    modifies out
    ensures Combines((a, b) => a * b, x, xDims, y, yDims, axis, out[..])
  {
    BinaryRawKernel((a, b) => a * b, x, xDims, y, yDims, axis, out);
  }

  method MaxRawKernel(x: seq<real>, xDims: seq<nat>, y: seq<real>, yDims: seq<nat>, axis: int, out: array<real>)
    requires BinaryArgs(x, xDims, y, yDims, axis)
    requires out.Length == Product(Joined(axis, xDims, yDims))
    modifies out
    ensures Combines((a, b) => if a < b then b else a, x, xDims, y, yDims, axis, out[..])
  {
    BinaryRawKernel((a, b) => if a < b then b else a, x, xDims, y, yDims, axis, out);
  }

  /** With the default axis, the operands of a commutative operation can be exchanged. */
  lemma CombinesCommute<T(!new)>(op: (T, T) -> T, x: seq<T>, xDims: seq<nat>, y: seq<T>, yDims: seq<nat>, out: seq<T>)
    requires forall a, b :: op(a, b) == op(b, a)
    requires BinaryArgs(x, xDims, y, yDims, -1)
    ensures BinaryArgs(y, yDims, x, xDims, -1)
    ensures Combines(op, x, xDims, y, yDims, -1, out) <==> Combines(op, y, yDims, x, xDims, -1, out)
  {
    JoinedSymmetric(xDims, yDims);
    if Combines(op, x, xDims, y, yDims, -1, out) {
      CombinesSwapped(op, x, xDims, y, yDims, out);
    }
    if Combines(op, y, yDims, x, xDims, -1, out) {
      CombinesSwapped(op, y, yDims, x, xDims, out);
    }
  }

  lemma CombinesSwapped<T(!new)>(op: (T, T) -> T, x: seq<T>, xDims: seq<nat>, y: seq<T>, yDims: seq<nat>, out: seq<T>)
    requires forall a, b :: op(a, b) == op(b, a)
    requires BinaryArgs(x, xDims, y, yDims, -1) && BinaryArgs(y, yDims, x, xDims, -1)
    requires Combines(op, x, xDims, y, yDims, -1, out)
    ensures Combines(op, y, yDims, x, xDims, -1, out)
  {
    JoinedSymmetric(xDims, yDims);
    var d := Joined(-1, xDims, yDims);
    forall idx, yi, xi | InBounds(idx, d) && ReadAt(yDims, -1, idx, yi) && ReadAt(xDims, -1, idx, xi)
      ensures CombinedAt(op, y, yDims, yi, x, xDims, xi, out, d, idx)
    {
      assert CombinedAt(op, x, xDims, xi, y, yDims, yi, out, d, idx);
    }
  }

  /**
    With the default axis the kernels accept exactly the operands that some shape accommodates and in
    which no empty axis meets an axis of extent one.
   */
  lemma DefaultAxisAccepts<T>(x: seq<T>, xDims: seq<nat>, y: seq<T>, yDims: seq<nat>)
    requires |x| == Product(xDims) && |y| == Product(yDims)
    ensures BinaryArgs(x, xDims, y, yDims, -1)
       <==> NoEmptyAgainstOne(-1, xDims, yDims) && exists d :: CommonShape(-1, xDims, yDims, d)
  {
    var rank := MaxRank(xDims, yDims);
    if NoEmptyAgainstOne(-1, xDims, yDims) && exists d :: CommonShape(-1, xDims, yDims, d) {
      var d :| CommonShape(-1, xDims, yDims, d);
      JoinedIsLeast(-1, xDims, yDims, d);
    }
    if BinaryArgs(x, xDims, y, yDims, -1) {
      assert CommonShape(-1, xDims, yDims, Joined(-1, xDims, yDims));
      JoinedIsLeast(-1, xDims, yDims, Joined(-1, xDims, yDims));
    }
  }

  /** The `t`-th extents from the last are equal, or one is 1 and the other not 0. */
  predicate Comparable(xDims: seq<nat>, yDims: seq<nat>, t: nat)
    requires 1 <= t <= |xDims| && t <= |yDims|
  {
    var e, f := xDims[|xDims| - t], yDims[|yDims| - t];
    e == f || (e == 1 && f != 0) || (f == 1 && e != 0)
  }

  /** They are those that compare, axis by axis from the last back, as long as both have one. */
  lemma DefaultAxisCompares<T>(x: seq<T>, xDims: seq<nat>, y: seq<T>, yDims: seq<nat>)
    requires |x| == Product(xDims) && |y| == Product(yDims)
    ensures BinaryArgs(x, xDims, y, yDims, -1) <==>
      forall t: nat :: 1 <= t <= |xDims| && t <= |yDims| ==> Comparable(xDims, yDims, t)
  {
    var rank := MaxRank(xDims, yDims);
    ArgsByAxis(x, xDims, y, yDims);
    if forall j: nat :: j < rank ==> AxisSpreads(xDims, yDims, j) {
      forall t: nat | 1 <= t <= |xDims| && t <= |yDims| ensures Comparable(xDims, yDims, t) {
        assert AxisSpreads(xDims, yDims, rank - t);
        AxisCompares(xDims, yDims, rank - t);
      }
    }
    if forall t: nat :: 1 <= t <= |xDims| && t <= |yDims| ==> Comparable(xDims, yDims, t) {
      forall j: nat | j < rank ensures AxisSpreads(xDims, yDims, j) {
        AxisCompares(xDims, yDims, j);
      }
    }
  }

  /** Axis `j` of both operands spreads to that of their shape. */
  predicate AxisSpreads(xDims: seq<nat>, yDims: seq<nat>, j: nat)
    requires j < MaxRank(xDims, yDims)
  {
    var rank, d := MaxRank(xDims, yDims), Joined(-1, xDims, yDims);
    var p, q := Placed(xDims, -1, rank), Placed(yDims, -1, rank);
    (p[j] == 1 || p[j] == d[j]) && (q[j] == 1 || q[j] == d[j])
  }

  lemma ArgsByAxis<T>(x: seq<T>, xDims: seq<nat>, y: seq<T>, yDims: seq<nat>)
    requires |x| == Product(xDims) && |y| == Product(yDims)
    ensures BinaryArgs(x, xDims, y, yDims, -1)
       <==> forall j: nat :: j < MaxRank(xDims, yDims) ==> AxisSpreads(xDims, yDims, j)
  {
    if BinaryArgs(x, xDims, y, yDims, -1) {
      forall j: nat | j < MaxRank(xDims, yDims) ensures AxisSpreads(xDims, yDims, j) {
      }
    }
    if forall j: nat :: j < MaxRank(xDims, yDims) ==> AxisSpreads(xDims, yDims, j) {
      var rank, d := MaxRank(xDims, yDims), Joined(-1, xDims, yDims);
      var p, q := Placed(xDims, -1, rank), Placed(yDims, -1, rank);
      forall j: nat | j < rank ensures (p[j] == 1 || p[j] == d[j]) && (q[j] == 1 || q[j] == d[j]) {
        assert AxisSpreads(xDims, yDims, j);
      }
    }
  }

  lemma AxisCompares(xDims: seq<nat>, yDims: seq<nat>, j: nat)
    requires j < MaxRank(xDims, yDims)
    ensures var t := MaxRank(xDims, yDims) - j;
      AxisSpreads(xDims, yDims, j) <==> (t <= |xDims| && t <= |yDims| ==> Comparable(xDims, yDims, t))
  {
    DefaultExtent(xDims, yDims, j);
  }

  /** Axis `j`, counted from the last by `rank - j`, of the operands and of their shape. */
  lemma DefaultExtent(xDims: seq<nat>, yDims: seq<nat>, j: nat)
    requires j < MaxRank(xDims, yDims)
    ensures var rank := MaxRank(xDims, yDims);
      var t := rank - j;
      var e := if t <= |xDims| then xDims[|xDims| - t] else 1;
      var f := if t <= |yDims| then yDims[|yDims| - t] else 1;
      && Placed(xDims, -1, rank)[j] == e && Placed(yDims, -1, rank)[j] == f
      && Joined(-1, xDims, yDims)[j] == if t > |xDims| then f else if t > |yDims| then e else Max(e, f)
  {
  }

  // ---------- spreading against reduction ----------

  // Spreading is the pullback along the projection that the reduction kernels fold along, so the two
  // are adjoint and the mean undoes the spreading.

  lemma SpreadIsPullback<T>(x: seq<T>, p: seq<nat>, d: seq<nat>)
    requires |x| == Product(p) && SpreadsTo(p, d)
    ensures Pullback(x, Spread(x, p, d), Projector(d, OnesMask(p)))
  {
    KeptIsSource(p, d);
    forall i | 0 <= i < Product(d)
      ensures Projector(d, OnesMask(p))(i) < |x| && Spread(x, p, d)[i] == x[Projector(d, OnesMask(p))(i)]
    {
      ProjectionInRange(d, OnesMask(p), i);
    }
  }

  /** Spreading is the adjoint of summing over the axes spread; `w` is the product of the spread operand and `v`. */
  lemma SpreadAdjoint(x: seq<real>, p: seq<nat>, d: seq<nat>, v: seq<real>, w: seq<real>)
    requires |x| == Product(p) && SpreadsTo(p, d) && IsProduct(w, Spread(x, p, d), v)
    ensures Sum(|w|, Cells(w)) == Sum(|x|, Times(FibreSums(v, Projector(d, OnesMask(p))), Cells(x)))
  {
    SpreadIsPullback(x, p, d);
    PullbackAdjoint(x, Spread(x, p, d), Projector(d, OnesMask(p)), v, w);
  }

  /** Averaging over the axes spread gives the operand back. */
  lemma MeanUndoesSpread(x: seq<real>, p: seq<nat>, d: seq<nat>, r: seq<real>)
    requires |x| == |r| == Product(p) && SpreadsTo(p, d) && Product(d) > 0
    requires MeanOutput(Spread(x, p, d), Projector(d, OnesMask(p)), FibreSize(d, OnesMask(p)), r)
    ensures r == x
  {
    var mask := OnesMask(p);
    KeptIsSource(p, d);
    SpreadIsPullback(x, p, d);
    FibreSizePositive(d, mask);
    forall o: nat | o < |x| ensures IsCount(Projector(d, mask), Product(d), o, FibreSize(d, mask)) {
      var size := CountFibre(d, mask, o, Projector(d, mask));
    }
    MeanOfPullback(x, Spread(x, p, d), Projector(d, mask), FibreSize(d, mask), r);
  }

  ghost predicate IsCount(proj: nat -> nat, n: nat, o: nat, size: nat) {
    Sum(n, Indicator(proj, o)) == size as real
  }

  lemma MeanOfPullback(x: seq<real>, s: seq<real>, proj: nat -> nat, size: nat, r: seq<real>)
    requires Pullback(x, s, proj) && |r| == |x| && size > 0
    requires forall o: nat :: o < |x| ==> IsCount(proj, |s|, o, size)
    requires MeanOutput(s, proj, size, r)
    ensures r == x
  {
    forall o: nat | o < |x| ensures r[o] == x[o] {
      PullbackFibreSum(x, s, proj, o, size);
      assert IsQuotient(r[o], FibreSum(s, proj, o), size);
      QuotientUnique(r[o], x[o], FibreSum(s, proj, o), size);
    }
  }

  lemma PullbackFibreSum(x: seq<real>, s: seq<real>, proj: nat -> nat, o: nat, size: nat)
    requires Pullback(x, s, proj) && o < |x| && IsCount(proj, |s|, o, size)
    ensures IsQuotient(x[o], FibreSum(s, proj, o), size)
  {
    SelectedFromIndicator(x, s, proj, o, x[o]);
    SumScaled(|s|, Indicator(proj, o), Selected(s, proj, o), x[o]);
  }

  lemma SelectedFromIndicator(x: seq<real>, s: seq<real>, proj: nat -> nat, o: nat, c: real)
    requires Pullback(x, s, proj) && o < |x| && c == x[o]
    ensures Scales(|s|, Indicator(proj, o), Selected(s, proj, o), c)
  {
    forall i: nat | i < |s| ensures ScalesAt(Indicator(proj, o), Selected(s, proj, o), c, i) {
      if proj(i) == o { assert s[i] == c; }
    }
  }

  lemma QuotientUnique(r: real, v: real, sum: real, size: nat)
    requires size > 0 && IsQuotient(r, sum, size) && IsQuotient(v, sum, size)
    ensures r == v
  {
    CancelScale(r, v, size as real);
  }

  lemma CancelScale(a: real, b: real, c: real)
    requires c > 0.0 && a * c == b * c
    ensures a == b
  {
    assert a == a * c / c && b == b * c / c;
  }

  lemma FibreSizePositive(d: seq<nat>, mask: Mask)
    requires |mask| == |d| && Product(d) > 0
    ensures FibreSize(d, mask) > 0
  {
    ProductPositive(d);
    ProductPositive(ReducedExtents(d, mask));
  }
}
