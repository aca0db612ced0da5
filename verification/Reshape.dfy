/**
  Reshape: inferring the output shape from a request in which 0 copies the input's extent and a
  single -1 stands for whatever extent makes the sizes agree.
 */
module Reshape {
  import opened Indexing

  datatype ShapeResult = Shape(dims: seq<int>) | Invalid

  const UNKNOWN := -1
  const COPY := 0

  // ---------- requests ----------

  /** The kernel's check on one entry, apart from that on repeated unknowns. */
  predicate EntryOk(shape: seq<int>, inDims: seq<nat>, i: nat)
    requires i < |shape|
  {
    shape[i] == UNKNOWN || shape[i] > 0 || (shape[i] == COPY && i < |inDims|)
  }

  predicate OneUnknown(shape: seq<int>) {
    forall i, j :: 0 <= i < j < |shape| ==> !(shape[i] == UNKNOWN && shape[j] == UNKNOWN)
  }

  /** What an entry other than the unknown asks for. */
  function Asked(shape: seq<int>, inDims: seq<nat>, i: nat): (d: int)
    requires i < |shape| && EntryOk(shape, inDims, i)
    ensures shape[i] != UNKNOWN ==> d >= 0
  {
    if shape[i] == COPY then inDims[i] else shape[i]
  }

  predicate AllOk(shape: seq<int>, inDims: seq<nat>) {
    forall i :: 0 <= i < |shape| ==> EntryOk(shape, inDims, i)
  }

  /**
    A shape of positive extents that answers the request and holds as many elements as the input: a
    positive entry is taken as it is, 0 copies the input's extent, and -1 stands for any.
   */
  ghost predicate Answers(shape: seq<int>, inDims: seq<nat>, out: seq<nat>) {
    && |out| == |shape| && (forall i :: 0 <= i < |out| ==> out[i] > 0)
    && (forall i :: 0 <= i < |shape| ==>
      || shape[i] == -1
      || (shape[i] == 0 && i < |inDims| && out[i] == inDims[i])
      || (shape[i] > 0 && out[i] == shape[i]))
    && Product(out) == Product(inDims)
  }

  // ---------- capacities ----------

  /** The kernel's `capacity` after `n` entries; the unknown contributes its -1. */
  function Capacity(shape: seq<int>, inDims: seq<nat>, n: nat): int
    requires n <= |shape| && forall i :: 0 <= i < n ==> EntryOk(shape, inDims, i)
  {
    if n == 0 then 1 else Capacity(shape, inDims, n - 1) * Asked(shape, inDims, n - 1)
  }

  /** The product of the entries that are known. */
  function Known(shape: seq<int>, inDims: seq<nat>, n: nat): (k: int)
    requires n <= |shape| && AllOk(shape, inDims)
    ensures k >= 0
  {
    if n == 0 then 1
    else if shape[n - 1] == UNKNOWN then Known(shape, inDims, n - 1)
    else Known(shape, inDims, n - 1) * Asked(shape, inDims, n - 1)
  }

  predicate HasUnknown(shape: seq<int>, n: nat)
    requires n <= |shape|
  {
    exists i :: 0 <= i < n && shape[i] == UNKNOWN
  }

  lemma NegateFactor(a: int, b: int)
    ensures -a * b == -(a * b) && a * -1 == -a
  {
  }

  /** The capacity is the known product, negated if there is an unknown. */
  lemma {:induction false} CapacityIsKnown(shape: seq<int>, inDims: seq<nat>, n: nat)
    requires n <= |shape| && AllOk(shape, inDims) && OneUnknown(shape)
    ensures Capacity(shape, inDims, n)
      == if HasUnknown(shape, n) then -Known(shape, inDims, n) else Known(shape, inDims, n)
  {
    if n > 0 {
      CapacityIsKnown(shape, inDims, n - 1);
      NegateFactor(Known(shape, inDims, n - 1), Asked(shape, inDims, n - 1));
      if shape[n - 1] == UNKNOWN {
        assert !HasUnknown(shape, n - 1);
        assert HasUnknown(shape, n);
      } else {
        assert HasUnknown(shape, n) <==> HasUnknown(shape, n - 1);
      }
    }
  }

  /** The request with the unknown filled in. */
  function Completed(shape: seq<int>, inDims: seq<nat>, v: nat): (out: seq<nat>)
    requires AllOk(shape, inDims)
    ensures |out| == |shape|
  {
    seq<nat>(|shape|, i requires 0 <= i < |shape| => if shape[i] == UNKNOWN then v else Asked(shape, inDims, i))
  }

  lemma {:induction false} CompletedSize(shape: seq<int>, inDims: seq<nat>, v: nat, n: nat)
    requires n <= |shape| && AllOk(shape, inDims) && OneUnknown(shape)
    ensures Product(Completed(shape, inDims, v)[..n])
      == Known(shape, inDims, n) * (if HasUnknown(shape, n) then v else 1)
  {
    var c := Completed(shape, inDims, v);
    if n > 0 {
      CompletedSize(shape, inDims, v, n - 1);
      assert c[..n] == c[..n - 1] + [c[n - 1]];
      ProductAppend(c[..n - 1], c[n - 1]);
      if shape[n - 1] == UNKNOWN {
        assert !HasUnknown(shape, n - 1) && HasUnknown(shape, n);
      } else {
        assert HasUnknown(shape, n) <==> HasUnknown(shape, n - 1);
        SwapLast(Known(shape, inDims, n - 1), if HasUnknown(shape, n) then v else 1, c[n - 1]);
      }
    }
  }

  lemma SwapLast(a: nat, b: nat, c: nat)
    ensures a * b * c == a * c * b
  {
    MulAssoc(a, b, c);
    MulAssoc(a, c, b);
  }

  /** No entry copies a zero. */
  predicate CopiesPositive(shape: seq<int>, inDims: seq<nat>) {
    forall i :: 0 <= i < |shape| && shape[i] == COPY ==> i < |inDims| && inDims[i] > 0
  }

  lemma {:induction false} KnownPositive(shape: seq<int>, inDims: seq<nat>, n: nat)
    requires n <= |shape| && AllOk(shape, inDims)
    ensures Known(shape, inDims, n) > 0 <==> CopiesPositive(shape[..n], inDims)
  {
    if n > 0 {
      KnownPositive(shape, inDims, n - 1);
      CopiesNext(shape, inDims, n);
      if shape[n - 1] != UNKNOWN {
        PositiveProduct(Known(shape, inDims, n - 1), Asked(shape, inDims, n - 1));
      }
    }
  }

  lemma CopiesNext(shape: seq<int>, inDims: seq<nat>, n: nat)
    requires 0 < n <= |shape| && AllOk(shape, inDims)
    ensures CopiesPositive(shape[..n], inDims)
       <==> CopiesPositive(shape[..n - 1], inDims) && (shape[n - 1] == COPY ==> n <= |inDims| && inDims[n - 1] > 0)
  {
    assert forall i :: 0 <= i < n - 1 ==> shape[..n - 1][i] == shape[..n][i] == shape[i];
    assert shape[..n][n - 1] == shape[n - 1];
  }

  lemma PositiveProduct(a: nat, b: nat)
    ensures a * b > 0 <==> a > 0 && b > 0
  {
  }

  // ---------- answers ----------

  /** An answer is the request completed, and the sizes then agree. */
  lemma AnswerIsCompleted(shape: seq<int>, inDims: seq<nat>, out: seq<nat>) returns (v: nat)
    requires OneUnknown(shape) && Answers(shape, inDims, out)
    ensures AllOk(shape, inDims) && out == Completed(shape, inDims, v)
    ensures Known(shape, inDims, |shape|) * (if HasUnknown(shape, |shape|) then v else 1) == Product(inDims)
    ensures HasUnknown(shape, |shape|) ==> v > 0
  {
    assert AllOk(shape, inDims);
    v := 1;
    if HasUnknown(shape, |shape|) {
      var u :| 0 <= u < |shape| && shape[u] == UNKNOWN;
      v := out[u];
    }
    assert out == Completed(shape, inDims, v);
    CompletedSize(shape, inDims, v, |shape|);
    assert out[..|shape|] == out;
  }

  /** The completed request answers when the sizes agree. */
  lemma CompletedAnswers(shape: seq<int>, inDims: seq<nat>, v: nat)
    requires OneUnknown(shape) && AllOk(shape, inDims) && AllPositive(inDims) && v > 0
    requires Known(shape, inDims, |shape|) * (if HasUnknown(shape, |shape|) then v else 1) == Product(inDims)
    ensures Answers(shape, inDims, Completed(shape, inDims, v))
  {
    var out := Completed(shape, inDims, v);
    CompletedSize(shape, inDims, v, |shape|);
    assert out[..|shape|] == out;
    forall i | 0 <= i < |out|
      ensures out[i] > 0
      ensures || shape[i] == -1
              || (shape[i] == 0 && i < |inDims| && out[i] == inDims[i])
              || (shape[i] > 0 && out[i] == shape[i])
    {
      assert EntryOk(shape, inDims, i);
    }
  }

  /** Two answers to a request for the same input are the same. */
  lemma AnswerUnique(shape: seq<int>, inDims: seq<nat>, a: seq<nat>, b: seq<nat>)
    requires OneUnknown(shape) && AllPositive(inDims) && Answers(shape, inDims, a) && Answers(shape, inDims, b)
    ensures a == b
  {
    var v := AnswerIsCompleted(shape, inDims, a);
    var w := AnswerIsCompleted(shape, inDims, b);
    if HasUnknown(shape, |shape|) {
      KnownPositive(shape, inDims, |shape|);
      assert shape[..|shape|] == shape;
      CancelFactor(Known(shape, inDims, |shape|), v, w);
    }
  }

  lemma CancelFactor(k: nat, v: nat, w: nat)
    requires k > 0 && k * v == k * w
    ensures v == w
  {
    if v < w { MulMono(v + 1, w, k); } else if w < v { MulMono(w + 1, v, k); }
  }

  // ---------- the kernel's arithmetic ----------

  /** Dividing the negated sizes is exact just when the known product divides the input's size. */
  lemma NegatedQuotient(size: int, known: int)
    requires known > 0 && size >= 0
    ensures TruncDiv(-size, -known) == size / known
    ensures TruncDiv(-size, -known) * -known == -size <==> known * (size / known) == size
  {
    NegateFactor(size / known, known);
    assert known * (size / known) == size / known * known;
    assert size / known * -known == -(size / known * known);
  }

  lemma ExactQuotient(size: nat, known: nat, v: nat)
    requires known > 0 && known * v == size
    ensures size / known == v
  {
    DivModUnique(v, 0, known);
  }

  /** The request as the kernel first writes it, with -1 left in place. */
  function Requested(shape: seq<int>, inDims: seq<nat>): (out: seq<int>)
    requires AllOk(shape, inDims)
    ensures |out| == |shape|
  {
    seq(|shape|, i requires 0 <= i < |shape| => Asked(shape, inDims, i))
  }

  /** The loop of `ValidateShape`. */
  method ReadRequest(shape: seq<int>, inDims: seq<nat>)
    returns (ok: bool, capacity: int, unkDimIdx: int, outputShape: seq<int>)
    ensures ok <==> AllOk(shape, inDims) && OneUnknown(shape)
    ensures ok ==> capacity == Capacity(shape, inDims, |shape|) && outputShape == Requested(shape, inDims)
    ensures ok ==> -1 <= unkDimIdx < |shape| && (unkDimIdx == -1 <==> !HasUnknown(shape, |shape|))
    ensures ok && unkDimIdx != -1 ==> shape[unkDimIdx] == UNKNOWN
  {
    outputShape, capacity, unkDimIdx := seq(|shape|, _ => 0), 1, -1;
    for i := 0 to |shape|
      invariant |outputShape| == |shape|
      invariant forall k :: 0 <= k < i ==> EntryOk(shape, inDims, k) && outputShape[k] == Asked(shape, inDims, k)
      invariant -1 <= unkDimIdx < i && (unkDimIdx != -1 ==> shape[unkDimIdx] == UNKNOWN)
      invariant forall k :: 0 <= k < i && k != unkDimIdx ==> shape[k] != UNKNOWN
      invariant capacity == Capacity(shape, inDims, i)
    {
      if shape[i] == UNKNOWN {
        if unkDimIdx != -1 { return false, 0, -1, []; }
        unkDimIdx := i;
      } else if shape[i] == COPY {
        if !(i < |inDims|) { assert !EntryOk(shape, inDims, i); return false, 0, -1, []; }
      } else {
        if !(shape[i] > 0) { assert !EntryOk(shape, inDims, i); return false, 0, -1, []; }
      }
      capacity := capacity * (if shape[i] != 0 then shape[i] else inDims[i]);
      outputShape := outputShape[i := if shape[i] != 0 then shape[i] else inDims[i]];
    }
    ok := true;
  }

  /** The extent the kernel gives the unknown, or 1 when there is none. */
  function Inferred(shape: seq<int>, inDims: seq<nat>): (v: nat)
    requires AllOk(shape, inDims) && Known(shape, inDims, |shape|) > 0
  {
    if HasUnknown(shape, |shape|) then Product(inDims) / Known(shape, inDims, |shape|) else 1
  }

  /** A request has an answer exactly when completing it with the inferred extent gives the input's size. */
  lemma AnswerExists(shape: seq<int>, inDims: seq<nat>)
    requires AllPositive(inDims) && AllOk(shape, inDims) && OneUnknown(shape) && Known(shape, inDims, |shape|) > 0
    ensures (exists out :: Answers(shape, inDims, out))
       <==> Known(shape, inDims, |shape|) * Inferred(shape, inDims) == Product(inDims)
    ensures (exists out :: Answers(shape, inDims, out)) ==>
      Answers(shape, inDims, Completed(shape, inDims, Inferred(shape, inDims)))
  {
    var known, v := Known(shape, inDims, |shape|), Inferred(shape, inDims);
    if out :| Answers(shape, inDims, out) {
      var w := AnswerIsCompleted(shape, inDims, out);
      if HasUnknown(shape, |shape|) {
        ExactQuotient(Product(inDims), known, w);
      } else {
        assert out == Completed(shape, inDims, v);
      }
    }
    if known * v == Product(inDims) {
      ProductPositive(inDims);
      PositiveProduct(known, v);
      CompletedAnswers(shape, inDims, v);
    }
  }

  /** A size with a zero extent is zero. */
  lemma EmptySize(inDims: seq<nat>)
    ensures AllPositive(inDims) <==> Product(inDims) > 0
  {
    ProductPositive(inDims);
  }

  /** What an empty input asks of the entries. */
  lemma EmptyRequest(shape: seq<int>, inDims: seq<nat>)
    ensures AllOk(shape, inDims) && CopiesPositive(shape, inDims) <==> forall i :: 0 <= i < |shape| ==>
      shape[i] == -1 || shape[i] > 0 || (shape[i] == 0 && i < |inDims| && inDims[i] > 0)
  {
    if AllOk(shape, inDims) && CopiesPositive(shape, inDims) {
      forall i | 0 <= i < |shape|
        ensures shape[i] == -1 || shape[i] > 0 || (shape[i] == 0 && i < |inDims| && inDims[i] > 0)
      {
        assert EntryOk(shape, inDims, i);
      }
    }
  }

  /**
    `ValidateShape`. For an input of positive extents it succeeds exactly when the request has an
    answer, and returns the only one. For an empty input it succeeds exactly when there is an
    unknown and no entry copies a zero, and leaves the unknown as it is.
   */
  method ValidateShape(shape: seq<int>, inDims: seq<nat>) returns (r: ShapeResult)
    ensures Product(inDims) > 0 ==> (r.Shape? <==>
      && (forall i, j :: 0 <= i < j < |shape| ==> !(shape[i] == -1 && shape[j] == -1))
      && exists out :: Answers(shape, inDims, out))
    ensures Product(inDims) > 0 && r.Shape? ==> AllPositive(r.dims) && Answers(shape, inDims, r.dims)
    ensures Product(inDims) > 0 && r.Shape? ==> forall out :: Answers(shape, inDims, out) ==> out == r.dims
    ensures Product(inDims) == 0 ==> (r.Shape? <==>
      && (exists i :: 0 <= i < |shape| && shape[i] == -1)
      && (forall i, j :: 0 <= i < j < |shape| ==> !(shape[i] == -1 && shape[j] == -1))
      && forall i :: 0 <= i < |shape| ==>
        shape[i] == -1 || shape[i] > 0 || (shape[i] == 0 && i < |inDims| && inDims[i] > 0))
    ensures Product(inDims) == 0 && r.Shape? ==> |r.dims| == |shape| && forall i :: 0 <= i < |shape| ==>
      r.dims[i] == if shape[i] == 0 then inDims[i] else shape[i]
  {
    var inSize := ProductLoop(inDims);
    var allPositive := forall i :: 0 <= i < |inDims| ==> inDims[i] > 0;
    EmptySize(inDims);
    EmptyRequest(shape, inDims);
    var ok, capacity, unkDimIdx, outputShape := ReadRequest(shape, inDims);
    if !ok {
      if AllPositive(inDims) && OneUnknown(shape) { NoAnswer(shape, inDims); }
      return Invalid;
    }
    if allPositive {
      r := InferPositive(shape, inDims, inSize, capacity, unkDimIdx, outputShape);
    } else {
      r := InferEmpty(shape, inDims, inSize, capacity, unkDimIdx, outputShape);
    }
  }

  /** The checks after the loop where all extents are positive; the last one does not apply. */
  method InferPositive(shape: seq<int>, inDims: seq<nat>, inSize: int, capacity: int, unkDimIdx: int,
                       requested: seq<int>)
    returns (r: ShapeResult)
    requires AllPositive(inDims) && AllOk(shape, inDims) && OneUnknown(shape) && inSize == Product(inDims)
    requires capacity == Capacity(shape, inDims, |shape|) && requested == Requested(shape, inDims)
    requires -1 <= unkDimIdx < |shape| && (unkDimIdx == -1 <==> !HasUnknown(shape, |shape|))
    requires unkDimIdx != -1 ==> shape[unkDimIdx] == UNKNOWN
    ensures r.Shape? <==> exists out :: Answers(shape, inDims, out)
    ensures r.Shape? ==> AllPositive(r.dims) && Answers(shape, inDims, r.dims)
    ensures r.Shape? ==> forall out :: Answers(shape, inDims, out) ==> out == r.dims
  {
    CapacityIsKnown(shape, inDims, |shape|);
    KnownIsPositive(shape, inDims);
    AnswerExists(shape, inDims);
    NegatedQuotient(inSize, Known(shape, inDims, |shape|));
    var outputShape: seq<int> := requested;
    if unkDimIdx != -1 {
      outputShape := outputShape[unkDimIdx := TruncDiv(-inSize, capacity)];
      if outputShape[unkDimIdx] * capacity != -inSize { return Invalid; }
    } else {
      if capacity != inSize { return Invalid; }
    }
    assert outputShape == Completed(shape, inDims, Inferred(shape, inDims));
    OnlyAnswer(shape, inDims);
    return Shape(outputShape);
  }

  lemma KnownIsPositive(shape: seq<int>, inDims: seq<nat>)
    requires AllPositive(inDims) && AllOk(shape, inDims)
    ensures Known(shape, inDims, |shape|) > 0
  {
    KnownPositive(shape, inDims, |shape|);
    assert shape[..|shape|] == shape;
    forall i | 0 <= i < |shape| && shape[i] == COPY ensures i < |inDims| && inDims[i] > 0 {
      assert EntryOk(shape, inDims, i);
    }
  }

  /** The checks after the loop for an empty input. */
  method InferEmpty(shape: seq<int>, inDims: seq<nat>, inSize: int, capacity: int, unkDimIdx: int, requested: seq<int>)
    returns (r: ShapeResult)
    requires AllOk(shape, inDims) && OneUnknown(shape) && inSize == 0
    requires capacity == Capacity(shape, inDims, |shape|) && requested == Requested(shape, inDims)
    requires -1 <= unkDimIdx < |shape| && (unkDimIdx == -1 <==> !HasUnknown(shape, |shape|))
    requires unkDimIdx != -1 ==> shape[unkDimIdx] == UNKNOWN
    ensures r.Shape? <==> HasUnknown(shape, |shape|) && CopiesPositive(shape, inDims)
    ensures r.Shape? ==> r.dims == Requested(shape, inDims)
  {
    CapacityIsKnown(shape, inDims, |shape|);
    KnownPositive(shape, inDims, |shape|);
    assert shape[..|shape|] == shape;
    var outputShape: seq<int> := requested;
    if unkDimIdx != -1 {
      outputShape := outputShape[unkDimIdx := -1];
    }
    if !(capacity < inSize) { return Invalid; }
    return Shape(outputShape);
  }

  lemma NoAnswer(shape: seq<int>, inDims: seq<nat>)
    requires !AllOk(shape, inDims)
    ensures !exists out :: Answers(shape, inDims, out)
  {
  }

  lemma OnlyAnswer(shape: seq<int>, inDims: seq<nat>)
    requires AllPositive(inDims) && OneUnknown(shape) && AllOk(shape, inDims) && Known(shape, inDims, |shape|) > 0
    requires Answers(shape, inDims, Completed(shape, inDims, Inferred(shape, inDims)))
    ensures forall out :: Answers(shape, inDims, out) ==> out == Completed(shape, inDims, Inferred(shape, inDims))
  {
    forall out | Answers(shape, inDims, out) ensures out == Completed(shape, inDims, Inferred(shape, inDims)) {
      AnswerUnique(shape, inDims, out, Completed(shape, inDims, Inferred(shape, inDims)));
    }
  }
}
