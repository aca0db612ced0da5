/**
  Blocks in which values are defined before they are used, and the proof that converting one never
  looks up a tensor that no node produced, whichever values share their tensors.
 */
module GraphLookups {
  import opened EngineIR
  import opened GraphCompiler
  import opened GraphMeaning

  // ---------- topologically sorted blocks ----------

  /** The values defined by the inputs and the operations. */
  function Defined(ctx: Context, ops: seq<Op>): set<Value> {
    if ops == [] then set k | 0 <= k < |ctx.inputs| :: ctx.inputs[k]
    else
      var op := ops[|ops| - 1];
      Defined(ctx, ops[..|ops| - 1])
        + (if op.Compute? then set k | 0 <= k < |op.results| :: op.results[k] else {})
  }

  /** Operands and yielded values are defined before they are used. */
  predicate Topological(ctx: Context, ops: seq<Op>) {
    ops == [] ||
    (&& Topological(ctx, ops[..|ops| - 1])
     && AllIn(ops[|ops| - 1].operands, Defined(ctx, ops[..|ops| - 1])))
  }

  predicate AllIn(vs: seq<Value>, known: set<Value>) {
    forall k :: 0 <= k < |vs| ==> vs[k] in known
  }

  lemma {:induction false} YieldedDefined(ctx: Context, ops: seq<Op>)
    requires Topological(ctx, ops)
    ensures AllIn(Yielded(ops), Defined(ctx, ops))
  {
    if ops != [] {
      YieldedDefined(ctx, ops[..|ops| - 1]);
    }
  }

  /** An engine input has no tensor beside the first, which is the only one that gets a node. */
  predicate SingleInputs(ctx: Context) {
    forall k :: 0 <= k < |ctx.inputs| ==> |TensorsOf(ctx, ctx.inputs[k])| <= 1
  }

  /** Translators never return a plain node for an operation of several results. */
  ghost predicate TuplesProjected(ctx: Context) {
    forall key, g: Graph, op: Op, args: seq<seq<NodeId>> :: key in ctx.translators ==>
      ProjectedAt(ctx.translators[key], g, op, args)
  }

  ghost predicate ProjectedAt(tr: Translator, g: Graph, op: Op, args: seq<seq<NodeId>>) {
    match tr(g, op, args)
    case None => true
    case Some((g', node)) => op.Compute? && node < |g'| && g'[node].typ.Plain? ==> |op.results| <= 1
  }

  // ---------- what is cached ----------

  /** The tensors of some values. */
  ghost function TensorSet(ctx: Context, vs: seq<Value>): set<Tensor> {
    set k: nat, t: Tensor | k < |vs| && t in TensorsOf(ctx, vs[k]) :: t
  }

  lemma TensorSetAppend(ctx: Context, vs: seq<Value>, k: nat)
    requires k < |vs|
    ensures TensorSet(ctx, vs[..k + 1]) == TensorSet(ctx, vs[..k]) + set t | t in TensorsOf(ctx, vs[k])
  {
    forall t | t in TensorsOf(ctx, vs[k]) ensures t in TensorSet(ctx, vs[..k + 1]) {
      assert vs[..k + 1][k] == vs[k];
    }
    forall t | t in TensorSet(ctx, vs[..k]) ensures t in TensorSet(ctx, vs[..k + 1]) {
      var i: nat :| i < k && t in TensorsOf(ctx, vs[..k][i]);
      assert vs[..k + 1][i] == vs[i];
    }
  }

  /** The tensors that have a node once the operations are converted. */
  ghost function Written(ctx: Context, ops: seq<Op>): set<Tensor> {
    if ops == [] then set k | 0 <= k < |ctx.inputs| :: FirstTensor(ctx, ctx.inputs[k])
    else
      var op := ops[|ops| - 1];
      Written(ctx, ops[..|ops| - 1]) + (if op.Compute? then TensorSet(ctx, op.results) else {})
  }

  /** Every operation's operands have only tensors that were written before it. */
  ghost predicate OperandsWritten(ctx: Context, ops: seq<Op>) {
    ops == [] ||
    (&& OperandsWritten(ctx, ops[..|ops| - 1])
     && var op := ops[|ops| - 1];
        op.Compute? ==> TensorSet(ctx, op.operands) <= Written(ctx, ops[..|ops| - 1]))
  }

  /** Every tensor looked up was written: the operands' on the way, and the yielded values' in the end. */
  ghost predicate Covered(ctx: Context, ops: seq<Op>) {
    OperandsWritten(ctx, ops) && TensorSet(ctx, Yielded(ops)) <= Written(ctx, ops)
  }

  lemma {:induction false} InputKeys(ctx: Context, dims: map<Tensor, Shape>, k: nat)
    requires Initialised(ctx) && k <= |ctx.inputs|
    ensures WithInputs(ctx, dims, k).cache.Keys == set i | 0 <= i < k :: FirstTensor(ctx, ctx.inputs[i])
  {
    if k > 0 {
      InputKeys(ctx, dims, k - 1);
      assert HasTensor(ctx, ctx.inputs[k - 1]);
      assert (set i | 0 <= i < k :: FirstTensor(ctx, ctx.inputs[i]))
          == (set i | 0 <= i < k - 1 :: FirstTensor(ctx, ctx.inputs[i])) + {FirstTensor(ctx, ctx.inputs[k - 1])};
    }
  }

  lemma {:induction false} TupleKeys(ctx: Context, st: State, node: NodeId, shapes: seq<Shape>, results: seq<Value>,
                                     k: nat)
    requires k <= |shapes| == |results| && RecordTuple(ctx, st, node, shapes, results, k).Ok?
    ensures RecordTuple(ctx, st, node, shapes, results, k).value.cache.Keys
         == st.cache.Keys + TensorSet(ctx, results[..k])
  {
    if k > 0 {
      TupleKeys(ctx, st, node, shapes, results, k - 1);
      TensorSetAppend(ctx, results, k - 1);
      assert TensorsOf(ctx, results[k - 1]) == [FirstTensor(ctx, results[k - 1])];
    }
  }

  /** Recording caches nothing but the results' tensors, and all of them unless a plain node stands for several. */
  lemma RecordKeys(ctx: Context, st: State, node: NodeId, op: Op)
    requires op.Compute? && node < |st.graph| && RecordResults(ctx, st, node, op).Ok?
    ensures var keys := RecordResults(ctx, st, node, op).value.cache.Keys;
      && keys <= st.cache.Keys + TensorSet(ctx, op.results)
      && ((st.graph[node].typ.Plain? ==> |op.results| <= 1) ==> keys == st.cache.Keys + TensorSet(ctx, op.results))
  {
    match st.graph[node].typ
    case TupleOf(shapes) =>
      TupleKeys(ctx, st, node, shapes, op.results, |op.results|);
      assert op.results[..|op.results|] == op.results;
    case Plain(_) =>
      if |op.results| == 1 {
        TensorSetAppend(ctx, op.results, 0);
        assert op.results[..1] == op.results;
        assert TensorsOf(ctx, op.results[0]) == [FirstTensor(ctx, op.results[0])];
      }
  }

  lemma {:induction false} TupleNeverMissing(ctx: Context, st: State, node: NodeId, shapes: seq<Shape>,
                                             results: seq<Value>, k: nat)
    requires k <= |shapes| == |results|
    ensures RecordTuple(ctx, st, node, shapes, results, k) != Err(NotGenerated)
  {
    if k > 0 {
      TupleNeverMissing(ctx, st, node, shapes, results, k - 1);
    }
  }

  lemma RecordNeverMissing(ctx: Context, st: State, node: NodeId, op: Op)
    requires op.Compute? && node < |st.graph|
    ensures RecordResults(ctx, st, node, op) != Err(NotGenerated)
  {
    match st.graph[node].typ
    case TupleOf(shapes) =>
      if |shapes| == |op.results| {
        TupleNeverMissing(ctx, st, node, shapes, op.results, |op.results|);
      }
    case Plain(_) =>
  }

  lemma {:induction false} MappedNeverMissing(ctx: Context, vs: seq<Value>)
    ensures Mapped(ctx, vs) != Err(NotGenerated)
  {
    if vs != [] {
      MappedNeverMissing(ctx, vs[..|vs| - 1]);
    }
  }

  // ---------- when lookups succeed ----------

  lemma {:induction false} NodesFound(cache: map<Tensor, NodeId>, ts: seq<Tensor>)
    ensures CachedNodes(cache, ts).Ok? <==> forall t :: t in ts ==> t in cache
  {
    if ts != [] {
      var k := |ts| - 1;
      NodesFound(cache, ts[..k]);
      assert ts == ts[..k] + [ts[k]];
    }
  }

  lemma {:induction false} OperandsFound(ctx: Context, cache: map<Tensor, NodeId>, vs: seq<Value>)
    ensures TensorSet(ctx, vs) <= cache.Keys ==> OperandNodes(ctx, cache, vs) != Err(NotGenerated)
    ensures OperandNodes(ctx, cache, vs).Ok? ==> TensorSet(ctx, vs) <= cache.Keys
  {
    if vs != [] {
      var k := |vs| - 1;
      OperandsFound(ctx, cache, vs[..k]);
      TensorSetAppend(ctx, vs, k);
      assert vs[..k + 1] == vs;
      NodesFound(cache, TensorsOf(ctx, vs[k]));
    }
  }

  lemma StepFound(ctx: Context, st: State, op: Op)
    requires TuplesProjected(ctx) && op.Compute?
    ensures var r, keys := ConvertOp(ctx, st, op), st.cache.Keys;
      && (TensorSet(ctx, op.operands) <= keys ==> r != Err(NotGenerated))
      && (r.Ok? ==> TensorSet(ctx, op.operands) <= keys && r.value.cache.Keys == keys + TensorSet(ctx, op.results))
  {
    OperandsFound(ctx, st.cache, op.operands);
    var key := TranslateKey(Resolved(op));
    if key in ctx.translators && OperandNodes(ctx, st.cache, op.operands).Ok? {
      var args := OperandNodes(ctx, st.cache, op.operands).value;
      var tr := ctx.translators[key](st.graph, op, args);
      assert ProjectedAt(ctx.translators[key], st.graph, op, args);
      if tr.Some? && tr.value.1 < |tr.value.0| {
        var st' := st.(graph := tr.value.0);
        RecordNeverMissing(ctx, st', tr.value.1, op);
        if RecordResults(ctx, st', tr.value.1, op).Ok? {
          RecordKeys(ctx, st', tr.value.1, op);
        }
      }
    }
  }

  lemma {:induction false} OpsFound(ctx: Context, dims: map<Tensor, Shape>, ops: seq<Op>)
    requires Initialised(ctx) && TuplesProjected(ctx)
    ensures var r := ConvertOps(ctx, WithInputs(ctx, dims, |ctx.inputs|), ops);
      && (OperandsWritten(ctx, ops) ==> r != Err(NotGenerated))
      && (r.Ok? ==> OperandsWritten(ctx, ops) && r.value.cache.Keys == Written(ctx, ops))
  {
    if ops == [] {
      InputKeys(ctx, dims, |ctx.inputs|);
    } else {
      var k := |ops| - 1;
      OpsFound(ctx, dims, ops[..k]);
      var r := ConvertOps(ctx, WithInputs(ctx, dims, |ctx.inputs|), ops[..k]);
      if r.Ok? {
        if ops[k].Yield? {
          MappedNeverMissing(ctx, ops[k].operands);
        } else {
          StepFound(ctx, r.value, ops[k]);
        }
      }
    }
  }

  lemma {:induction false} OutputsFound(ctx: Context, st: State, k: nat)
    requires k <= |st.inner| <= |ctx.outputs|
    ensures TensorSet(ctx, st.inner[..k]) <= st.cache.Keys ==> OutputNodes(ctx, st, k) != Err(NotGenerated)
    ensures OutputNodes(ctx, st, k).Ok? ==> TensorSet(ctx, st.inner[..k]) <= st.cache.Keys
  {
    if k > 0 {
      OutputsFound(ctx, st, k - 1);
      TensorSetAppend(ctx, st.inner, k - 1);
      var v := st.inner[k - 1];
      assert ResultTensor(ctx, v).Ok? ==> TensorsOf(ctx, v) == [FirstTensor(ctx, v)];
    }
  }

  /**
    Conversion fails on no lookup if every tensor looked up was written; and if it succeeds, they all
    were. Short of other errors, then, that is the exact condition. Entries of the cache are only ever
    replaced, so it does not matter how values share tensors.
   */
  lemma LookupsSucceedIff(ctx: Context, dims: map<Tensor, Shape>, ops: seq<Op>)
    requires OneYield(ops) && TuplesProjected(ctx)
    ensures Covered(ctx, ops) ==> Convert(ctx, dims, ops) != Err(NotGenerated)
    ensures Convert(ctx, dims, ops).Ok? ==> Covered(ctx, ops)
  {
    if Initialised(ctx) {
      OpsFound(ctx, dims, ops);
      var st0 := WithInputs(ctx, dims, |ctx.inputs|);
      var r := ConvertOps(ctx, st0, ops);
      if r.Ok? {
        var n := |r.value.inner|;
        NoInnerYet(ctx, dims, |ctx.inputs|);
        InnerCount(ctx, st0, ops);
        OutputsFound(ctx, r.value, n);
        assert r.value.inner[..n] == r.value.inner;
        assert r.value.inner == Yielded(ops);
      }
    }
  }

  /** In a sorted block, all tensors of a defined value were written. */
  lemma {:induction false} DefinedWritten(ctx: Context, ops: seq<Op>, v: Value)
    requires SingleInputs(ctx) && v in Defined(ctx, ops)
    ensures forall t :: t in TensorsOf(ctx, v) ==> t in Written(ctx, ops)
  {
    if ops == [] {
      var k :| 0 <= k < |ctx.inputs| && ctx.inputs[k] == v;
      assert |TensorsOf(ctx, v)| <= 1;
    } else if v in Defined(ctx, ops[..|ops| - 1]) {
      DefinedWritten(ctx, ops[..|ops| - 1], v);
    }
  }

  lemma AllWritten(ctx: Context, ops: seq<Op>, vs: seq<Value>)
    requires SingleInputs(ctx) && AllIn(vs, Defined(ctx, ops))
    ensures TensorSet(ctx, vs) <= Written(ctx, ops)
  {
    forall k: nat, t | k < |vs| && t in TensorsOf(ctx, vs[k]) ensures t in Written(ctx, ops) {
      DefinedWritten(ctx, ops, vs[k]);
    }
  }

  lemma {:induction false} SortedIsWritten(ctx: Context, ops: seq<Op>)
    requires Topological(ctx, ops) && SingleInputs(ctx)
    ensures OperandsWritten(ctx, ops)
  {
    if ops != [] {
      SortedIsWritten(ctx, ops[..|ops| - 1]);
      AllWritten(ctx, ops[..|ops| - 1], ops[|ops| - 1].operands);
    }
  }

  /** In a topologically sorted block no tensor is looked up that no node produced. */
  lemma NoLookupFails(ctx: Context, dims: map<Tensor, Shape>, ops: seq<Op>)
    requires OneYield(ops) && TuplesProjected(ctx) && Topological(ctx, ops) && SingleInputs(ctx)
    ensures Convert(ctx, dims, ops) != Err(NotGenerated)
  {
    SortedIsWritten(ctx, ops);
    YieldedDefined(ctx, ops);
    AllWritten(ctx, ops, Yielded(ops));
    LookupsSucceedIff(ctx, dims, ops);
  }
}
