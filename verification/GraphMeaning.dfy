/** What the converted graph computes. */
module GraphMeaning {
  import opened EngineIR
  import opened GraphCompiler

  // With every operation's translator assumed sound, the graph always computes what the block computes
  // when each value lives in its tensor; that is the SSA meaning of the block as long as no value is
  // read after its tensor has been given to another.

  // ---------- sound translators ----------

  predicate ArgsInGraph(g: Graph, args: seq<seq<NodeId>>) {
    forall i, k :: 0 <= i < |args| && 0 <= k < |args[i]| ==> args[i][k] < |g|
  }

  ghost predicate ArgsPlain<D>(vals: seq<NodeValue<D>>, args: seq<seq<NodeId>>) {
    forall i, k :: 0 <= i < |args| && 0 <= k < |args[i]| ==> args[i][k] < |vals| && vals[args[i][k]].Plainly?
  }

  ghost function NodeData<D>(vals: seq<NodeValue<D>>, nodes: seq<NodeId>): seq<D>
    requires forall k :: 0 <= k < |nodes| ==> nodes[k] < |vals| && vals[nodes[k]].Plainly?
  {
    seq(|nodes|, k requires 0 <= k < |nodes| => vals[nodes[k]].d)
  }

  ghost function ArgData<D>(vals: seq<NodeValue<D>>, args: seq<seq<NodeId>>): seq<seq<D>>
    requires ArgsPlain(vals, args)
  {
    seq(|args|, i requires 0 <= i < |args| => NodeData(vals, args[i]))
  }

  /** A node stands for an operation: a tuple of its results, or its only result. */
  ghost predicate Represents<D>(typ: NodeType, v: NodeValue<D>, results: seq<Value>, ds: seq<D>) {
    && |ds| == |results|
    && match typ
       case TupleOf(_) => v == Tupled(ds)
       case Plain(_) => |ds| <= 1 && (|ds| == 1 ==> v == Plainly(ds[0]))
  }

  ghost predicate SoundAt<D>(sem: Semantics<D>, tr: Translator, g: Graph, op: Op, args: seq<seq<NodeId>>,
                             inputs: seq<D>) {
    WellFormed(g) && op.Compute? && ArgsInGraph(g, args) && tr(g, op, args).Some? ==>
      && Translation(g, tr(g, op, args))
      && var (g', node) := tr(g, op, args).value;
         ArgsPlain(Eval(sem, g, inputs), args) ==>
           Represents(g'[node].typ, Eval(sem, g', inputs)[node], op.results,
                      sem.op(op, ArgData(Eval(sem, g, inputs), args)))
  }

  ghost predicate Sound<D(!new)>(sem: Semantics<D>, ctx: Context) {
    forall key, g, op, args, inputs :: key in ctx.translators ==>
      SoundAt(sem, ctx.translators[key], g, op, args, inputs)
  }

  // ---------- the store interpretation ----------

  function ReadTensors<D>(mem: map<Tensor, D>, ts: seq<Tensor>): seq<D> {
    if ts == [] then []
    else ReadTensors(mem, ts[..|ts| - 1]) + (if ts[|ts| - 1] in mem then [mem[ts[|ts| - 1]]] else [])
  }

  function TensorsOf(ctx: Context, v: Value): seq<Tensor> {
    if v in ctx.tensorsOf then ctx.tensorsOf[v] else []
  }

  function ReadStore<D>(ctx: Context, mem: map<Tensor, D>, vs: seq<Value>): seq<seq<D>> {
    seq(|vs|, k requires 0 <= k < |vs| => ReadTensors(mem, TensorsOf(ctx, vs[k])))
  }

  function FirstTensor(ctx: Context, v: Value): Tensor {
    if TensorsOf(ctx, v) == [] then 0 else TensorsOf(ctx, v)[0]
  }

  function FirstTensors(ctx: Context, vs: seq<Value>): seq<Tensor> {
    seq(|vs|, k requires 0 <= k < |vs| => FirstTensor(ctx, vs[k]))
  }

  ghost function StoreStep<D>(sem: Semantics<D>, ctx: Context, op: Op, mem: map<Tensor, D>): map<Tensor, D> {
    if op.Yield? then mem
    else Define(mem, FirstTensors(ctx, op.results), sem.op(op, ReadStore(ctx, mem, op.operands)))
  }

  /** Every operation reads its operands' tensors and overwrites its results' tensors. */
  ghost function RunStore<D>(sem: Semantics<D>, ctx: Context, ops: seq<Op>, mem: map<Tensor, D>): map<Tensor, D> {
    if ops == [] then mem
    else StoreStep(sem, ctx, ops[|ops| - 1], RunStore(sem, ctx, ops[..|ops| - 1], mem))
  }

  ghost function InputStore<D>(ctx: Context, inputs: seq<D>): map<Tensor, D> {
    Define(map[], FirstTensors(ctx, ctx.inputs), inputs)
  }

  // ---------- the graph computes the store interpretation ----------

  /** The cache holds, for each tensor of the store, a plain node with its contents. */
  ghost predicate Agree<D>(sem: Semantics<D>, st: State, mem: map<Tensor, D>, inputs: seq<D>) {
    && WellFormed(st.graph)
    && st.cache.Keys == mem.Keys
    && forall t :: t in st.cache ==>
      && st.cache[t] < |st.graph| && st.graph[st.cache[t]].typ.Plain?
      && Eval(sem, st.graph, inputs)[st.cache[t]] == Plainly(mem[t])
  }

  lemma AgreeExtend<D>(sem: Semantics<D>, st: State, mem: map<Tensor, D>, inputs: seq<D>, g: Graph)
    requires Agree(sem, st, mem, inputs) && st.graph <= g && WellFormed(g)
    ensures Agree(sem, st.(graph := g), mem, inputs)
  {
    EvalPrefix(sem, st.graph, g, inputs);
  }

  /** Caching a new plain node for a tensor is storing the node's value in it. */
  lemma AgreeAppend<D>(sem: Semantics<D>, st: State, mem: map<Tensor, D>, inputs: seq<D>, node: Node, t: Tensor, d: D)
    requires Agree(sem, st, mem, inputs) && ArgsBefore(node, |st.graph|) && node.typ.Plain?
    requires EvalNode(sem, node, Eval(sem, st.graph, inputs), inputs) == Plainly(d)
    ensures Agree(sem, st.(graph := st.graph + [node], cache := st.cache[t := |st.graph|]), mem[t := d], inputs)
    ensures Eval(sem, st.graph, inputs) <= Eval(sem, st.graph + [node], inputs)
  {
    EvalAppend(sem, st.graph, node, inputs);
  }

  lemma {:induction false} LookupAgrees<D>(sem: Semantics<D>, st: State, mem: map<Tensor, D>, inputs: seq<D>,
                                           ts: seq<Tensor>)
    requires Agree(sem, st, mem, inputs) && CachedNodes(st.cache, ts).Ok?
    ensures var nodes, vals := CachedNodes(st.cache, ts).value, Eval(sem, st.graph, inputs);
      && (forall k :: 0 <= k < |nodes| ==> nodes[k] < |vals| && vals[nodes[k]].Plainly?)
      && NodeData(vals, nodes) == ReadTensors(mem, ts)
  {
    if ts != [] {
      LookupAgrees(sem, st, mem, inputs, ts[..|ts| - 1]);
    }
  }

  lemma {:induction false} OperandsAgree<D>(sem: Semantics<D>, ctx: Context, st: State, mem: map<Tensor, D>,
                                            inputs: seq<D>, vs: seq<Value>)
    requires Agree(sem, st, mem, inputs) && OperandNodes(ctx, st.cache, vs).Ok?
    ensures var args, vals := OperandNodes(ctx, st.cache, vs).value, Eval(sem, st.graph, inputs);
      ArgsPlain(vals, args) && ArgsInGraph(st.graph, args) && ArgData(vals, args) == ReadStore(ctx, mem, vs)
  {
    if vs != [] {
      var k := |vs| - 1;
      OperandsAgree(sem, ctx, st, mem, inputs, vs[..k]);
      LookupAgrees(sem, st, mem, inputs, ctx.tensorsOf[vs[k]]);
      var args := OperandNodes(ctx, st.cache, vs[..k]).value;
      var nodes := CachedNodes(st.cache, ctx.tensorsOf[vs[k]]).value;
      ArgDataAppend(Eval(sem, st.graph, inputs), args, nodes);
      assert ReadStore(ctx, mem, vs) == ReadStore(ctx, mem, vs[..k]) + [ReadTensors(mem, ctx.tensorsOf[vs[k]])];
    }
  }

  lemma ArgDataAppend<D>(vals: seq<NodeValue<D>>, args: seq<seq<NodeId>>, nodes: seq<NodeId>)
    requires ArgsPlain(vals, args)
    requires forall k :: 0 <= k < |nodes| ==> nodes[k] < |vals| && vals[nodes[k]].Plainly?
    ensures ArgsPlain(vals, args + [nodes])
    ensures ArgData(vals, args + [nodes]) == ArgData(vals, args) + [NodeData(vals, nodes)]
  {
  }

  lemma DefineNext<D>(mem: map<Tensor, D>, ts: seq<Tensor>, ds: seq<D>, k: nat)
    requires k < |ts| && k < |ds|
    ensures Define(mem, ts[..k + 1], ds[..k + 1]) == Define(mem, ts[..k], ds[..k])[ts[k] := ds[k]]
  {
    assert ts[..k + 1][..k] == ts[..k] && ds[..k + 1][..k] == ds[..k];
  }

  /** The first `k` results of the tuple are recorded, and the tuple node is unchanged. */
  ghost predicate TupleRecorded<D>(sem: Semantics<D>, ctx: Context, st: State, mem: map<Tensor, D>, inputs: seq<D>,
                                   node: NodeId, results: seq<Value>, all: seq<D>, k: nat, st': State)
    requires WellFormed(st.graph) && k <= |results| == |all|
  {
    && |st.graph| <= |st'.graph|
    && Agree(sem, st', Define(mem, FirstTensors(ctx, results)[..k], all[..k]), inputs)
    && node < |st.graph| && Eval(sem, st'.graph, inputs)[node] == Tupled(all)
  }

  lemma {:induction false} TupleAgrees<D>(sem: Semantics<D>, ctx: Context, st: State, mem: map<Tensor, D>,
                                          inputs: seq<D>,
                                          node: NodeId, shapes: seq<Shape>, results: seq<Value>, all: seq<D>, k: nat)
    requires Agree(sem, st, mem, inputs) && node < |st.graph| && k <= |shapes| == |results| == |all|
    requires Eval(sem, st.graph, inputs)[node] == Tupled(all)
    requires RecordTuple(ctx, st, node, shapes, results, k).Ok?
    ensures TupleRecorded(sem, ctx, st, mem, inputs, node, results, all, k,
      RecordTuple(ctx, st, node, shapes, results, k).value)
  {
    if k > 0 {
      TupleAgrees(sem, ctx, st, mem, inputs, node, shapes, results, all, k - 1);
      var before := RecordTuple(ctx, st, node, shapes, results, k - 1).value;
      TupleNext(sem, ctx, st, mem, inputs, node, shapes[k - 1], results, all, k - 1, before);
    } else {
      assert Define(mem, FirstTensors(ctx, results)[..0], all[..0]) == mem;
    }
  }

  lemma TupleNext<D>(sem: Semantics<D>, ctx: Context, st: State, mem: map<Tensor, D>, inputs: seq<D>,
                     node: NodeId, shape: Shape, results: seq<Value>, all: seq<D>, k: nat, before: State)
    requires WellFormed(st.graph) && k < |results| == |all|
    requires TupleRecorded(sem, ctx, st, mem, inputs, node, results, all, k, before)
    ensures TupleRecorded(sem, ctx, st, mem, inputs, node, results, all, k + 1,
              before.(graph := before.graph + [TupleElement(node, k, Plain(shape))],
                      cache := before.cache[FirstTensor(ctx, results[k]) := |before.graph|]))
  {
    var ts := FirstTensors(ctx, results);
    ProjectionAgrees(sem, before, Define(mem, ts[..k], all[..k]), inputs, node, shape, all, k, ts[k]);
    DefineNext(mem, ts, all, k);
  }

  lemma {:induction false} RecordedTensors(ctx: Context, st: State, node: NodeId, shapes: seq<Shape>,
                                           results: seq<Value>, k: nat)
    requires k <= |shapes| == |results| && RecordTuple(ctx, st, node, shapes, results, k).Ok?
    ensures forall i :: 0 <= i < k ==> ResultTensor(ctx, results[i]).Ok?
  {
    if k > 0 {
      RecordedTensors(ctx, st, node, shapes, results, k - 1);
    }
  }

  lemma ProjectionAgrees<D>(sem: Semantics<D>, st: State, mem: map<Tensor, D>, inputs: seq<D>,
                            node: NodeId, shape: Shape, all: seq<D>, i: nat, t: Tensor)
    requires Agree(sem, st, mem, inputs) && node < |st.graph| && i < |all|
    requires Eval(sem, st.graph, inputs)[node] == Tupled(all)
    ensures var g := st.graph + [TupleElement(node, i, Plain(shape))];
      && Agree(sem, st.(graph := g, cache := st.cache[t := |st.graph|]), mem[t := all[i]], inputs)
      && Eval(sem, g, inputs)[node] == Tupled(all)
  {
    AgreeAppend(sem, st, mem, inputs, TupleElement(node, i, Plain(shape)), t, all[i]);
  }

  lemma RecordAgrees<D>(sem: Semantics<D>, ctx: Context, st: State, mem: map<Tensor, D>, inputs: seq<D>,
                        node: NodeId, op: Op, ds: seq<D>)
    requires Agree(sem, st, mem, inputs) && node < |st.graph| && op.Compute?
    requires Represents(st.graph[node].typ, Eval(sem, st.graph, inputs)[node], op.results, ds)
    requires RecordResults(ctx, st, node, op).Ok?
    ensures Agree(sem, RecordResults(ctx, st, node, op).value, Define(mem, FirstTensors(ctx, op.results), ds), inputs)
    ensures forall k :: 0 <= k < |op.results| ==> ResultTensor(ctx, op.results[k]).Ok?
  {
    match st.graph[node].typ
    case TupleOf(shapes) =>
      var n := |op.results|;
      assert ds[..n] == ds;
      assert FirstTensors(ctx, op.results)[..n] == FirstTensors(ctx, op.results);
      TupleAgrees(sem, ctx, st, mem, inputs, node, shapes, op.results, ds, n);
      RecordedTensors(ctx, st, node, shapes, op.results, n);
    case Plain(_) =>
      if |op.results| == 1 {
        var ts := FirstTensors(ctx, op.results);
        assert ts[..0] == [] && ds[..0] == [];
        assert Define(mem, ts, ds) == Define(mem, [], [])[ts[0] := ds[0]];
      }
  }

  lemma StepAgrees<D(!new)>(sem: Semantics<D>, ctx: Context, st: State, mem: map<Tensor, D>, inputs: seq<D>, op: Op)
    requires Sound(sem, ctx) && Agree(sem, st, mem, inputs) && ConvertOp(ctx, st, op).Ok?
    ensures Agree(sem, ConvertOp(ctx, st, op).value, StoreStep(sem, ctx, op, mem), inputs)
    ensures op.Compute? ==> forall k :: 0 <= k < |op.results| ==> ResultTensor(ctx, op.results[k]).Ok?
  {
    if op.Compute? {
      var key := TranslateKey(Resolved(op));
      var args := OperandNodes(ctx, st.cache, op.operands).value;
      var (g, node) := ctx.translators[key](st.graph, op, args).value;
      OperandsAgree(sem, ctx, st, mem, inputs, op.operands);
      assert SoundAt(sem, ctx.translators[key], st.graph, op, args, inputs);
      AgreeExtend(sem, st, mem, inputs, g);
      RecordAgrees(sem, ctx, st.(graph := g), mem, inputs, node, op, sem.op(op, ReadStore(ctx, mem, op.operands)));
    }
  }

  lemma {:induction false} OpsAgree<D(!new)>(sem: Semantics<D>, ctx: Context, st: State, mem: map<Tensor, D>,
                                             inputs: seq<D>, ops: seq<Op>)
    requires Sound(sem, ctx) && Agree(sem, st, mem, inputs) && ConvertOps(ctx, st, ops).Ok?
    ensures Agree(sem, ConvertOps(ctx, st, ops).value, RunStore(sem, ctx, ops, mem), inputs)
    ensures ResultsHaveTensors(ctx, ops)
  {
    if ops != [] {
      var k := |ops| - 1;
      OpsAgree(sem, ctx, st, mem, inputs, ops[..k]);
      StepAgrees(sem, ctx, ConvertOps(ctx, st, ops[..k]).value, RunStore(sem, ctx, ops[..k], mem), inputs, ops[k]);
    }
  }

  predicate ResultsHaveTensors(ctx: Context, ops: seq<Op>) {
    forall i, k :: 0 <= i < |ops| && ops[i].Compute? && 0 <= k < |ops[i].results| ==>
      ResultTensor(ctx, ops[i].results[k]).Ok?
  }

  lemma InputAgrees<D>(sem: Semantics<D>, ctx: Context, dims: map<Tensor, Shape>, mem: map<Tensor, D>, inputs: seq<D>,
                       k: nat)
    requires Initialised(ctx) && k < |ctx.inputs| == |inputs|
    requires Agree(sem, WithInputs(ctx, dims, k), mem, inputs) && |WithInputs(ctx, dims, k).graph| == k
    ensures Agree(sem, WithInputs(ctx, dims, k + 1), mem[FirstTensor(ctx, ctx.inputs[k]) := inputs[k]], inputs)
    ensures |WithInputs(ctx, dims, k + 1).graph| == k + 1
  {
    var st, t := WithInputs(ctx, dims, k), FirstTensor(ctx, ctx.inputs[k]);
    assert HasTensor(ctx, ctx.inputs[k]);
    AgreeAppend(sem, st, mem, inputs, Input(k, Plain(ShapeOf(dims, t))), t, inputs[k]);
  }

  /** The first `k` inputs are in the store, with a node each. */
  ghost predicate InputsStored<D>(sem: Semantics<D>, ctx: Context, dims: map<Tensor, Shape>, inputs: seq<D>, k: nat)
    requires Initialised(ctx) && k <= |ctx.inputs| == |inputs|
  {
    && Agree(sem, WithInputs(ctx, dims, k), Define(map[], FirstTensors(ctx, ctx.inputs)[..k], inputs[..k]), inputs)
    && |WithInputs(ctx, dims, k).graph| == k
  }

  lemma {:induction false} InputsAgree<D>(sem: Semantics<D>, ctx: Context, dims: map<Tensor, Shape>, inputs: seq<D>,
                                          k: nat)
    requires Initialised(ctx) && k <= |ctx.inputs| == |inputs|
    ensures InputsStored(sem, ctx, dims, inputs, k)
  {
    if k == 0 {
      NoInputs(sem, ctx, dims, inputs);
    } else {
      InputsAgree(sem, ctx, dims, inputs, k - 1);
      InputsNext(sem, ctx, dims, inputs, k - 1);
    }
  }

  lemma NoInputs<D>(sem: Semantics<D>, ctx: Context, dims: map<Tensor, Shape>, inputs: seq<D>)
    requires Initialised(ctx) && |ctx.inputs| == |inputs|
    ensures InputsStored(sem, ctx, dims, inputs, 0)
  {
    assert WithInputs(ctx, dims, 0) == State([], map[], []);
    assert FirstTensors(ctx, ctx.inputs)[..0] == [] && inputs[..0] == [];
  }

  lemma InputsNext<D>(sem: Semantics<D>, ctx: Context, dims: map<Tensor, Shape>, inputs: seq<D>, k: nat)
    requires Initialised(ctx) && k < |ctx.inputs| == |inputs| && InputsStored(sem, ctx, dims, inputs, k)
    ensures InputsStored(sem, ctx, dims, inputs, k + 1)
  {
    var ts := FirstTensors(ctx, ctx.inputs);
    InputAgrees(sem, ctx, dims, Define(map[], ts[..k], inputs[..k]), inputs, k);
    DefineNext(map[], ts, inputs, k);
  }

  /** A converted graph's outputs are the contents of the yielded values' tensors, in yield order. */
  lemma GraphComputesStore<D(!new)>(sem: Semantics<D>, ctx: Context, dims: map<Tensor, Shape>, ops: seq<Op>,
                                    inputs: seq<D>)
    requires OneYield(ops) && Sound(sem, ctx) && |inputs| == |ctx.inputs| && Convert(ctx, dims, ops).Ok?
    ensures var p, mem := Convert(ctx, dims, ops).value, RunStore(sem, ctx, ops, InputStore(ctx, inputs));
      && WellFormed(p.state.graph) && |p.outputs| == |Yielded(ops)|
      && ResultsHaveTensors(ctx, ops)
      && forall k :: 0 <= k < |p.outputs| ==>
        && p.outputs[k] < |p.state.graph| && FirstTensor(ctx, Yielded(ops)[k]) in mem
        && Eval(sem, p.state.graph, inputs)[p.outputs[k]] == Plainly(mem[FirstTensor(ctx, Yielded(ops)[k])])
  {
    ConvertedState(sem, ctx, dims, ops, inputs);
    var p := Convert(ctx, dims, ops).value;
    var mem := RunStore(sem, ctx, ops, InputStore(ctx, inputs));
    forall k | 0 <= k < |p.outputs|
      ensures p.outputs[k] < |p.state.graph| && FirstTensor(ctx, Yielded(ops)[k]) in mem
      ensures Eval(sem, p.state.graph, inputs)[p.outputs[k]] == Plainly(mem[FirstTensor(ctx, Yielded(ops)[k])])
    {
      assert OutputNode(ctx, p.state, k) == Ok(p.outputs[k]);
    }
  }

  lemma ConvertedState<D(!new)>(sem: Semantics<D>, ctx: Context, dims: map<Tensor, Shape>, ops: seq<Op>, inputs: seq<D>)
    requires OneYield(ops) && Sound(sem, ctx) && |inputs| == |ctx.inputs| && Convert(ctx, dims, ops).Ok?
    ensures var p := Convert(ctx, dims, ops).value;
      && Agree(sem, p.state, RunStore(sem, ctx, ops, InputStore(ctx, inputs)), inputs)
      && p.state.inner == Yielded(ops) && |p.outputs| == |Yielded(ops)| <= |ctx.outputs|
      && OutputNodes(ctx, p.state, |Yielded(ops)|) == Ok(p.outputs)
      && ResultsHaveTensors(ctx, ops)
  {
    var st0 := WithInputs(ctx, dims, |ctx.inputs|);
    InputsAgree(sem, ctx, dims, inputs, |inputs|);
    assert FirstTensors(ctx, ctx.inputs)[..|inputs|] == FirstTensors(ctx, ctx.inputs) && inputs[..|inputs|] == inputs;
    OpsAgree(sem, ctx, st0, InputStore(ctx, inputs), inputs, ops);
    NoInnerYet(ctx, dims, |ctx.inputs|);
    InnerCount(ctx, st0, ops);
  }
}
