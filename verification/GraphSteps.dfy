/**
  What the steps of the engine compiler come to: the nodes it starts from, when an operation is
  converted and what it leaves behind, and which nodes become the outputs.
 */
module GraphSteps {
  import opened EngineIR
  import opened Options
  import opened GraphCompiler

  // ---------- what the cache holds ----------

  /** Of the first `k` values, the `i`-th is the last to live in the tensor. */
  predicate LastIn(ctx: Context, vs: seq<Value>, k: nat, i: nat, t: Tensor)
    requires i < k <= |vs|
  {
    LivesIn(ctx, vs[i], t) && forall j :: i < j < k ==> !LivesIn(ctx, vs[j], t)
  }

  /** The tensor's node is that of the last of the values to live in it, the `i`-th being node `base + i`. */
  predicate LastCached(ctx: Context, vs: seq<Value>, k: nat, base: nat, before: map<Tensor, NodeId>,
                       after: map<Tensor, NodeId>, t: Tensor)
    requires k <= |vs|
  {
    && (forall i :: 0 <= i < k && LastIn(ctx, vs, k, i, t) ==> t in after && after[t] == base + i)
    && ((forall i :: 0 <= i < k ==> !LivesIn(ctx, vs[i], t)) ==>
      (t in after <==> t in before) && (t in before ==> after[t] == before[t]))
  }

  lemma CacheNext(ctx: Context, vs: seq<Value>, k: nat, base: nat, before: map<Tensor, NodeId>,
                  mid: map<Tensor, NodeId>, u: Tensor, t: Tensor)
    requires k < |vs| && LastCached(ctx, vs, k, base, before, mid, t) && LivesIn(ctx, vs[k], u)
    ensures LastCached(ctx, vs, k + 1, base, before, mid[u := base + k], t)
  {
    var after, next := mid[u := base + k], k + 1;
    assert LivesIn(ctx, vs[k], t) <==> t == u;
    forall i | 0 <= i < next && LastIn(ctx, vs, next, i, t) ensures t in after && after[t] == base + i {
      if i < k {
        assert !LivesIn(ctx, vs[k], t);
        assert LastIn(ctx, vs, k, i, t);
      }
    }
    if forall i :: 0 <= i < k + 1 ==> !LivesIn(ctx, vs[i], t) {
      assert !LivesIn(ctx, vs[k], t);
      assert forall i :: 0 <= i < k ==> !LivesIn(ctx, vs[i], t);
    }
  }

  // ---------- inputs ----------

  /** One input node for each engine input, with its tensor's shape. */
  lemma {:induction false} InputNodes(ctx: Context, dims: map<Tensor, Shape>, k: nat)
    requires Initialised(ctx) && k <= |ctx.inputs|
    ensures var st := WithInputs(ctx, dims, k);
      && st.inner == [] && |st.graph| == k
      && forall i :: 0 <= i < k ==>
        var t := ctx.tensorsOf[ctx.inputs[i]][0];
        st.graph[i] == Input(i, Plain(if t in dims then dims[t] else []))
  {
    if k > 0 {
      InputNodes(ctx, dims, k - 1);
    }
  }

  lemma {:induction false} InputsCached(ctx: Context, dims: map<Tensor, Shape>, k: nat, t: Tensor)
    requires Initialised(ctx) && k <= |ctx.inputs|
    ensures LastCached(ctx, ctx.inputs, k, 0, map[], WithInputs(ctx, dims, k).cache, t)
  {
    if k > 0 {
      InputsCached(ctx, dims, k - 1, t);
      InputCachedNext(ctx, dims, k - 1, t);
    }
  }

  lemma InputCachedNext(ctx: Context, dims: map<Tensor, Shape>, k: nat, t: Tensor)
    requires Initialised(ctx) && k < |ctx.inputs|
    requires LastCached(ctx, ctx.inputs, k, 0, map[], WithInputs(ctx, dims, k).cache, t)
    ensures LastCached(ctx, ctx.inputs, k + 1, 0, map[], WithInputs(ctx, dims, k + 1).cache, t)
  {
    InputNodes(ctx, dims, k);
    assert HasTensor(ctx, ctx.inputs[k]);
    CacheNext(ctx, ctx.inputs, k, 0, map[], WithInputs(ctx, dims, k).cache, ctx.tensorsOf[ctx.inputs[k]][0], t);
  }

  // ---------- operations ----------

  /** The translator is looked up under the `op_name` attribute if there is one, else the name, without dots. */
  lemma KeyMeans(op: Op)
    requires op.Compute?
    ensures var name := if op.opName.Some? then op.opName.value else op.name;
      TranslateKey(Resolved(op)) == seq(|name|, i requires 0 <= i < |name| => if name[i] == '.' then '_' else name[i])
  {
  }

  /** The nodes are those cached for the operands' tensors, operand by operand. */
  predicate AreOperands(ctx: Context, cache: map<Tensor, NodeId>, vs: seq<Value>, args: seq<seq<NodeId>>) {
    && |args| == |vs|
    && forall k :: 0 <= k < |vs| ==> AreNodes(ctx, cache, vs[k], args[k])
  }

  predicate AreNodes(ctx: Context, cache: map<Tensor, NodeId>, v: Value, nodes: seq<NodeId>) {
    && v in ctx.tensorsOf && v in ctx.namesOf && |nodes| == |ctx.tensorsOf[v]|
    && forall n :: 0 <= n < |nodes| ==> ctx.tensorsOf[v][n] in cache && nodes[n] == cache[ctx.tensorsOf[v][n]]
  }

  lemma {:induction false} CachedNodesMeans(cache: map<Tensor, NodeId>, ts: seq<Tensor>, nodes: seq<NodeId>)
    ensures CachedNodes(cache, ts) == Ok(nodes) <==>
      |nodes| == |ts| && forall n :: 0 <= n < |ts| ==> ts[n] in cache && nodes[n] == cache[ts[n]]
  {
    if ts != [] {
      var k := |ts| - 1;
      if nodes != [] {
        CachedNodesMeans(cache, ts[..k], nodes[..|nodes| - 1]);
        assert nodes == nodes[..|nodes| - 1] + [nodes[|nodes| - 1]];
      }
      if CachedNodes(cache, ts[..k]).Ok? {
        CachedNodesMeans(cache, ts[..k], CachedNodes(cache, ts[..k]).value);
      }
    }
  }

  lemma {:induction false} OperandsMean(ctx: Context, cache: map<Tensor, NodeId>, vs: seq<Value>,
                                        args: seq<seq<NodeId>>)
    ensures OperandNodes(ctx, cache, vs) == Ok(args) <==> AreOperands(ctx, cache, vs, args)
  {
    if vs != [] {
      var k := |vs| - 1;
      if args != [] {
        OperandsMean(ctx, cache, vs[..k], args[..|args| - 1]);
        assert args == args[..|args| - 1] + [args[|args| - 1]];
        if vs[k] in ctx.tensorsOf {
          CachedNodesMeans(cache, ctx.tensorsOf[vs[k]], args[|args| - 1]);
        }
      }
      if OperandNodes(ctx, cache, vs[..k]).Ok? {
        OperandsMean(ctx, cache, vs[..k], OperandNodes(ctx, cache, vs[..k]).value);
      }
    }
  }

  predicate HasOneTensor(ctx: Context, v: Value) {
    v in ctx.tensorsOf && |ctx.tensorsOf[v]| == 1
  }

  /** A yield is accepted when it has a value for every engine output, each with tensors and names, and keeps them. */
  lemma {:induction false} YieldMeans(ctx: Context, st: State, vs: seq<Value>)
    ensures ConvertOp(ctx, st, Yield(vs)).Ok? <==>
      |vs| == |ctx.outputs| && forall k :: 0 <= k < |vs| ==> vs[k] in ctx.tensorsOf && vs[k] in ctx.namesOf
    ensures ConvertOp(ctx, st, Yield(vs)).Ok? ==>
      ConvertOp(ctx, st, Yield(vs)) == Ok(State(st.graph, st.cache, st.inner + vs))
  {
    MappedMeans(ctx, vs);
  }

  lemma {:induction false} MappedMeans(ctx: Context, vs: seq<Value>)
    ensures Mapped(ctx, vs).Ok? <==> forall k :: 0 <= k < |vs| ==> vs[k] in ctx.tensorsOf && vs[k] in ctx.namesOf
  {
    if vs != [] {
      MappedMeans(ctx, vs[..|vs| - 1]);
    }
  }

  /** An operation of any other kind is converted when its translator accepts its operands' nodes. */
  lemma ComputeMeans(ctx: Context, st: State, op: Op, args: seq<seq<NodeId>>)
    requires op.Compute? && AreOperands(ctx, st.cache, op.operands, args)
    ensures var key := TranslateKey(Resolved(op));
      ConvertOp(ctx, st, op).Ok? <==>
        && key in ctx.translators
        && var tr := ctx.translators[key](st.graph, op, args);
        && tr.Some? && tr.value.1 < |tr.value.0|
        && match tr.value.0[tr.value.1].typ
           case TupleOf(shapes) =>
             |shapes| == |op.results| && forall i :: 0 <= i < |op.results| ==> HasOneTensor(ctx, op.results[i])
           case Plain(_) => |op.results| == 1 ==> HasOneTensor(ctx, op.results[0])
    ensures ConvertOp(ctx, st, op).Ok? ==>
      var (g, node) := ctx.translators[TranslateKey(Resolved(op))](st.graph, op, args).value;
      Recorded(ctx, st, g, node, op, ConvertOp(ctx, st, op).value)
  {
    OperandsMean(ctx, st.cache, op.operands, args);
    var key := TranslateKey(Resolved(op));
    if key in ctx.translators {
      var tr := ctx.translators[key](st.graph, op, args);
      if tr.Some? && tr.value.1 < |tr.value.0| && tr.value.0[tr.value.1].typ.TupleOf? {
        var shapes := tr.value.0[tr.value.1].typ.shapes;
        if |shapes| == |op.results| {
          TupleMeans(ctx, st.(graph := tr.value.0), tr.value.1, shapes, op.results, |op.results|);
        }
      }
    }
  }

  /** Without nodes for all its operands it is not. */
  lemma ComputeNeedsOperands(ctx: Context, st: State, op: Op)
    requires op.Compute? && ConvertOp(ctx, st, op).Ok?
    ensures exists args :: AreOperands(ctx, st.cache, op.operands, args)
  {
    var args := OperandNodes(ctx, st.cache, op.operands).value;
    OperandsMean(ctx, st.cache, op.operands, args);
  }

  /** The last of the results that live in a tensor is its node: the operation's, or its projection from a tuple. */
  ghost predicate Recorded(ctx: Context, st: State, g: Graph, node: NodeId, op: Op, after: State)
    requires op.Compute? && node < |g|
  {
    && after.inner == st.inner
    && match g[node].typ
       case Plain(_) =>
         && after.graph == g
         && (|op.results| != 1 ==> after.cache == st.cache)
         && (|op.results| == 1 ==>
           HasOneTensor(ctx, op.results[0]) && after.cache == st.cache[ctx.tensorsOf[op.results[0]][0] := node])
       case TupleOf(shapes) =>
         |shapes| == |op.results|
         && RecordedTuple(ctx, st.cache, g, node, shapes, op.results, |op.results|, after.graph, after.cache)
  }

  ghost predicate RecordedTuple(ctx: Context, before: map<Tensor, NodeId>, g: Graph, node: NodeId, shapes: seq<Shape>,
                                results: seq<Value>, k: nat, graph: Graph, cache: map<Tensor, NodeId>)
    requires k <= |shapes| == |results|
  {
    && |graph| == |g| + k && g <= graph
    && (forall i :: 0 <= i < k ==> graph[|g| + i] == TupleElement(node, i, Plain(shapes[i])))
    && (forall i :: 0 <= i < k ==> HasOneTensor(ctx, results[i]))
    && forall t :: LastCached(ctx, results, k, |g|, before, cache, t)
  }

  lemma {:induction false} TupleMeans(ctx: Context, st: State, node: NodeId, shapes: seq<Shape>, results: seq<Value>,
                                      k: nat)
    requires k <= |shapes| == |results|
    ensures var r := RecordTuple(ctx, st, node, shapes, results, k);
      && (r.Ok? <==> forall i :: 0 <= i < k ==> HasOneTensor(ctx, results[i]))
      && (r.Ok? ==> r.value.inner == st.inner)
      && (r.Ok? ==> RecordedTuple(ctx, st.cache, st.graph, node, shapes, results, k, r.value.graph, r.value.cache))
  {
    if k > 0 {
      TupleMeans(ctx, st, node, shapes, results, k - 1);
      if RecordTuple(ctx, st, node, shapes, results, k).Ok? {
        var mid := RecordTuple(ctx, st, node, shapes, results, k - 1).value;
        TupleNext(ctx, st, node, shapes, results, k - 1, mid);
      }
    }
  }

  lemma TupleNext(ctx: Context, st: State, node: NodeId, shapes: seq<Shape>, results: seq<Value>, k: nat, mid: State)
    requires k < |shapes| == |results| && HasOneTensor(ctx, results[k])
    requires RecordedTuple(ctx, st.cache, st.graph, node, shapes, results, k, mid.graph, mid.cache)
    ensures RecordedTuple(ctx, st.cache, st.graph, node, shapes, results, k + 1,
      mid.graph + [TupleElement(node, k, Plain(shapes[k]))], mid.cache[ctx.tensorsOf[results[k]][0] := |mid.graph|])
  {
    var u := ctx.tensorsOf[results[k]][0];
    var after, next, base := mid.cache[u := |mid.graph|], k + 1, |st.graph|;
    forall t ensures LastCached(ctx, results, next, base, st.cache, after, t) {
      CacheNext(ctx, results, k, |st.graph|, st.cache, mid.cache, u, t);
    }
  }

  // ---------- outputs ----------

  /** Every yielded value must have one tensor that a node produced, and both it and the engine output a name. */
  lemma {:induction false} OutputsMean(ctx: Context, st: State, k: nat)
    requires k <= |st.inner| <= |ctx.outputs|
    ensures OutputNodes(ctx, st, k).Ok? <==> forall i :: 0 <= i < k ==>
      && HasOneTensor(ctx, st.inner[i]) && ctx.tensorsOf[st.inner[i]][0] in st.cache
      && Named(ctx, st.inner[i]) && Named(ctx, ctx.outputs[i])
    ensures OutputNodes(ctx, st, k).Ok? ==> |OutputNodes(ctx, st, k).value| == k && forall i :: 0 <= i < k ==>
      OutputNodes(ctx, st, k).value[i] == st.cache[ctx.tensorsOf[st.inner[i]][0]]
  {
    if k > 0 {
      OutputsMean(ctx, st, k - 1);
    }
  }

  predicate Named(ctx: Context, v: Value) {
    v in ctx.namesOf && ctx.namesOf[v] != []
  }
}
