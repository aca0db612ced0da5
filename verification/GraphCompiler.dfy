/**
  The GCU engine compiler: converts a block of operations, operation by operation, into a builder
  graph, remembering in a cache which node last produced each tensor.
 */
module GraphCompiler {
  import opened EngineIR
  import opened Options

  datatype Error =
    | MissingValue      // a value has no tensors
    | MissingName       // a value has no variable name
    | NotGenerated      // a tensor that no node produced
    | NoTranslator
    | TranslatorFailed
    | WrongOutputCount
    | NotOneTensor

  datatype Result<+T> = Ok(value: T) | Err(error: Error)

  /** A translator extends the builder's graph and returns the node of its operation. */
  type Translator = (Graph, Op, seq<seq<NodeId>>) -> Option<(Graph, NodeId)>

  datatype Context = Context(
    tensorsOf: map<Value, seq<Tensor>>,
    namesOf: map<Value, seq<string>>,
    inputs: seq<Value>,
    outputs: seq<Value>,
    translators: map<string, Translator>)

  datatype State = State(graph: Graph, cache: map<Tensor, NodeId>, inner: seq<Value>)

  function Resolved(op: Op): string
    requires op.Compute?
  {
    if op.opName.Some? then op.opName.value else op.name
  }

  /** Translators are registered under the name with its dots replaced. */
  function TranslateKey(name: string): string {
    seq(|name|, i requires 0 <= i < |name| => if name[i] == '.' then '_' else name[i])
  }

  // ---------- what each step does ----------

  predicate HasTensor(ctx: Context, v: Value) {
    v in ctx.tensorsOf && ctx.tensorsOf[v] != []
  }

  predicate Initialised(ctx: Context) {
    && (forall i :: 0 <= i < |ctx.inputs| ==> HasTensor(ctx, ctx.inputs[i]))
    && (forall i :: 0 <= i < |ctx.outputs| ==> HasTensor(ctx, ctx.outputs[i]))
  }

  function ShapeOf(dims: map<Tensor, Shape>, t: Tensor): Shape {
    if t in dims then dims[t] else []
  }

  function WithInputs(ctx: Context, dims: map<Tensor, Shape>, k: nat): State
    requires k <= |ctx.inputs| && Initialised(ctx)
  {
    if k == 0 then State([], map[], [])
    else
      var st := WithInputs(ctx, dims, k - 1);
      var t := ctx.tensorsOf[ctx.inputs[k - 1]][0];
      st.(graph := st.graph + [Input(k - 1, Plain(ShapeOf(dims, t)))], cache := st.cache[t := |st.graph|])
  }

  function CachedNodes(cache: map<Tensor, NodeId>, ts: seq<Tensor>): Result<seq<NodeId>> {
    if ts == [] then Ok([])
    else match CachedNodes(cache, ts[..|ts| - 1])
      case Err(e) => Err(e)
      case Ok(nodes) =>
        var t := ts[|ts| - 1];
        if t in cache then Ok(nodes + [cache[t]]) else Err(NotGenerated)
  }

  function OperandNodes(ctx: Context, cache: map<Tensor, NodeId>, vs: seq<Value>): (r: Result<seq<seq<NodeId>>>) {
    if vs == [] then Ok([])
    else match OperandNodes(ctx, cache, vs[..|vs| - 1])
      case Err(e) => Err(e)
      case Ok(args) =>
        var v := vs[|vs| - 1];
        if v !in ctx.tensorsOf then Err(MissingValue)
        else if v !in ctx.namesOf then Err(MissingName)
        else match CachedNodes(cache, ctx.tensorsOf[v])
          case Err(e) => Err(e)
          case Ok(nodes) => Ok(args + [nodes])
  }

  /** The one tensor behind a result. */
  function ResultTensor(ctx: Context, v: Value): Result<Tensor> {
    if v !in ctx.tensorsOf then Err(MissingValue)
    else if |ctx.tensorsOf[v]| != 1 then Err(NotOneTensor)
    else Ok(ctx.tensorsOf[v][0])
  }

  /** Projects the first `k` results of a tuple node. */
  function RecordTuple(ctx: Context, st: State, node: NodeId, shapes: seq<Shape>, results: seq<Value>,
                       k: nat): Result<State>
    requires k <= |shapes| == |results|
  {
    if k == 0 then Ok(st)
    else match RecordTuple(ctx, st, node, shapes, results, k - 1)
      case Err(e) => Err(e)
      case Ok(st') =>
        match ResultTensor(ctx, results[k - 1])
        case Err(e) => Err(e)
        case Ok(t) => Ok(st'.(
          graph := st'.graph + [TupleElement(node, k - 1, Plain(shapes[k - 1]))],
          cache := st'.cache[t := |st'.graph|]))
  }

  function RecordResults(ctx: Context, st: State, node: NodeId, op: Op): Result<State>
    requires op.Compute? && node < |st.graph|
  {
    match st.graph[node].typ
    case TupleOf(shapes) =>
      if |shapes| != |op.results| then Err(WrongOutputCount)
      else RecordTuple(ctx, st, node, shapes, op.results, |op.results|)
    case Plain(_) =>
      if |op.results| == 1 then
        match ResultTensor(ctx, op.results[0])
        case Err(e) => Err(e)
        case Ok(t) => Ok(st.(cache := st.cache[t := node]))
      else Ok(st)
  }

  function MapInner(ctx: Context, st: State, operands: seq<Value>): Result<State> {
    if |operands| != |ctx.outputs| then Err(WrongOutputCount)
    else match Mapped(ctx, operands)
      case Err(e) => Err(e)
      case Ok(_) => Ok(st.(inner := st.inner + operands))
  }

  function Mapped(ctx: Context, vs: seq<Value>): Result<()> {
    if vs == [] then Ok(())
    else match Mapped(ctx, vs[..|vs| - 1])
      case Err(e) => Err(e)
      case Ok(_) =>
        if vs[|vs| - 1] !in ctx.tensorsOf then Err(MissingValue)
        else if vs[|vs| - 1] !in ctx.namesOf then Err(MissingName)
        else Ok(())
  }

  /** A translator's graph must extend the builder's; a node it returns must be in it. */
  predicate Translation(g: Graph, r: Option<(Graph, NodeId)>) {
    r.Some? ==> g <= r.value.0 && WellFormed(r.value.0) && r.value.1 < |r.value.0|
  }

  function ConvertOp(ctx: Context, st: State, op: Op): Result<State> {
    match op
    case Yield(operands) => MapInner(ctx, st, operands)
    case Compute(_, _, _, operands, _) =>
      var key := TranslateKey(Resolved(op));
      if key !in ctx.translators then Err(NoTranslator)
      else match OperandNodes(ctx, st.cache, operands)
        case Err(e) => Err(e)
        case Ok(args) =>
          match ctx.translators[key](st.graph, op, args)
          case None => Err(TranslatorFailed)
          case Some((g, node)) =>
            if node < |g| then RecordResults(ctx, st.(graph := g), node, op) else Err(TranslatorFailed)
  }

  function ConvertOps(ctx: Context, st: State, ops: seq<Op>): Result<State> {
    if ops == [] then Ok(st)
    else match ConvertOps(ctx, st, ops[..|ops| - 1])
      case Err(e) => Err(e)
      case Ok(st') => ConvertOp(ctx, st', ops[|ops| - 1])
  }

  /** The node of the `k`-th graph output. */
  function OutputNode(ctx: Context, st: State, k: nat): Result<NodeId>
    requires k < |st.inner| <= |ctx.outputs|
  {
    var v := st.inner[k];
    match ResultTensor(ctx, v)
    case Err(e) => Err(e)
    case Ok(t) =>
      if v !in ctx.namesOf || ctx.namesOf[v] == [] then Err(MissingName)
      else if ctx.outputs[k] !in ctx.namesOf || ctx.namesOf[ctx.outputs[k]] == [] then Err(MissingName)
      else if t in st.cache then Ok(st.cache[t]) else Err(NotGenerated)
  }

  function OutputNodes(ctx: Context, st: State, k: nat): (r: Result<seq<NodeId>>)
    requires k <= |st.inner| <= |ctx.outputs|
    ensures r.Ok? ==> |r.value| == k && forall i :: 0 <= i < k ==> OutputNode(ctx, st, i) == Ok(r.value[i])
  {
    if k == 0 then Ok([])
    else match OutputNodes(ctx, st, k - 1)
      case Err(e) => Err(e)
      case Ok(nodes) =>
        match OutputNode(ctx, st, k - 1)
        case Err(e) => Err(e)
        case Ok(n) => Ok(nodes + [n])
  }

  /** Output tensors take the shapes of their nodes. */
  function Resized(ctx: Context, st: State, dims: map<Tensor, Shape>, nodes: seq<NodeId>): map<Tensor, Shape>
    requires |nodes| <= |st.inner| <= |ctx.outputs| && Initialised(ctx)
    requires forall k :: 0 <= k < |nodes| ==> OutputNode(ctx, st, k) == Ok(nodes[k])
  {
    if nodes == [] then dims
    else
      var k := |nodes| - 1;
      var shape := NodeShape(st.graph, nodes[k]);
      assert OutputNode(ctx, st, k) == Ok(nodes[k]);
      Resized(ctx, st, dims, nodes[..k])
        [ctx.tensorsOf[st.inner[k]][0] := shape][ctx.tensorsOf[ctx.outputs[k]][0] := shape]
  }

  function NodeShape(g: Graph, n: NodeId): Shape {
    if n < |g| && g[n].typ.Plain? then g[n].typ.shape else []
  }

  /** The value's first tensor is `t`. */
  predicate LivesIn(ctx: Context, v: Value, t: Tensor) {
    v in ctx.tensorsOf && ctx.tensorsOf[v] != [] && ctx.tensorsOf[v][0] == t
  }

  /** Output `k` sets the shape of its value's tensor and of the engine output's. */
  predicate Sets(ctx: Context, inner: seq<Value>, k: nat, t: Tensor)
    requires k < |inner| <= |ctx.outputs|
  {
    LivesIn(ctx, inner[k], t) || LivesIn(ctx, ctx.outputs[k], t)
  }

  /** A tensor ends with the shape of the node of the last output that sets it, and with its own if none does. */
  predicate LastShape(ctx: Context, st: State, before: map<Tensor, Shape>, nodes: seq<NodeId>,
                      after: map<Tensor, Shape>, t: Tensor)
    requires |nodes| <= |st.inner| <= |ctx.outputs|
  {
    && (forall k :: 0 <= k < |nodes| && LastToSet(ctx, st.inner, k, |nodes|, t) ==>
      t in after
        && (nodes[k] < |st.graph| && st.graph[nodes[k]].typ.Plain? ==> after[t] == st.graph[nodes[k]].typ.shape))
    && ((forall k :: 0 <= k < |nodes| ==> !Sets(ctx, st.inner, k, t)) ==>
      (t in after <==> t in before) && (t in before ==> after[t] == before[t]))
  }

  predicate LastToSet(ctx: Context, inner: seq<Value>, k: nat, n: nat, t: Tensor)
    requires k < n <= |inner| <= |ctx.outputs|
  {
    Sets(ctx, inner, k, t) && forall j :: k < j < n ==> !Sets(ctx, inner, j, t)
  }

  lemma {:induction false} ResizedMeans(ctx: Context, st: State, dims: map<Tensor, Shape>, nodes: seq<NodeId>,
                                        t: Tensor)
    requires |nodes| <= |st.inner| <= |ctx.outputs| && Initialised(ctx)
    requires forall k :: 0 <= k < |nodes| ==> OutputNode(ctx, st, k) == Ok(nodes[k])
    ensures LastShape(ctx, st, dims, nodes, Resized(ctx, st, dims, nodes), t)
  {
    if nodes != [] {
      var k := |nodes| - 1;
      ResizedMeans(ctx, st, dims, nodes[..k], t);
      assert OutputNode(ctx, st, k) == Ok(nodes[k]);
      assert HasTensor(ctx, ctx.outputs[k]);
      assert Sets(ctx, st.inner, k, t)
        <==> t == ctx.tensorsOf[st.inner[k]][0] || t == ctx.tensorsOf[ctx.outputs[k]][0];
      assert forall j :: 0 <= j < k ==> nodes[..k][j] == nodes[j];
    }
  }

  predicate OneYield(ops: seq<Op>) {
    forall i, j :: 0 <= i < j < |ops| ==> !(ops[i].Yield? && ops[j].Yield?)
  }

  datatype Program = Program(state: State, outputs: seq<NodeId>)

  function Convert(ctx: Context, dims: map<Tensor, Shape>, ops: seq<Op>): Result<Program>
    requires OneYield(ops)
  {
    if !Initialised(ctx) then Err(MissingValue)
    else match ConvertOps(ctx, WithInputs(ctx, dims, |ctx.inputs|), ops)
      case Err(e) => Err(e)
      case Ok(st) =>
        InnerCount(ctx, WithInputs(ctx, dims, |ctx.inputs|), ops);
        NoInnerYet(ctx, dims, |ctx.inputs|);
        match OutputNodes(ctx, st, |st.inner|)
        case Err(e) => Err(e)
        case Ok(nodes) => Ok(Program(st, nodes))
  }

  lemma {:induction false} NoInnerYet(ctx: Context, dims: map<Tensor, Shape>, k: nat)
    requires k <= |ctx.inputs| && Initialised(ctx)
    ensures WithInputs(ctx, dims, k).inner == []
  {
    if k > 0 { NoInnerYet(ctx, dims, k - 1); }
  }

  lemma {:induction false} RecordKeepsInner(ctx: Context, st: State, node: NodeId, shapes: seq<Shape>,
                                            results: seq<Value>, k: nat)
    requires k <= |shapes| == |results|
    ensures RecordTuple(ctx, st, node, shapes, results, k).Ok? ==>
      RecordTuple(ctx, st, node, shapes, results, k).value.inner == st.inner
  {
    if k > 0 {
      RecordKeepsInner(ctx, st, node, shapes, results, k - 1);
    }
  }

  lemma ConvertOpInner(ctx: Context, st: State, op: Op)
    requires ConvertOp(ctx, st, op).Ok?
    ensures ConvertOp(ctx, st, op).value.inner == st.inner + (if op.Yield? then op.operands else [])
  {
    if op.Compute? {
      var args := OperandNodes(ctx, st.cache, op.operands).value;
      var (g, node) := ctx.translators[TranslateKey(Resolved(op))](st.graph, op, args).value;
      if g[node].typ.TupleOf? && |g[node].typ.shapes| == |op.results| {
        RecordKeepsInner(ctx, st.(graph := g), node, g[node].typ.shapes, op.results, |op.results|);
      }
    }
  }

  /** The yielded values accumulate in order; with one yield there is one for each engine output. */
  lemma InnerCount(ctx: Context, st: State, ops: seq<Op>)
    requires ConvertOps(ctx, st, ops).Ok?
    ensures ConvertOps(ctx, st, ops).value.inner == st.inner + Yielded(ops)
    ensures OneYield(ops) && st.inner == [] ==> |ConvertOps(ctx, st, ops).value.inner| <= |ctx.outputs|
  {
    InnerIsYielded(ctx, st, ops);
    if OneYield(ops) { YieldedCount(ctx, st, ops); }
  }

  lemma {:induction false} InnerIsYielded(ctx: Context, st: State, ops: seq<Op>)
    requires ConvertOps(ctx, st, ops).Ok?
    ensures ConvertOps(ctx, st, ops).value.inner == st.inner + Yielded(ops)
  {
    if ops != [] {
      var k := |ops| - 1;
      InnerIsYielded(ctx, st, ops[..k]);
      ConvertOpInner(ctx, ConvertOps(ctx, st, ops[..k]).value, ops[k]);
    }
  }

  lemma {:induction false} YieldedCount(ctx: Context, st: State, ops: seq<Op>)
    requires ConvertOps(ctx, st, ops).Ok? && OneYield(ops)
    ensures |Yielded(ops)| <= |ctx.outputs|
  {
    if ops != [] {
      var k := |ops| - 1;
      if ops[k].Yield? {
        NothingYielded(ops[..k]);
      } else {
        YieldedCount(ctx, st, ops[..k]);
      }
    }
  }

  lemma {:induction false} NothingYielded(ops: seq<Op>)
    ensures (forall i :: 0 <= i < |ops| ==> !ops[i].Yield?) ==> Yielded(ops) == []
  {
    if ops != [] {
      NothingYielded(ops[..|ops| - 1]);
    }
  }

  // ---------- the compiler object ----------

  class Compiler {
    const ctx: Context
    const ops: seq<Op>
    const startDims: map<Tensor, Shape>

    var cache: map<Tensor, NodeId>
    var graph: Graph
    var inner: seq<Value>
    var dims: map<Tensor, Shape>
    var graphOutputs: seq<NodeId>

    constructor (ctx: Context, ops: seq<Op>, dims: map<Tensor, Shape>)
      ensures this.ctx == ctx && this.ops == ops && this.startDims == dims
      ensures Snapshot() == State([], map[], []) && this.dims == dims
    {
      this.ctx, this.ops, this.startDims := ctx, ops, dims;
      cache, graph, inner, graphOutputs := map[], [], [], [];
      this.dims := dims;
    }

    function Snapshot(): State
      reads this
    {
      State(graph, cache, inner)
    }

    /** `Init`: every engine input and output has a tensor. */
    method Init() returns (ok: bool)
      ensures ok <==> Initialised(ctx)
      ensures ok <==>
        && (forall v :: v in ctx.inputs ==> v in ctx.tensorsOf && |ctx.tensorsOf[v]| > 0)
        && (forall v :: v in ctx.outputs ==> v in ctx.tensorsOf && |ctx.tensorsOf[v]| > 0)
    {
      for i := 0 to |ctx.inputs|
        invariant forall k :: 0 <= k < i ==> HasTensor(ctx, ctx.inputs[k])
      {
        if !HasTensor(ctx, ctx.inputs[i]) { return false; }
      }
      for i := 0 to |ctx.outputs|
        invariant forall k :: 0 <= k < i ==> HasTensor(ctx, ctx.outputs[k])
      {
        if !HasTensor(ctx, ctx.outputs[i]) { return false; }
      }
      return true;
    }

    method CreateInputs()
      requires Initialised(ctx) && Snapshot() == State([], map[], []) && dims == startDims
      modifies this
      ensures Snapshot() == WithInputs(ctx, dims, |ctx.inputs|) && dims == startDims
    {
      for i := 0 to |ctx.inputs|
        invariant Snapshot() == WithInputs(ctx, dims, i) && dims == startDims
      {
        var tensor := ctx.tensorsOf[ctx.inputs[i]][0];
        cache := cache[tensor := |graph|];
        graph := graph + [Input(i, Plain(ShapeOf(dims, tensor)))];
      }
    }

    method MapInnerOutputValues(operands: seq<Value>) returns (error: Option<Error>)
      modifies this
      ensures dims == old(dims)
      ensures error == None ==> MapInner(ctx, old(Snapshot()), operands) == Ok(Snapshot())
      ensures error.Some? ==> MapInner(ctx, old(Snapshot()), operands) == Err(error.value)
    {
      if |operands| != |ctx.outputs| { return Some(WrongOutputCount); }
      assert operands[..|operands|] == operands;
      for i := 0 to |operands|
        invariant Mapped(ctx, operands[..i]) == Ok(())
        invariant dims == old(dims)
        invariant Snapshot() == old(Snapshot()).(inner := old(inner) + operands[..i])
      {
        assert operands[..i + 1][..i] == operands[..i];
        if operands[i] !in ctx.tensorsOf || operands[i] !in ctx.namesOf {
          StopsMapping(ctx, operands, i + 1);
          return Some(if operands[i] !in ctx.tensorsOf then MissingValue else MissingName);
        }
        inner := inner + [operands[i]];
      }
      return None;
    }

    /** The nodes of every tensor of every operand. */
    method GatherOperands(operands: seq<Value>) returns (r: Result<seq<seq<NodeId>>>)
      ensures r == OperandNodes(ctx, cache, operands)
    {
      var inputGcuOps := [];
      assert operands[..|operands|] == operands;
      for i := 0 to |operands|
        invariant OperandNodes(ctx, cache, operands[..i]) == Ok(inputGcuOps)
      {
        var v := operands[i];
        assert operands[..i + 1][..i] == operands[..i];
        StopsGathering(ctx, cache, operands, i + 1);
        if v !in ctx.tensorsOf { return Err(MissingValue); }
        if v !in ctx.namesOf { return Err(MissingName); }
        var tensors, gcuOps := ctx.tensorsOf[v], [];
        assert tensors[..|tensors|] == tensors;
        for n := 0 to |tensors|
          invariant CachedNodes(cache, tensors[..n]) == Ok(gcuOps)
        {
          assert tensors[..n + 1][..n] == tensors[..n];
          StopsLookingUp(cache, tensors, n + 1);
          if tensors[n] !in cache { return Err(NotGenerated); }
          gcuOps := gcuOps + [cache[tensors[n]]];
        }
        inputGcuOps := inputGcuOps + [gcuOps];
      }
      r := Ok(inputGcuOps);
    }

    /** The tuple path: one projection node for each result. */
    method RecordTupleResults(node: NodeId, shapes: seq<Shape>, results: seq<Value>) returns (error: Option<Error>)
      requires |shapes| == |results|
      modifies this
      ensures dims == old(dims)
      ensures error == None ==> RecordTuple(ctx, old(Snapshot()), node, shapes, results, |results|) == Ok(Snapshot())
      ensures error.Some? ==> RecordTuple(ctx, old(Snapshot()), node, shapes, results, |results|) == Err(error.value)
    {
      ghost var st := Snapshot();
      for i := 0 to |results|
        invariant RecordTuple(ctx, st, node, shapes, results, i) == Ok(Snapshot())
        invariant dims == old(dims)
      {
        StopsRecording(ctx, st, node, shapes, results, i + 1);
        match ResultTensor(ctx, results[i])
        case Err(e) => return Some(e);
        case Ok(tensor) =>
          cache := cache[tensor := |graph|];
          graph := graph + [TupleElement(node, i, Plain(shapes[i]))];
      }
      return None;
    }

    /** The body of the conversion loop. */
    method Step(op: Op) returns (error: Option<Error>)
      modifies this
      ensures dims == old(dims)
      ensures error == None ==> ConvertOp(ctx, old(Snapshot()), op) == Ok(Snapshot())
      ensures error.Some? ==> ConvertOp(ctx, old(Snapshot()), op) == Err(error.value)
    {
      if op.Yield? {
        error := MapInnerOutputValues(op.operands);
        return;
      }
      var key := TranslateKey(Resolved(op));
      if key !in ctx.translators { return Some(NoTranslator); }
      var args := GatherOperands(op.operands);
      if args.Err? { return Some(args.error); }
      var translated := ctx.translators[key](graph, op, args.value);
      if translated.None? || translated.value.1 >= |translated.value.0| { return Some(TranslatorFailed); }
      var node := translated.value.1;
      graph := translated.value.0;
      match graph[node].typ
      case TupleOf(shapes) =>
        if |shapes| != |op.results| { return Some(WrongOutputCount); }
        error := RecordTupleResults(node, shapes, op.results);
      case Plain(_) =>
        if |op.results| == 1 {
          match ResultTensor(ctx, op.results[0])
          case Err(e) => return Some(e);
          case Ok(tensor) => cache := cache[tensor := node];
        }
        return None;
    }

    method SetGraphOutputs() returns (error: Option<Error>)
      requires Initialised(ctx) && |inner| <= |ctx.outputs| && dims == startDims
      modifies this
      ensures Snapshot() == old(Snapshot())
      ensures error == None ==>
        && OutputNodes(ctx, Snapshot(), |inner|) == Ok(graphOutputs)
        && dims == Resized(ctx, Snapshot(), startDims, graphOutputs)
      ensures error.Some? ==> OutputNodes(ctx, Snapshot(), |inner|) == Err(error.value)
    {
      var outputs: seq<NodeId> := [];
      ghost var st := Snapshot();
      for i := 0 to |inner|
        invariant Snapshot() == st
        invariant OutputNodes(ctx, st, i) == Ok(outputs)
        invariant dims == Resized(ctx, st, startDims, outputs)
      {
        StopsSetting(ctx, st, i + 1);
        match OutputNode(ctx, Snapshot(), i)
        case Err(e) => return Some(e);
        case Ok(node) =>
          assert (outputs + [node])[..i] == outputs;
          outputs := outputs + [node];
          var shape := NodeShape(graph, node);
          dims := dims[ctx.tensorsOf[inner[i]][0] := shape];
          dims := dims[ctx.tensorsOf[ctx.outputs[i]][0] := shape];
      }
      graphOutputs := outputs;
      return None;
    }

    /** `Init` and `ConvertGraph`. */
    method ConvertGraph() returns (r: Result<Program>)
      requires OneYield(ops) && Snapshot() == State([], map[], []) && dims == startDims
      modifies this
      ensures r == Convert(ctx, startDims, ops)
      ensures r.Ok? ==> r.value == Program(Snapshot(), graphOutputs)
      ensures r.Ok? ==> Initialised(ctx) && |inner| <= |ctx.outputs|
      ensures r.Ok? ==> OutputNodes(ctx, Snapshot(), |inner|) == Ok(graphOutputs)
      ensures r.Ok? ==> dims == Resized(ctx, Snapshot(), startDims, graphOutputs)
      ensures r.Ok? ==>
        |graphOutputs| == |inner| && forall t :: LastShape(ctx, Snapshot(), startDims, graphOutputs, dims, t)
    {
      var ok := Init();
      if !ok { return Err(MissingValue); }
      CreateInputs();
      ghost var st := Snapshot();
      assert ops[..|ops|] == ops;
      for i := 0 to |ops|
        invariant dims == startDims
        invariant ConvertOps(ctx, st, ops[..i]) == Ok(Snapshot())
      {
        assert ops[..i + 1][..i] == ops[..i];
        StopsConverting(ctx, st, ops, i + 1);
        var error := Step(ops[i]);
        if error.Some? { return Err(error.value); }
      }
      NoInnerYet(ctx, dims, |ctx.inputs|);
      InnerCount(ctx, st, ops);
      var error := SetGraphOutputs();
      if error.Some? { return Err(error.value); }
      forall t ensures LastShape(ctx, Snapshot(), startDims, graphOutputs, dims, t) {
        ResizedMeans(ctx, Snapshot(), startDims, graphOutputs, t);
      }
      return Ok(Program(Snapshot(), graphOutputs));
    }
  }

  // ---------- an error ends each loop ----------

  lemma {:induction false} StopsMapping(ctx: Context, vs: seq<Value>, k: nat)
    requires k <= |vs| && Mapped(ctx, vs[..k]).Err?
    ensures Mapped(ctx, vs) == Mapped(ctx, vs[..k])
    decreases |vs|
  {
    if k < |vs| {
      assert vs[..|vs| - 1][..k] == vs[..k];
      StopsMapping(ctx, vs[..|vs| - 1], k);
    } else {
      assert vs[..k] == vs;
    }
  }

  lemma {:induction false} StopsGathering(ctx: Context, cache: map<Tensor, NodeId>, vs: seq<Value>, k: nat)
    requires k <= |vs|
    ensures OperandNodes(ctx, cache, vs[..k]).Err? ==>
      OperandNodes(ctx, cache, vs) == OperandNodes(ctx, cache, vs[..k])
    decreases |vs|
  {
    if k < |vs| {
      assert vs[..|vs| - 1][..k] == vs[..k];
      StopsGathering(ctx, cache, vs[..|vs| - 1], k);
    } else {
      assert vs[..k] == vs;
    }
  }

  lemma {:induction false} StopsLookingUp(cache: map<Tensor, NodeId>, ts: seq<Tensor>, k: nat)
    requires k <= |ts|
    ensures CachedNodes(cache, ts[..k]).Err? ==> CachedNodes(cache, ts) == CachedNodes(cache, ts[..k])
    decreases |ts|
  {
    if k < |ts| {
      assert ts[..|ts| - 1][..k] == ts[..k];
      StopsLookingUp(cache, ts[..|ts| - 1], k);
    } else {
      assert ts[..k] == ts;
    }
  }

  lemma {:induction false} StopsRecording(ctx: Context, st: State, node: NodeId, shapes: seq<Shape>,
                                          results: seq<Value>, k: nat)
    requires k <= |results| == |shapes|
    ensures RecordTuple(ctx, st, node, shapes, results, k).Err? ==>
      RecordTuple(ctx, st, node, shapes, results, |results|) == RecordTuple(ctx, st, node, shapes, results, k)
    decreases |results| - k
  {
    if k < |results| {
      StopsRecording(ctx, st, node, shapes, results, k + 1);
    }
  }

  lemma {:induction false} StopsConverting(ctx: Context, st: State, ops: seq<Op>, k: nat)
    requires k <= |ops|
    ensures ConvertOps(ctx, st, ops[..k]).Err? ==> ConvertOps(ctx, st, ops) == ConvertOps(ctx, st, ops[..k])
    decreases |ops|
  {
    if k < |ops| {
      assert ops[..|ops| - 1][..k] == ops[..k];
      StopsConverting(ctx, st, ops[..|ops| - 1], k);
    } else {
      assert ops[..k] == ops;
    }
  }

  lemma {:induction false} StopsSetting(ctx: Context, st: State, k: nat)
    requires k <= |st.inner| <= |ctx.outputs|
    ensures OutputNodes(ctx, st, k).Err? ==> OutputNodes(ctx, st, |st.inner|) == OutputNodes(ctx, st, k)
    decreases |st.inner| - k
  {
    if k < |st.inner| {
      StopsSetting(ctx, st, k + 1);
    }
  }
}
