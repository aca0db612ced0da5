/**
  The two program forms the GCU engine compiler works between: a block of operations over SSA
  values, and the builder's graph of nodes.
 */
module EngineIR {
  import opened Options

  // Values of the block and the tensors that back them, by identity.
  type Value = nat
  type Tensor = nat
  type Shape = seq<int>

  /** An operation of the block. A fused operation names itself in an `op_name` attribute. */
  datatype Op =
    | Compute(name: string, opName: Option<string>, attrs: string, operands: seq<Value>, results: seq<Value>)
    | Yield(operands: seq<Value>)

  // ---------- the builder's graph ----------

  type NodeId = nat

  datatype NodeType = Plain(shape: Shape) | TupleOf(shapes: seq<Shape>)

  datatype Node =
    | Input(index: nat, typ: NodeType)
    | Primitive(kind: string, attrs: string, args: seq<NodeId>, typ: NodeType)
    | TupleElement(arg: NodeId, index: nat, typ: NodeType)

  type Graph = seq<Node>

  /** Nodes only refer to nodes built before them. */
  predicate WellFormed(g: Graph) {
    forall i :: 0 <= i < |g| ==> ArgsBefore(g[i], i)
  }

  predicate ArgsBefore(node: Node, i: nat) {
    match node
    case Input(_, _) => true
    case Primitive(_, _, args, _) => forall k :: 0 <= k < |args| ==> args[k] < i
    case TupleElement(arg, _, _) => arg < i
  }

  /** What a node evaluates to. */
  datatype NodeValue<D> = Plainly(d: D) | Tupled(ds: seq<D>) | Undefined

  /** Meanings of the block's operations and of the builder's primitives. */
  datatype Semantics<!D> = Semantics(
    op: (Op, seq<seq<D>>) -> seq<D>,
    primitive: (string, string, seq<NodeValue<D>>) -> NodeValue<D>)

  ghost function EvalNode<D>(sem: Semantics<D>, node: Node, before: seq<NodeValue<D>>, inputs: seq<D>): NodeValue<D>
    requires ArgsBefore(node, |before|)
  {
    match node
    case Input(k, _) => if k < |inputs| then Plainly(inputs[k]) else Undefined
    case Primitive(kind, attrs, args, _) =>
      sem.primitive(kind, attrs, seq(|args|, k requires 0 <= k < |args| => before[args[k]]))
    case TupleElement(arg, k, _) =>
      if before[arg].Tupled? && k < |before[arg].ds| then Plainly(before[arg].ds[k]) else Undefined
  }

  /** The values of all nodes of a graph. */
  ghost function Eval<D>(sem: Semantics<D>, g: Graph, inputs: seq<D>): (vs: seq<NodeValue<D>>)
    requires WellFormed(g)
    ensures |vs| == |g|
  {
    if g == [] then []
    else
      var k := |g| - 1;
      var before := Eval(sem, g[..k], inputs);
      before + [EvalNode(sem, g[k], before, inputs)]
  }

  /** Building further nodes changes no earlier value. */
  lemma {:induction false} EvalPrefix<D>(sem: Semantics<D>, g: Graph, g': Graph, inputs: seq<D>)
    requires WellFormed(g') && g <= g'
    ensures WellFormed(g)
    ensures Eval(sem, g, inputs) <= Eval(sem, g', inputs)
    decreases |g'|
  {
    if |g| < |g'| {
      EvalPrefix(sem, g, g'[..|g'| - 1], inputs);
    } else {
      assert g == g';
    }
  }

  lemma EvalAppend<D>(sem: Semantics<D>, g: Graph, node: Node, inputs: seq<D>)
    requires WellFormed(g) && ArgsBefore(node, |g|)
    ensures WellFormed(g + [node])
    ensures Eval(sem, g + [node], inputs) == Eval(sem, g, inputs) + [EvalNode(sem, node, Eval(sem, g, inputs), inputs)]
  {
    assert (g + [node])[..|g|] == g;
  }

  // ---------- the interpretation of a block ----------

  /** The SSA interpretation: each operation reads its operands' values and defines its results. */
  ghost function RunBlock<D>(sem: Semantics<D>, ops: seq<Op>, env: map<Value, D>): map<Value, D> {
    if ops == [] then env
    else
      var rest := RunBlock(sem, ops[..|ops| - 1], env);
      match ops[|ops| - 1]
      case Yield(_) => rest
      case Compute(_, _, _, operands, results) =>
        Define(rest, results, sem.op(ops[|ops| - 1], ReadAll(rest, operands)))
  }

  /** Each operand is passed as the sequence of its tensors' contents; an SSA value has one. */
  function ReadAll<D>(env: map<Value, D>, vs: seq<Value>): seq<seq<D>> {
    seq(|vs|, k requires 0 <= k < |vs| => if vs[k] in env then [env[vs[k]]] else [])
  }

  function Define<K, D>(env: map<K, D>, keys: seq<K>, ds: seq<D>): map<K, D> {
    if keys == [] || |ds| < |keys| then env
    else Define(env, keys[..|keys| - 1], ds[..|keys| - 1])[keys[|keys| - 1] := ds[|keys| - 1]]
  }

  /** The values the block yields, in order. */
  function Yielded(ops: seq<Op>): seq<Value> {
    if ops == [] then []
    else Yielded(ops[..|ops| - 1]) + (if ops[|ops| - 1].Yield? then ops[|ops| - 1].operands else [])
  }
}
