/**
  A block that reads a value after an in-place operation took over its tensor. Its translators are
  sound and it converts, but the graph does not compute its SSA meaning.
 */
module GraphSharing {
  import opened EngineIR
  import opened Options
  import opened GraphCompiler
  import opened GraphMeaning
  import opened GraphSsa

  function Combine(name: string, ds: seq<int>): int {
    if name == "pd_op.scale_" then (if ds == [] then 0 else 2 * ds[0])
    else if |ds| < 2 then 0 else ds[0] + ds[1]
  }

  function Flat<T>(args: seq<seq<T>>): seq<T> {
    if args == [] then [] else Flat(args[..|args| - 1]) + args[|args| - 1]
  }

  /** The operations' meaning, and primitives named after them. */
  const MEANING: Semantics<int> := Semantics(
    (op: Op, args: seq<seq<int>>) =>
      if op.Compute? then seq(|op.results|, _ => Combine(op.name, Flat<int>(args))) else [],
    (kind: string, _: string, vals: seq<NodeValue<int>>) =>
      Plainly(Combine(kind, seq(|vals|, k requires 0 <= k < |vals| => if vals[k].Plainly? then vals[k].d else 0))))

  /** Appends one primitive node for an operation of one result. */
  function AppendNode(g: Graph, op: Op, args: seq<seq<NodeId>>): Option<(Graph, NodeId)> {
    if op.Compute? && |op.results| == 1 && ArgsInGraph(g, args)
    then Some((g + [Primitive(op.name, op.attrs, Flat<NodeId>(args), Plain([]))], |g|)) else None
  }

  const SHARING: Context := Context(
    map[0 := [10], 1 := [10], 2 := [11], 3 := [12]],
    map[0 := ["x"], 1 := ["y"], 2 := ["z"], 3 := ["out"]],
    [0], [3],
    map["pd_op_scale_" := AppendNode, "pd_op_add" := AppendNode])

  const SCALE_IN_PLACE: Op := Compute("pd_op.scale_", None, "", [0], [1])
  const ADD: Op := Compute("pd_op.add", None, "", [0, 1], [2])
  const BLOCK: seq<Op> := [SCALE_IN_PLACE, ADD, Yield([2])]

  lemma {:induction false} FlatInGraph(g: Graph, args: seq<seq<NodeId>>)
    requires ArgsInGraph(g, args)
    ensures forall k :: 0 <= k < |Flat<NodeId>(args)| ==> Flat<NodeId>(args)[k] < |g|
  {
    if args != [] {
      FlatInGraph(g, args[..|args| - 1]);
    }
  }

  lemma {:induction false} FlatData(vals: seq<NodeValue<int>>, args: seq<seq<NodeId>>)
    requires ArgsPlain(vals, args)
    ensures |Flat<NodeId>(args)| == |Flat<int>(ArgData(vals, args))|
    ensures forall k :: 0 <= k < |Flat<NodeId>(args)| ==>
      Flat<NodeId>(args)[k] < |vals| && vals[Flat<NodeId>(args)[k]] == Plainly(Flat<int>(ArgData(vals, args))[k])
  {
    if args != [] {
      var n := |args| - 1;
      FlatData(vals, args[..n]);
      assert ArgData(vals, args)[..n] == ArgData(vals, args[..n]);
      assert ArgData(vals, args)[n] == NodeData(vals, args[n]);
    }
  }

  lemma TranslatorsSound()
    ensures Sound(MEANING, SHARING) && Arities(MEANING)
  {
    forall key, g, op, args, inputs | key in SHARING.translators
      ensures SoundAt(MEANING, SHARING.translators[key], g, op, args, inputs)
    {
      if WellFormed(g) && op.Compute? && ArgsInGraph(g, args) && |op.results| == 1 {
        NodeIsSound(g, op, args, inputs);
      }
    }
  }

  lemma NodeIsSound(g: Graph, op: Op, args: seq<seq<NodeId>>, inputs: seq<int>)
    requires WellFormed(g) && op.Compute? && ArgsInGraph(g, args) && |op.results| == 1
    ensures SoundAt(MEANING, AppendNode, g, op, args, inputs)
  {
    var node := Primitive(op.name, op.attrs, Flat<NodeId>(args), Plain([]));
    FlatInGraph(g, args);
    EvalAppend(MEANING, g, node, inputs);
    var vals := Eval(MEANING, g, inputs);
    if ArgsPlain(vals, args) {
      PrimitiveMeaning(vals, node, args, inputs);
    }
  }

  lemma PrimitiveMeaning(vals: seq<NodeValue<int>>, node: Node, args: seq<seq<NodeId>>, inputs: seq<int>)
    requires ArgsPlain(vals, args) && node.Primitive? && node.args == Flat<NodeId>(args) && ArgsBefore(node, |vals|)
    ensures EvalNode(MEANING, node, vals, inputs) == Plainly(Combine(node.kind, Flat<int>(ArgData(vals, args))))
  {
    FlatData(vals, args);
    var data := seq(|node.args|, k requires 0 <= k < |node.args| => vals[node.args[k]]);
    assert seq(|data|, k requires 0 <= k < |data| => if data[k].Plainly? then data[k].d else 0)
        == Flat<int>(ArgData(vals, args));
  }

  lemma StoreReading(x: int)
    ensures RunStore(MEANING, SHARING, BLOCK, map[10 := x]) == map[10 := 2 * x, 11 := 4 * x]
  {
    var m0: map<Tensor, int> := map[10 := x];
    var m1 := m0[10 := 2 * x];
    var m2 := m1[11 := 2 * (2 * x)];
    ScaleInStore(m0, x);
    AddInStore(m1, 2 * x);
    StoreOfThree(SCALE_IN_PLACE, ADD, Yield([2]), m0, m1, m2);
    assert m2 == map[10 := 2 * x, 11 := 4 * x];
  }

  lemma StoredInput(x: int)
    ensures InputStore(SHARING, [x]) == map[10 := x]
  {
    assert FirstTensors(SHARING, [0]) == [10];
    DefineOne(map[], 10, x);
  }

  lemma StoreOfThree(a: Op, b: Op, c: Op, m0: map<Tensor, int>, m1: map<Tensor, int>, m2: map<Tensor, int>)
    requires StoreStep(MEANING, SHARING, a, m0) == m1 && StoreStep(MEANING, SHARING, b, m1) == m2 && c.Yield?
    ensures RunStore(MEANING, SHARING, [a, b, c], m0) == m2
  {
    StoreNext([], a, m0);
    StoreNext([] + [a], b, m0);
    StoreNext([] + [a] + [b], c, m0);
    assert [a, b, c] == [] + [a] + [b] + [c];
  }

  lemma StoreNext(ops: seq<Op>, op: Op, mem: map<Tensor, int>)
    ensures RunStore(MEANING, SHARING, ops + [op], mem)
         == StoreStep(MEANING, SHARING, op, RunStore(MEANING, SHARING, ops, mem))
  {
    assert (ops + [op])[..|ops|] == ops;
  }

  lemma ScaleInStore(m: map<Tensor, int>, x: int)
    requires 10 in m && m[10] == x
    ensures StoreStep(MEANING, SHARING, SCALE_IN_PLACE, m) == m[10 := 2 * x]
  {
    ReadOne(m, 10);
    assert ReadStore(SHARING, m, [0]) == [[x]];
    FlatOne(x);
    assert FirstTensors(SHARING, [1]) == [10];
    DefineOne(m, 10, 2 * x);
  }

  lemma ReadBoth(m: map<Tensor, int>, x: int)
    requires 10 in m && m[10] == x
    ensures ReadStore(SHARING, m, [0, 1]) == [[x], [x]]
  {
    ReadOne(m, 10);
  }

  lemma AddInStore(m: map<Tensor, int>, x: int)
    requires 10 in m && m[10] == x
    ensures StoreStep(MEANING, SHARING, ADD, m) == m[11 := 2 * x]
  {
    ReadBoth(m, x);
    FlatTwo(x, x);
    assert FirstTensors(SHARING, [2]) == [11];
    DefineOne(m, 11, 2 * x);
  }

  lemma SsaReading(x: int)
    ensures RunBlock(MEANING, BLOCK, InputEnv(SHARING, [x])) == map[0 := x, 1 := 2 * x, 2 := 3 * x]
  {
    var e0: map<Value, int> := InputEnv(SHARING, [x]);
    DefineOne(map[], 0, x);
    assert BLOCK[..2] == [SCALE_IN_PLACE, ADD] && BLOCK[..2][..1] == [SCALE_IN_PLACE] && BLOCK[..1][..0] == [];
    assert ReadAll(e0, [0]) == [[x]];
    FlatOne(x);
    DefineOne(e0, 1, 2 * x);
    var e1 := e0[1 := 2 * x];
    assert RunBlock(MEANING, [SCALE_IN_PLACE], e0) == e1;
    assert ReadAll(e1, [0, 1]) == [[x], [2 * x]];
    FlatTwo(x, 2 * x);
    DefineOne(e1, 2, 3 * x);
    assert RunBlock(MEANING, [SCALE_IN_PLACE, ADD], e0) == e1[2 := 3 * x];
  }

  lemma DefineOne(m: map<nat, int>, k: nat, d: int)
    ensures Define(m, [k], [d]) == m[k := d]
  {
    assert [k][..0] == [] && [d][..0] == [];
  }

  lemma ReadOne(m: map<Tensor, int>, t: Tensor)
    requires t in m
    ensures ReadTensors(m, [t]) == [m[t]]
  {
    assert [t][..0] == [];
  }

  lemma FlatOne(a: int)
    ensures Flat<int>([[a]]) == [a]
  {
    assert [[a]][..0] == [];
  }

  lemma FlatTwo(a: int, b: int)
    ensures Flat<int>([[a], [b]]) == [a, b]
  {
    assert [[a], [b]][..1] == [[a]];
    FlatOne(a);
  }

  lemma BlockShape()
    ensures OneYield(BLOCK) && Yielded(BLOCK) == [2]
  {
    assert BLOCK[..2] == [SCALE_IN_PLACE, ADD] && BLOCK[..2][..1] == [SCALE_IN_PLACE] && BLOCK[..1][..0] == [];
    assert Yielded([SCALE_IN_PLACE]) == [];
    assert Yielded([SCALE_IN_PLACE, ADD]) == [];
  }

  lemma CachedOne(cache: map<Tensor, NodeId>, t: Tensor)
    requires t in cache
    ensures CachedNodes(cache, [t]) == Ok([cache[t]])
  {
    assert [t][..0] == [];
    assert [] + [cache[t]] == [cache[t]];
  }

  lemma OperandOne(cache: map<Tensor, NodeId>, before: seq<Value>, v: Value, args: seq<seq<NodeId>>, t: Tensor)
    requires v in SHARING.tensorsOf && v in SHARING.namesOf && SHARING.tensorsOf[v] == [t] && t in cache
    requires OperandNodes(SHARING, cache, before) == Ok(args)
    ensures OperandNodes(SHARING, cache, before + [v]) == Ok(args + [[cache[t]]])
  {
    assert (before + [v])[..|before|] == before;
    CachedOne(cache, t);
  }

  lemma ScaleConverts(st: State)
    requires st.cache == map[10 := 0] && |st.graph| == 1 && st.inner == []
    ensures var r := ConvertOp(SHARING, st, SCALE_IN_PLACE);
      r.Ok? && r.value.cache == map[10 := 1] && |r.value.graph| == 2 && r.value.inner == []
  {
    assert TranslateKey("pd_op.scale_") == "pd_op_scale_";
    OperandOne(st.cache, [], 0, [], 10);
    assert [] + [0] == [0] && [] + [[0]] == [[0]];
  }

  lemma AddConverts(st: State)
    requires st.cache == map[10 := 1] && |st.graph| == 2 && st.inner == []
    ensures var r := ConvertOp(SHARING, st, ADD);
      r.Ok? && r.value.cache == map[10 := 1, 11 := 2] && r.value.inner == []
  {
    assert TranslateKey("pd_op.add") == "pd_op_add";
    OperandOne(st.cache, [], 0, [], 10);
    assert [] + [0] == [0] && [] + [[1]] == [[1]];
    OperandOne(st.cache, [0], 1, [[1]], 10);
    assert [0] + [1] == [0, 1] && [[1]] + [[1]] == [[1], [1]];
  }

  lemma BlockConverts(dims: map<Tensor, Shape>)
    ensures OneYield(BLOCK) && Convert(SHARING, dims, BLOCK).Ok?
  {
    BlockShape();
    assert BLOCK[..2] == [SCALE_IN_PLACE, ADD] && BLOCK[..2][..1] == [SCALE_IN_PLACE] && BLOCK[..1][..0] == [];
    assert HasTensor(SHARING, 0) && HasTensor(SHARING, 3);
    var st0 := WithInputs(SHARING, dims, 1);
    assert WithInputs(SHARING, dims, 0) == State([], map[], []);
    ScaleConverts(st0);
    var st1 := ConvertOp(SHARING, st0, SCALE_IN_PLACE).value;
    assert ConvertOps(SHARING, st0, [SCALE_IN_PLACE]) == Ok(st1);
    AddConverts(st1);
    var st2 := ConvertOp(SHARING, st1, ADD).value;
    assert ConvertOps(SHARING, st0, [SCALE_IN_PLACE, ADD]) == Ok(st2);
    assert [2][..0] == [];
    assert Mapped(SHARING, [2]) == Ok(());
    var st3 := st2.(inner := [2]);
    assert ConvertOps(SHARING, st0, BLOCK) == Ok(st3);
    assert OutputNode(SHARING, st3, 0) == Ok(2);
    assert OutputNodes(SHARING, st3, 0) == Ok([]);
  }

  /** The block reads x after its in-place scaling, and the graph computes 4x where the block means 3x. */
  lemma SharingMisreads(dims: map<Tensor, Shape>, x: int)
    requires x != 0
    ensures Sound(MEANING, SHARING) && Arities(MEANING) && OneYield(BLOCK) && !Clean(SHARING, BLOCK)
    ensures Convert(SHARING, dims, BLOCK).Ok?
    ensures var p, env := Convert(SHARING, dims, BLOCK).value, RunBlock(MEANING, BLOCK, InputEnv(SHARING, [x]));
      && WellFormed(p.state.graph) && |p.outputs| == 1 && p.outputs[0] < |p.state.graph| && 2 in env
      && Eval(MEANING, p.state.graph, [x])[p.outputs[0]] == Plainly(4 * x) != Plainly(env[2])
  {
    TranslatorsSound();
    BlockConverts(dims);
    BlockShape();
    StaleAdd();
    SsaReading(x);
    StoredInput(x);
    StoreReading(x);
    GraphComputesStore(MEANING, SHARING, dims, BLOCK, [x]);
  }

  /** What the tensors hold after the scaling and after the addition, which reads x from y's tensor. */
  lemma SharedContents()
    ensures Contents(SHARING, [SCALE_IN_PLACE]) == map[10 := Holds(1)]
    ensures Contents(SHARING, [SCALE_IN_PLACE, ADD]) == map[10 := Holds(1), 11 := Spoiled]
  {
    assert FirstTensors(SHARING, [0]) == [10] && FirstTensors(SHARING, [1]) == [10]
      && FirstTensors(SHARING, [2]) == [11];
    assert HoldAll([0]) == [Holds(0)] && HoldAll([1]) == [Holds(1)] && SpoilAll(1) == [Spoiled];
    DefineContent(map[], 10, Holds(0));
    assert [SCALE_IN_PLACE][..0] == [] && [SCALE_IN_PLACE, ADD][..1] == [SCALE_IN_PLACE];
    assert Contents(SHARING, []) == map[10 := Holds(0)];
    assert GoodRead(SHARING, Contents(SHARING, []), 0);
    DefineContent(Contents(SHARING, []), 10, Holds(1));
    assert !GoodRead(SHARING, map[10 := Holds(1)], ADD.operands[0]);
    DefineContent(map[10 := Holds(1)], 11, Spoiled);
  }

  lemma DefineContent(held: map<Tensor, Content>, t: Tensor, c: Content)
    ensures Define(held, [t], [c]) == held[t := c]
  {
    assert [t][..0] == [] && [c][..0] == [];
  }

  lemma StaleAdd()
    ensures !Clean(SHARING, BLOCK)
  {
    SharedContents();
    BlockShape();
    assert BLOCK[..2] == [SCALE_IN_PLACE, ADD];
    assert !GoodRead(SHARING, Contents(SHARING, BLOCK), Yielded(BLOCK)[0]);
  }

  lemma YieldsNothing()
    ensures Yielded([SCALE_IN_PLACE]) == [] && Yielded([SCALE_IN_PLACE, ADD]) == []
  {
    assert [SCALE_IN_PLACE][..0] == [];
    assert Yielded([SCALE_IN_PLACE]) == [];
    assert [SCALE_IN_PLACE, ADD][..1] == [SCALE_IN_PLACE];
  }

  /** Yielding the scaled value instead leaves the stale read without consequences: clean, though not fresh. */
  lemma HarmlessStaleRead()
    ensures Clean(SHARING, [SCALE_IN_PLACE, ADD, Yield([1])]) && !Fresh(SHARING, [SCALE_IN_PLACE, ADD, Yield([1])])
  {
    var ops := [SCALE_IN_PLACE, ADD, Yield([1])];
    SharedContents();
    assert ops[..2] == [SCALE_IN_PLACE, ADD];
    YieldsNothing();
    assert GoodRead(SHARING, Contents(SHARING, ops), 1);
    assert !GoodRead(SHARING, Contents(SHARING, [SCALE_IN_PLACE]), ADD.operands[0]);
    assert !FreshOps(SHARING, [SCALE_IN_PLACE, ADD]);
  }
}
