/**
  Clean blocks are the only ones whose meaning conversion is sure to keep. Each operation is given a
  meaning that tells whether it read its own operands, and translators that carry it over; a block
  that is not clean then converts to a graph with a wrong output.
 */
module GraphTagging {
  import opened EngineIR
  import opened Options
  import opened GraphCompiler
  import opened GraphMeaning
  import opened GraphLookups
  import opened GraphSsa

  // ---------- numbers in strings ----------

  /** Numbers in unary, each after a comma. */
  function Encode(ns: seq<nat>): string {
    if ns == [] then "" else Encode(ns[..|ns| - 1]) + [','] + Ones(ns[|ns| - 1])
  }

  function Ones(n: nat): string {
    if n == 0 then "" else Ones(n - 1) + ['1']
  }

  function Decode(s: string): seq<nat> {
    if s == "" then []
    else
      var ns := Decode(s[..|s| - 1]);
      if s[|s| - 1] == ',' then ns + [0]
      else if ns == [] then [] else ns[..|ns| - 1] + [ns[|ns| - 1] + 1]
  }

  lemma {:induction false} DecodeOnes(s: string, ns: seq<nat>, n: nat)
    requires Decode(s) == ns + [0]
    ensures Decode(s + Ones(n)) == ns + [n]
  {
    if n == 0 {
      assert s + Ones(0) == s;
    } else {
      DecodeOnes(s, ns, n - 1);
      assert (s + Ones(n))[..|s + Ones(n)| - 1] == s + Ones(n - 1);
    }
  }

  lemma {:induction false} DecodeEncoded(ns: seq<nat>)
    ensures Decode(Encode(ns)) == ns
  {
    if ns != [] {
      var k := |ns| - 1;
      var s := Encode(ns[..k]) + [','];
      DecodeEncoded(ns[..k]);
      assert s[..|s| - 1] == Encode(ns[..k]);
      DecodeOnes(s, ns[..k], ns[k]);
    }
  }

  // ---------- a meaning that tells stale reads apart ----------

  function Singles(vs: seq<Value>): seq<seq<int>> {
    seq(|vs|, k requires 0 <= k < |vs| => [vs[k] as int])
  }

  /** Each result is its own number if the operands are theirs, and -1 otherwise. */
  function Tags(good: bool, results: seq<Value>): (ds: seq<int>)
    ensures |ds| == |results|
  {
    seq(|results|, k requires 0 <= k < |results| => if good then results[k] as int else -1)
  }

  predicate ReadOwn(vals: seq<NodeValue<int>>, vs: seq<Value>) {
    |vals| == |vs| && forall k :: 0 <= k < |vs| ==> vals[k] == Plainly(vs[k] as int)
  }

  const TAGGING: Semantics<int> := Semantics(
    (op: Op, args: seq<seq<int>>) => if op.Compute? then Tags(args == Singles(op.operands), op.results) else [],
    (kind: string, attrs: string, vals: seq<NodeValue<int>>) =>
      Tupled(Tags(ReadOwn(vals, Decode(kind)), Decode(attrs))))

  /** The engine's inputs are given their own numbers. */
  function InputTags(ctx: Context): (ds: seq<int>)
    ensures |ds| == |ctx.inputs|
  {
    Tags(true, ctx.inputs)
  }

  function Tag(c: Content): int {
    match c
    case Holds(v) => v
    case Spoiled => -1
  }

  /** Every SSA value is its own number. */
  lemma {:induction false} DefineTags(env: map<Value, int>, vs: seq<Value>)
    requires forall v :: v in env ==> env[v] == v
    ensures var env' := Define(env, vs, Tags(true, vs));
      env'.Keys == env.Keys + (set k | 0 <= k < |vs| :: vs[k]) && forall v :: v in env' ==> env'[v] == v
  {
    if vs != [] {
      var k := |vs| - 1;
      DefineTags(env, vs[..k]);
      assert Tags(true, vs)[..k] == Tags(true, vs[..k]);
      assert (set i | 0 <= i < |vs| :: vs[i]) == (set i | 0 <= i < k :: vs[..k][i]) + {vs[k]};
    }
  }

  lemma {:induction false} BlockTags(ctx: Context, ops: seq<Op>)
    requires Topological(ctx, ops)
    ensures var env := RunBlock(TAGGING, ops, InputEnv(ctx, InputTags(ctx)));
      env.Keys == Defined(ctx, ops) && forall v :: v in env ==> env[v] == v
  {
    if ops == [] {
      DefineTags(map[], ctx.inputs);
    } else {
      var k := |ops| - 1;
      BlockTags(ctx, ops[..k]);
      if ops[k].Compute? {
        var env := RunBlock(TAGGING, ops[..k], InputEnv(ctx, InputTags(ctx)));
        assert ReadAll(env, ops[k].operands) == Singles(ops[k].operands);
        DefineTags(env, ops[k].results);
      }
    }
  }

  /** The store's contents are the tags of what its tensors hold. */
  ghost predicate Tagged(mem: map<Tensor, int>, held: map<Tensor, Content>) {
    mem.Keys == held.Keys && forall t :: t in held ==> mem[t] == Tag(held[t])
  }

  lemma {:induction false} DefineTagged(mem: map<Tensor, int>, held: map<Tensor, Content>, ts: seq<Tensor>,
                                        ds: seq<int>, cs: seq<Content>)
    requires Tagged(mem, held) && |ts| == |ds| == |cs| && forall k :: 0 <= k < |cs| ==> ds[k] == Tag(cs[k])
    ensures Tagged(Define(mem, ts, ds), Define(held, ts, cs))
    ensures Define(held, ts, cs).Keys == held.Keys + set k | 0 <= k < |ts| :: ts[k]
  {
    if ts != [] {
      var k := |ts| - 1;
      DefineTagged(mem, held, ts[..k], ds[..k], cs[..k]);
      assert (set i | 0 <= i < |ts| :: ts[i]) == (set i | 0 <= i < k :: ts[..k][i]) + {ts[k]};
    }
  }

  /** Every defined value has one tensor, which holds something. */
  predicate Placed(ctx: Context, held: map<Tensor, Content>, known: set<Value>) {
    forall v :: v in known ==> |TensorsOf(ctx, v)| == 1 && FirstTensor(ctx, v) in held
  }

  /** An operation reads its own operands from a tagged store exactly when all its reads are good. */
  lemma TaggedReads(ctx: Context, mem: map<Tensor, int>, held: map<Tensor, Content>, known: set<Value>, vs: seq<Value>)
    requires Tagged(mem, held) && Placed(ctx, held, known) && AllIn(vs, known)
    ensures ReadStore(ctx, mem, vs) == Singles(vs) <==> GoodReads(ctx, held, vs)
  {
    forall k | 0 <= k < |vs|
      ensures ReadStore(ctx, mem, vs)[k] == [Tag(held[FirstTensor(ctx, vs[k])])] && FirstTensor(ctx, vs[k]) in held
    {
      assert vs[k] in known;
      ReadSingle(ctx, mem, vs[k]);
    }
    if ReadStore(ctx, mem, vs) == Singles(vs) {
      forall k | 0 <= k < |vs| ensures GoodRead(ctx, held, vs[k]) {
        assert ReadStore(ctx, mem, vs)[k] == Singles(vs)[k];
        assert vs[k] in known;
      }
    }
    if GoodReads(ctx, held, vs) {
      forall k | 0 <= k < |vs| ensures ReadStore(ctx, mem, vs)[k] == Singles(vs)[k] {
        assert GoodRead(ctx, held, vs[k]);
      }
    }
  }

  lemma {:induction false} StoreTags(ctx: Context, ops: seq<Op>)
    requires Initialised(ctx) && SingleInputs(ctx) && ResultsHaveTensors(ctx, ops) && Topological(ctx, ops)
    ensures Tagged(RunStore(TAGGING, ctx, ops, InputStore(ctx, InputTags(ctx))), Contents(ctx, ops))
    ensures Placed(ctx, Contents(ctx, ops), Defined(ctx, ops))
  {
    if ops == [] {
      DefineTagged(map[], map[], FirstTensors(ctx, ctx.inputs), InputTags(ctx), HoldAll(ctx.inputs));
      InputsPlaced(ctx);
    } else {
      var k := |ops| - 1;
      StoreTags(ctx, ops[..k]);
      if ops[k].Compute? {
        forall i | 0 <= i < |ops[k].results| ensures |TensorsOf(ctx, ops[k].results[i])| == 1 {
          assert ResultTensor(ctx, ops[k].results[i]).Ok?;
        }
        StepTags(ctx, ops[k], RunStore(TAGGING, ctx, ops[..k], InputStore(ctx, InputTags(ctx))),
                 Contents(ctx, ops[..k]), Defined(ctx, ops[..k]));
      }
    }
  }

  lemma InputsPlaced(ctx: Context)
    requires Initialised(ctx) && SingleInputs(ctx)
    ensures Placed(ctx, Contents(ctx, []), Defined(ctx, []))
  {
    var ts := FirstTensors(ctx, ctx.inputs);
    DefineTagged(map[], map[], ts, InputTags(ctx), HoldAll(ctx.inputs));
    forall k | 0 <= k < |ctx.inputs|
      ensures |TensorsOf(ctx, ctx.inputs[k])| == 1 && FirstTensor(ctx, ctx.inputs[k]) in Contents(ctx, [])
    {
      assert HasTensor(ctx, ctx.inputs[k]) && |TensorsOf(ctx, ctx.inputs[k])| <= 1;
      assert ts[k] in set i | 0 <= i < |ts| :: ts[i];
    }
  }

  lemma StepTags(ctx: Context, op: Op, mem: map<Tensor, int>, held: map<Tensor, Content>, known: set<Value>)
    requires op.Compute? && Tagged(mem, held) && Placed(ctx, held, known) && AllIn(op.operands, known)
    requires forall i :: 0 <= i < |op.results| ==> |TensorsOf(ctx, op.results[i])| == 1
    ensures var held' := Define(held, FirstTensors(ctx, op.results), ResultContents(ctx, held, op));
      && Tagged(StoreStep(TAGGING, ctx, op, mem), held')
      && Placed(ctx, held', known + set k | 0 <= k < |op.results| :: op.results[k])
  {
    var ts := FirstTensors(ctx, op.results);
    TaggedReads(ctx, mem, held, known, op.operands);
    DefineTagged(mem, held, ts, TAGGING.op(op, ReadStore(ctx, mem, op.operands)), ResultContents(ctx, held, op));
    forall i | 0 <= i < |op.results|
      ensures FirstTensor(ctx, op.results[i]) in held.Keys + set k | 0 <= k < |ts| :: ts[k]
    {
      assert ts[i] in set k | 0 <= k < |ts| :: ts[k];
    }
  }

  /** In a block that is not clean, some yielded value's tensor does not have its tag. */
  lemma UncleanStore(ctx: Context, ops: seq<Op>) returns (k: nat)
    requires Initialised(ctx) && SingleInputs(ctx) && ResultsHaveTensors(ctx, ops) && Topological(ctx, ops)
    requires !Clean(ctx, ops)
    ensures k < |Yielded(ops)|
    ensures var v := Yielded(ops)[k];
      var mem := RunStore(TAGGING, ctx, ops, InputStore(ctx, InputTags(ctx)));
      var env := RunBlock(TAGGING, ops, InputEnv(ctx, InputTags(ctx)));
      FirstTensor(ctx, v) in mem && v in env && mem[FirstTensor(ctx, v)] != env[v]
  {
    StoreTags(ctx, ops);
    BlockTags(ctx, ops);
    YieldedDefined(ctx, ops);
    k :| k < |Yielded(ops)| && !GoodRead(ctx, Contents(ctx, ops), Yielded(ops)[k]);
    assert Yielded(ops)[k] in Defined(ctx, ops);
  }

  // ---------- translators that carry the tags over ----------

  predicate OneNodeEach(args: seq<seq<NodeId>>) {
    forall i :: 0 <= i < |args| ==> |args[i]| == 1
  }

  function FirstNodes(args: seq<seq<NodeId>>): (ns: seq<NodeId>)
    requires OneNodeEach(args)
    ensures |ns| == |args| && forall i :: 0 <= i < |args| ==> ns[i] == args[i][0]
  {
    seq(|args|, i requires 0 <= i < |args| => args[i][0])
  }

  /** A primitive that spells out the operation's operands and results. */
  function TagNode(op: Op, args: seq<seq<NodeId>>): Node
    requires op.Compute? && OneNodeEach(args)
  {
    Primitive(Encode(op.operands), Encode(op.results), FirstNodes(args), TupleOf(seq(|op.results|, _ => [])))
  }

  function AppendTag(g: Graph, op: Op, args: seq<seq<NodeId>>): Option<(Graph, NodeId)> {
    if op.Compute? && ArgsInGraph(g, args) && OneNodeEach(args) then Some((g + [TagNode(op, args)], |g|)) else None
  }

  /** The context with every translator replaced. */
  function WithTags(ctx: Context): Context {
    ctx.(translators := map key | key in ctx.translators :: AppendTag)
  }

  lemma TagNodeMeans(vals: seq<NodeValue<int>>, op: Op, args: seq<seq<NodeId>>, inputs: seq<int>)
    requires op.Compute? && OneNodeEach(args) && ArgsPlain(vals, args) && ArgsBefore(TagNode(op, args), |vals|)
    ensures EvalNode(TAGGING, TagNode(op, args), vals, inputs) == Tupled(TAGGING.op(op, ArgData(vals, args)))
  {
    DecodeEncoded(op.operands);
    DecodeEncoded(op.results);
    var read := seq(|args|, k requires 0 <= k < |args| => vals[FirstNodes(args)[k]]);
    forall k | 0 <= k < |args| ensures ArgData(vals, args)[k] == [read[k].d] {
      assert NodeData(vals, args[k]) == [vals[args[k][0]].d];
    }
    if ArgData(vals, args) == Singles(op.operands) {
      forall k | 0 <= k < |args| ensures read[k] == Plainly(op.operands[k] as int) {
        assert ArgData(vals, args)[k] == Singles(op.operands)[k];
      }
    }
    if ReadOwn(read, op.operands) {
      assert ArgData(vals, args) == Singles(op.operands);
    }
  }

  lemma TagNodeSound(g: Graph, op: Op, args: seq<seq<NodeId>>, inputs: seq<int>)
    ensures SoundAt(TAGGING, AppendTag, g, op, args, inputs)
  {
    if WellFormed(g) && op.Compute? && ArgsInGraph(g, args) && OneNodeEach(args) {
      EvalAppend(TAGGING, g, TagNode(op, args), inputs);
      if ArgsPlain(Eval(TAGGING, g, inputs), args) {
        TagNodeMeans(Eval(TAGGING, g, inputs), op, args, inputs);
      }
    }
  }

  lemma TagsSound(ctx: Context)
    ensures Sound(TAGGING, WithTags(ctx)) && Arities(TAGGING)
  {
    forall key, g, op, args, inputs | key in WithTags(ctx).translators
      ensures SoundAt(TAGGING, WithTags(ctx).translators[key], g, op, args, inputs)
    {
      TagNodeSound(g, op, args, inputs);
    }
  }

  // ---------- a block that converts also converts with these translators ----------

  /** The same inner outputs, at least the same tensors cached, and all of them in the graph. */
  predicate Follows(st: State, st': State) {
    && st'.inner == st.inner && st.cache.Keys <= st'.cache.Keys
    && forall t :: t in st'.cache ==> st'.cache[t] < |st'.graph|
  }

  lemma {:induction false} InputsFollow(ctx: Context, dims: map<Tensor, Shape>, k: nat)
    requires Initialised(ctx) && k <= |ctx.inputs|
    ensures WithInputs(WithTags(ctx), dims, k) == WithInputs(ctx, dims, k)
    ensures Follows(WithInputs(ctx, dims, k), WithInputs(ctx, dims, k))
  {
    assert forall i :: 0 <= i < |ctx.inputs| ==>
      HasTensor(ctx, ctx.inputs[i]) == HasTensor(WithTags(ctx), ctx.inputs[i]);
    assert forall i :: 0 <= i < |ctx.outputs| ==>
      HasTensor(ctx, ctx.outputs[i]) == HasTensor(WithTags(ctx), ctx.outputs[i]);
    if k > 0 {
      InputsFollow(ctx, dims, k - 1);
    }
  }

  lemma {:induction false} OperandsFollow(ctx: Context, st: State, st': State, vs: seq<Value>)
    requires Follows(st, st') && OperandNodes(ctx, st.cache, vs).Ok?
    requires forall k :: 0 <= k < |vs| ==> |TensorsOf(ctx, vs[k])| == 1
    ensures var r := OperandNodes(WithTags(ctx), st'.cache, vs);
      r.Ok? && |r.value| == |vs| && ArgsInGraph(st'.graph, r.value) && OneNodeEach(r.value)
  {
    if vs != [] {
      var k := |vs| - 1;
      OperandsFollow(ctx, st, st', vs[..k]);
      assert |TensorsOf(ctx, vs[k])| == 1;
      LookupFollows(st.cache, st'.cache, ctx.tensorsOf[vs[k]][0], ctx.tensorsOf[vs[k]]);
    }
  }

  lemma LookupFollows(cache: map<Tensor, NodeId>, cache': map<Tensor, NodeId>, t: Tensor, ts: seq<Tensor>)
    requires ts == [t] && cache.Keys <= cache'.Keys && CachedNodes(cache, ts).Ok?
    ensures t in cache' && CachedNodes(cache', ts) == Ok([cache'[t]])
  {
    assert ts[..0] == [];
    assert CachedNodes(cache, ts[..0]) == Ok([]) && CachedNodes(cache', ts[..0]) == Ok([]);
    assert [] + [cache'[t]] == [cache'[t]];
  }

  lemma {:induction false} TupleRecords(ctx: Context, st: State, node: NodeId, shapes: seq<Shape>, results: seq<Value>,
                                        k: nat)
    requires k <= |shapes| == |results| && forall i :: 0 <= i < |results| ==> ResultTensor(ctx, results[i]).Ok?
    requires forall t :: t in st.cache ==> st.cache[t] < |st.graph|
    ensures var r := RecordTuple(ctx, st, node, shapes, results, k);
      r.Ok? && r.value.inner == st.inner && forall t :: t in r.value.cache ==> r.value.cache[t] < |r.value.graph|
  {
    if k > 0 {
      TupleRecords(ctx, st, node, shapes, results, k - 1);
    }
  }

  lemma SameTensors(ctx: Context, vs: seq<Value>)
    ensures TensorSet(WithTags(ctx), vs) == TensorSet(ctx, vs)
  {
    assert forall v :: TensorsOf(WithTags(ctx), v) == TensorsOf(ctx, v);
  }

  lemma StepFollows(ctx: Context, st: State, st': State, op: Op)
    requires op.Compute? && Follows(st, st') && ConvertOp(ctx, st, op).Ok?
    requires forall k :: 0 <= k < |op.operands| ==> |TensorsOf(ctx, op.operands[k])| == 1
    requires forall i :: 0 <= i < |op.results| ==> ResultTensor(ctx, op.results[i]).Ok?
    ensures var r := ConvertOp(WithTags(ctx), st', op);
      r.Ok? && Follows(ConvertOp(ctx, st, op).value, r.value)
  {
    var tags, key, n := WithTags(ctx), TranslateKey(Resolved(op)), |op.results|;
    OperandsFollow(ctx, st, st', op.operands);
    var (g, node) := ctx.translators[key](st.graph, op, OperandNodes(ctx, st.cache, op.operands).value).value;
    RecordKeys(ctx, st.(graph := g), node, op);
    ConvertOpInner(ctx, st, op);
    var args := OperandNodes(tags, st'.cache, op.operands).value;
    var grown := st'.(graph := st'.graph + [TagNode(op, args)]);
    var shapes: seq<Shape> := seq(n, _ => []);
    assert tags.translators[key](st'.graph, op, args) == Some((grown.graph, |st'.graph|));
    forall i | 0 <= i < n ensures ResultTensor(tags, op.results[i]).Ok? {
      assert ResultTensor(ctx, op.results[i]).Ok?;
    }
    TupleRecords(tags, grown, |st'.graph|, shapes, op.results, n);
    TupleKeys(tags, grown, |st'.graph|, shapes, op.results, n);
    assert op.results[..n] == op.results;
    SameTensors(ctx, op.results);
  }

  lemma {:induction false} OpsFollow(ctx: Context, st: State, ops: seq<Op>)
    requires Initialised(ctx) && SingleInputs(ctx) && ResultsHaveTensors(ctx, ops) && Topological(ctx, ops)
    requires Follows(st, st) && ConvertOps(ctx, st, ops).Ok?
    ensures var r := ConvertOps(WithTags(ctx), st, ops);
      r.Ok? && Follows(ConvertOps(ctx, st, ops).value, r.value)
  {
    if ops != [] {
      var k := |ops| - 1;
      OpsFollow(ctx, st, ops[..k]);
      var before, before' := ConvertOps(ctx, st, ops[..k]).value, ConvertOps(WithTags(ctx), st, ops[..k]).value;
      if ops[k].Yield? {
        MappedFollows(ctx, ops[k].operands);
      } else {
        StoreTags(ctx, ops[..k]);
        forall i | 0 <= i < |ops[k].operands| ensures |TensorsOf(ctx, ops[k].operands[i])| == 1 {
          assert ops[k].operands[i] in Defined(ctx, ops[..k]);
        }
        StepFollows(ctx, before, before', ops[k]);
      }
    }
  }

  lemma {:induction false} MappedFollows(ctx: Context, vs: seq<Value>)
    ensures Mapped(WithTags(ctx), vs) == Mapped(ctx, vs)
  {
    if vs != [] {
      MappedFollows(ctx, vs[..|vs| - 1]);
    }
  }

  lemma {:induction false} OutputsFollow(ctx: Context, st: State, st': State, k: nat)
    requires Follows(st, st') && k <= |st.inner| <= |ctx.outputs| && OutputNodes(ctx, st, k).Ok?
    ensures OutputNodes(WithTags(ctx), st', k).Ok?
  {
    if k > 0 {
      OutputsFollow(ctx, st, st', k - 1);
    }
  }

  lemma TagsConvert(ctx: Context, dims: map<Tensor, Shape>, ops: seq<Op>)
    requires OneYield(ops) && Convert(ctx, dims, ops).Ok?
    requires SingleInputs(ctx) && ResultsHaveTensors(ctx, ops) && Topological(ctx, ops)
    ensures Convert(WithTags(ctx), dims, ops).Ok?
  {
    var st0 := WithInputs(ctx, dims, |ctx.inputs|);
    InputsFollow(ctx, dims, |ctx.inputs|);
    OpsFollow(ctx, st0, ops);
    NoInnerYet(ctx, dims, |ctx.inputs|);
    InnerCount(ctx, st0, ops);
    var st, st' := ConvertOps(ctx, st0, ops).value, ConvertOps(WithTags(ctx), st0, ops).value;
    OutputsFollow(ctx, st, st', |st.inner|);
  }

  // ---------- the exact condition ----------

  /** Converted with these translators, the block keeps this meaning. */
  ghost predicate KeptFor(ctx: Context, dims: map<Tensor, Shape>, ops: seq<Op>,
                          translators: map<string, Translator>, sem: Semantics<int>, inputs: seq<int>)
    requires OneYield(ops)
  {
    var c := ctx.(translators := translators);
    Sound(sem, c) && Arities(sem) && |inputs| == |ctx.inputs| && Convert(c, dims, ops).Ok? ==>
      GraphMeans(sem, c, dims, ops, inputs)
  }

  /** Whatever the operations mean, and however their sound translators carry it over. */
  ghost predicate AlwaysKept(ctx: Context, dims: map<Tensor, Shape>, ops: seq<Op>)
    requires OneYield(ops)
  {
    forall translators: map<string, Translator>, sem: Semantics<int>, inputs: seq<int> ::
      translators.Keys == ctx.translators.Keys ==>
      KeptFor(ctx, dims, ops, translators, sem, inputs)
  }

  lemma CleanIsKept(ctx: Context, dims: map<Tensor, Shape>, ops: seq<Op>,
                    translators: map<string, Translator>, sem: Semantics<int>, inputs: seq<int>)
    requires OneYield(ops) && Clean(ctx, ops)
    ensures KeptFor(ctx, dims, ops, translators, sem, inputs)
  {
    var c := ctx.(translators := translators);
    SameContents(ctx, translators, ops);
    if Sound(sem, c) && Arities(sem) && |inputs| == |ctx.inputs| && Convert(c, dims, ops).Ok? {
      ConversionPreservesMeaning(sem, c, dims, ops, inputs);
    }
  }

  /** What the tensors hold does not depend on the translators. */
  lemma {:induction false} SameContents(ctx: Context, translators: map<string, Translator>, ops: seq<Op>)
    ensures Contents(ctx.(translators := translators), ops) == Contents(ctx, ops)
    ensures Clean(ctx.(translators := translators), ops) <==> Clean(ctx, ops)
  {
    var c := ctx.(translators := translators);
    if ops == [] {
      assert FirstTensors(c, ctx.inputs) == FirstTensors(ctx, ctx.inputs);
    } else {
      var k := |ops| - 1;
      SameContents(ctx, translators, ops[..k]);
      if ops[k].Compute? {
        SameReads(ctx, translators, Contents(ctx, ops[..k]), ops[k].operands);
        assert FirstTensors(c, ops[k].results) == FirstTensors(ctx, ops[k].results);
      }
    }
    SameReads(ctx, translators, Contents(ctx, ops), Yielded(ops));
  }

  lemma SameReads(ctx: Context, translators: map<string, Translator>, held: map<Tensor, Content>, vs: seq<Value>)
    ensures GoodReads(ctx.(translators := translators), held, vs) <==> GoodReads(ctx, held, vs)
  {
    forall k | 0 <= k < |vs|
      ensures GoodRead(ctx.(translators := translators), held, vs[k]) == GoodRead(ctx, held, vs[k])
    {
    }
  }

  lemma UncleanIsLost(ctx: Context, dims: map<Tensor, Shape>, ops: seq<Op>)
    requires OneYield(ops) && Convert(ctx, dims, ops).Ok?
    requires SingleInputs(ctx) && ResultsHaveTensors(ctx, ops) && Topological(ctx, ops) && !Clean(ctx, ops)
    ensures !KeptFor(ctx, dims, ops, WithTags(ctx).translators, TAGGING, InputTags(ctx))
  {
    var c, ds := WithTags(ctx), InputTags(ctx);
    TagsConvert(ctx, dims, ops);
    TagsSound(ctx);
    GraphComputesStore(TAGGING, c, dims, ops, ds);
    var k := UncleanStore(ctx, ops);
    SameStore(TAGGING, ctx, ops, ds);
  }

  lemma {:induction false} SameStore(sem: Semantics<int>, ctx: Context, ops: seq<Op>, inputs: seq<int>)
    ensures RunStore(sem, WithTags(ctx), ops, InputStore(WithTags(ctx), inputs))
      == RunStore(sem, ctx, ops, InputStore(ctx, inputs))
  {
    var c := WithTags(ctx);
    if ops == [] {
      assert FirstTensors(c, ctx.inputs) == FirstTensors(ctx, ctx.inputs);
    } else {
      var k := |ops| - 1;
      SameStore(sem, ctx, ops[..k], inputs);
      if ops[k].Compute? {
        var mem := RunStore(sem, ctx, ops[..k], InputStore(ctx, inputs));
        assert FirstTensors(c, ops[k].results) == FirstTensors(ctx, ops[k].results);
        assert ReadStore(c, mem, ops[k].operands) == ReadStore(ctx, mem, ops[k].operands);
      }
    }
  }

  /** Conversion is sure to keep the meaning of a block exactly when the block is clean. */
  lemma KeptIffClean(ctx: Context, dims: map<Tensor, Shape>, ops: seq<Op>)
    requires OneYield(ops) && Convert(ctx, dims, ops).Ok?
    requires SingleInputs(ctx) && ResultsHaveTensors(ctx, ops) && Topological(ctx, ops)
    ensures AlwaysKept(ctx, dims, ops) <==> Clean(ctx, ops)
  {
    if Clean(ctx, ops) {
      forall translators: map<string, Translator>, sem: Semantics<int>, inputs: seq<int>
        | translators.Keys == ctx.translators.Keys
        ensures KeptFor(ctx, dims, ops, translators, sem, inputs)
      {
        CleanIsKept(ctx, dims, ops, translators, sem, inputs);
      }
    } else {
      UncleanIsLost(ctx, dims, ops);
      assert WithTags(ctx).translators.Keys == ctx.translators.Keys;
    }
  }
}
