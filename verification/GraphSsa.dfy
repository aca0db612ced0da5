/**
  When the converted graph has the block's SSA meaning. In-place operations let several values share
  a tensor, so what matters is which value each tensor holds when it is read.
 */
module GraphSsa {
  import opened EngineIR
  import opened GraphCompiler
  import opened GraphMeaning
  import opened GraphLookups

  // ---------- what each tensor holds ----------

  /** A value of the block, or a result of an operation that did not read its operands' values. */
  datatype Content = Holds(value: Value) | Spoiled

  function HoldAll(vs: seq<Value>): (cs: seq<Content>)
    ensures |cs| == |vs|
  {
    seq(|vs|, k requires 0 <= k < |vs| => Holds(vs[k]))
  }

  function SpoilAll(n: nat): (cs: seq<Content>)
    ensures |cs| == n
  {
    seq(n, _ => Spoiled)
  }

  /** Reading the value from its tensor gets that value. */
  predicate GoodRead(ctx: Context, held: map<Tensor, Content>, v: Value) {
    |TensorsOf(ctx, v)| == 1 && FirstTensor(ctx, v) in held && held[FirstTensor(ctx, v)] == Holds(v)
  }

  predicate GoodReads(ctx: Context, held: map<Tensor, Content>, vs: seq<Value>) {
    forall k :: 0 <= k < |vs| ==> GoodRead(ctx, held, vs[k])
  }

  function ResultContents(ctx: Context, held: map<Tensor, Content>, op: Op): (cs: seq<Content>)
    requires op.Compute?
    ensures |cs| == |op.results|
  {
    if GoodReads(ctx, held, op.operands) then HoldAll(op.results) else SpoilAll(|op.results|)
  }

  /** What each tensor holds after the block, as far as the block alone tells. */
  function Contents(ctx: Context, ops: seq<Op>): map<Tensor, Content> {
    if ops == [] then Define(map[], FirstTensors(ctx, ctx.inputs), HoldAll(ctx.inputs))
    else
      var before, op := Contents(ctx, ops[..|ops| - 1]), ops[|ops| - 1];
      if op.Yield? then before else Define(before, FirstTensors(ctx, op.results), ResultContents(ctx, before, op))
  }

  /** Every yielded value's tensor holds it in the end. Stale reads whose results are not yielded do no harm. */
  predicate Clean(ctx: Context, ops: seq<Op>) {
    GoodReads(ctx, Contents(ctx, ops), Yielded(ops))
  }

  function InputEnv<D>(ctx: Context, inputs: seq<D>): map<Value, D> {
    Define(map[], ctx.inputs, inputs)
  }

  // ---------- the store tracks the SSA environment ----------

  /** A tensor that holds a value has the value's SSA contents. */
  ghost predicate Tracks<D>(ctx: Context, mem: map<Tensor, D>, env: map<Value, D>, held: map<Tensor, Content>) {
    && mem.Keys == held.Keys
    && forall t :: t in held && held[t].Holds? ==>
      var v := held[t].value;
      TensorsOf(ctx, v) != [] && FirstTensor(ctx, v) == t && v in env && mem[t] == env[v]
  }

  /** Results go into their tensors; those that hold their values have the SSA contents. */
  lemma {:induction false} DefineTracks<D>(ctx: Context, mem: map<Tensor, D>, env: map<Value, D>,
                                           held: map<Tensor, Content>,
                                           vs: seq<Value>, ds: seq<D>, es: seq<D>, cs: seq<Content>)
    requires Tracks(ctx, mem, env, held) && |vs| == |ds| == |es| == |cs|
    requires forall k :: 0 <= k < |vs| ==> TensorsOf(ctx, vs[k]) != []
    requires forall k :: 0 <= k < |vs| ==> cs[k] == Spoiled || (cs[k] == Holds(vs[k]) && ds[k] == es[k])
    ensures Tracks(ctx, Define(mem, FirstTensors(ctx, vs), ds), Define(env, vs, es),
      Define(held, FirstTensors(ctx, vs), cs))
  {
    if vs != [] {
      var k := |vs| - 1;
      assert FirstTensors(ctx, vs)[..k] == FirstTensors(ctx, vs[..k]);
      DefineTracks(ctx, mem, env, held, vs[..k], ds[..k], es[..k], cs[..k]);
    }
  }

  lemma ReadsTrack<D>(ctx: Context, mem: map<Tensor, D>, env: map<Value, D>, held: map<Tensor, Content>, vs: seq<Value>)
    requires Tracks(ctx, mem, env, held) && GoodReads(ctx, held, vs)
    ensures ReadStore(ctx, mem, vs) == ReadAll(env, vs)
  {
    forall k | 0 <= k < |vs| ensures ReadStore(ctx, mem, vs)[k] == ReadAll(env, vs)[k] {
      assert GoodRead(ctx, held, vs[k]);
      ReadSingle(ctx, mem, vs[k]);
    }
  }

  /** A value with one tensor reads as that tensor's contents. */
  lemma ReadSingle<D>(ctx: Context, mem: map<Tensor, D>, v: Value)
    requires |TensorsOf(ctx, v)| == 1 && FirstTensor(ctx, v) in mem
    ensures ReadTensors(mem, TensorsOf(ctx, v)) == [mem[FirstTensor(ctx, v)]]
  {
    var t := FirstTensor(ctx, v);
    assert TensorsOf(ctx, v) == [t];
    assert ReadTensors(mem, [t]) == ReadTensors(mem, []) + [mem[t]];
  }

  /** One result for each result value, in the SSA reading. */
  ghost predicate Arities<D(!new)>(sem: Semantics<D>) {
    forall op: Op, args: seq<seq<D>> :: op.Compute? ==> |sem.op(op, args)| == |op.results|
  }

  lemma {:induction false} StoreTracksSsa<D(!new)>(sem: Semantics<D>, ctx: Context, ops: seq<Op>, inputs: seq<D>)
    requires Initialised(ctx) && |inputs| == |ctx.inputs| && Arities(sem) && ResultsHaveTensors(ctx, ops)
    ensures Tracks(ctx, RunStore(sem, ctx, ops, InputStore(ctx, inputs)),
                   RunBlock(sem, ops, InputEnv(ctx, inputs)), Contents(ctx, ops))
  {
    if ops == [] {
      forall k | 0 <= k < |ctx.inputs| ensures TensorsOf(ctx, ctx.inputs[k]) != [] {
        assert HasTensor(ctx, ctx.inputs[k]);
      }
      DefineTracks(ctx, map[], map[], map[], ctx.inputs, inputs, inputs, HoldAll(ctx.inputs));
    } else {
      var k := |ops| - 1;
      StoreTracksSsa(sem, ctx, ops[..k], inputs);
      if ops[k].Compute? {
        forall i | 0 <= i < |ops[k].results| ensures TensorsOf(ctx, ops[k].results[i]) != [] {
          assert ResultTensor(ctx, ops[k].results[i]).Ok?;
        }
        StepTracks(sem, ctx, ops[k], RunStore(sem, ctx, ops[..k], InputStore(ctx, inputs)),
                   RunBlock(sem, ops[..k], InputEnv(ctx, inputs)), Contents(ctx, ops[..k]));
      }
    }
  }

  lemma StepTracks<D(!new)>(sem: Semantics<D>, ctx: Context, op: Op, mem: map<Tensor, D>, env: map<Value, D>,
                            held: map<Tensor, Content>)
    requires op.Compute? && Arities(sem) && Tracks(ctx, mem, env, held)
    requires forall i :: 0 <= i < |op.results| ==> TensorsOf(ctx, op.results[i]) != []
    ensures Tracks(ctx, StoreStep(sem, ctx, op, mem), Define(env, op.results, sem.op(op, ReadAll(env, op.operands))),
                   Define(held, FirstTensors(ctx, op.results), ResultContents(ctx, held, op)))
  {
    if GoodReads(ctx, held, op.operands) {
      ReadsTrack(ctx, mem, env, held, op.operands);
    }
    DefineTracks(ctx, mem, env, held, op.results, sem.op(op, ReadStore(ctx, mem, op.operands)),
                 sem.op(op, ReadAll(env, op.operands)), ResultContents(ctx, held, op));
  }

  /** The graph's outputs are the yielded values' SSA contents, in yield order. */
  ghost predicate GraphMeans<D>(sem: Semantics<D>, ctx: Context, dims: map<Tensor, Shape>, ops: seq<Op>, inputs: seq<D>)
    requires OneYield(ops) && Convert(ctx, dims, ops).Ok?
  {
    var p, env := Convert(ctx, dims, ops).value, RunBlock(sem, ops, InputEnv(ctx, inputs));
    && WellFormed(p.state.graph) && |p.outputs| == |Yielded(ops)|
    && forall k :: 0 <= k < |p.outputs| ==>
      && p.outputs[k] < |p.state.graph| && Yielded(ops)[k] in env
      && Eval(sem, p.state.graph, inputs)[p.outputs[k]] == Plainly(env[Yielded(ops)[k]])
  }

  /** Conversion preserves the meaning of a clean block. */
  lemma ConversionPreservesMeaning<D(!new)>(sem: Semantics<D>, ctx: Context, dims: map<Tensor, Shape>, ops: seq<Op>,
                                            inputs: seq<D>)
    requires OneYield(ops) && Sound(sem, ctx) && Arities(sem) && |inputs| == |ctx.inputs|
    requires Convert(ctx, dims, ops).Ok? && Clean(ctx, ops)
    ensures GraphMeans(sem, ctx, dims, ops, inputs)
  {
    GraphComputesStore(sem, ctx, dims, ops, inputs);
    StoreTracksSsa(sem, ctx, ops, inputs);
    var p := Convert(ctx, dims, ops).value;
    forall k | 0 <= k < |p.outputs| ensures GoodRead(ctx, Contents(ctx, ops), Yielded(ops)[k]) {
    }
  }

  // ---------- blocks without stale reads ----------

  predicate FreshOps(ctx: Context, ops: seq<Op>) {
    ops == [] ||
    (&& FreshOps(ctx, ops[..|ops| - 1])
     && (ops[|ops| - 1].Compute? ==> GoodReads(ctx, Contents(ctx, ops[..|ops| - 1]), ops[|ops| - 1].operands)))
  }

  /** Every operand when it is read, and every yielded value at the end, is still in its tensor. */
  predicate Fresh(ctx: Context, ops: seq<Op>) {
    FreshOps(ctx, ops) && Clean(ctx, ops)
  }

  /** Every value has one tensor, and no two share one. */
  predicate Unshared(ctx: Context) {
    && (forall v :: v in ctx.tensorsOf ==> |ctx.tensorsOf[v]| == 1)
    && (forall v, w :: v in ctx.tensorsOf && w in ctx.tensorsOf && v != w ==>
      ctx.tensorsOf[v][0] != ctx.tensorsOf[w][0])
  }

  lemma {:induction false} DefineUnshared(ctx: Context, held: map<Tensor, Content>, vs: seq<Value>, known: set<Value>)
    requires Unshared(ctx) && known <= ctx.tensorsOf.Keys
    requires forall k :: 0 <= k < |vs| ==> vs[k] in ctx.tensorsOf
    requires forall v :: v in known ==> GoodRead(ctx, held, v)
    ensures forall v :: v in known ==> GoodRead(ctx, Define(held, FirstTensors(ctx, vs), HoldAll(vs)), v)
    ensures GoodReads(ctx, Define(held, FirstTensors(ctx, vs), HoldAll(vs)), vs)
  {
    if vs != [] {
      var k := |vs| - 1;
      assert FirstTensors(ctx, vs)[..k] == FirstTensors(ctx, vs[..k]) && HoldAll(vs)[..k] == HoldAll(vs[..k]);
      DefineUnshared(ctx, held, vs[..k], known);
      forall i | 0 <= i < |vs| ensures GoodRead(ctx, Define(held, FirstTensors(ctx, vs), HoldAll(vs)), vs[i]) {
        if i < k {
          assert GoodRead(ctx, Define(held, FirstTensors(ctx, vs[..k]), HoldAll(vs[..k])), vs[..k][i]);
        }
      }
    }
  }

  predicate ValuesHaveTensors(ctx: Context, ops: seq<Op>) {
    && (forall k :: 0 <= k < |ctx.inputs| ==> ctx.inputs[k] in ctx.tensorsOf)
    && (forall i, k :: 0 <= i < |ops| && ops[i].Compute? && 0 <= k < |ops[i].results| ==>
          ops[i].results[k] in ctx.tensorsOf)
  }

  lemma {:induction false} DefinedAreGood(ctx: Context, ops: seq<Op>)
    requires Unshared(ctx) && ValuesHaveTensors(ctx, ops) && Topological(ctx, ops)
    ensures Defined(ctx, ops) <= ctx.tensorsOf.Keys && FreshOps(ctx, ops)
    ensures forall v :: v in Defined(ctx, ops) ==> GoodRead(ctx, Contents(ctx, ops), v)
  {
    if ops == [] {
      DefineUnshared(ctx, map[], ctx.inputs, {});
    } else {
      var k := |ops| - 1;
      DefinedAreGood(ctx, ops[..k]);
      if ops[k].Compute? {
        DefineUnshared(ctx, Contents(ctx, ops[..k]), ops[k].results, Defined(ctx, ops[..k]));
      }
    }
  }

  /** A topologically sorted block in which no two values share a tensor reads only fresh values. */
  lemma UnsharedIsFresh(ctx: Context, ops: seq<Op>)
    requires Unshared(ctx) && ValuesHaveTensors(ctx, ops) && Topological(ctx, ops)
    ensures Fresh(ctx, ops)
  {
    DefinedAreGood(ctx, ops);
    YieldedDefined(ctx, ops);
  }
}
