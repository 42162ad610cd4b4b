/** Execution of a compiled graph: fused programs are dispatched group by group, and only group
    outputs have buffers of their own. */
module Executor {
  import opened Names
  import opened Graph
  import opened Fusion
  import opened Mil
  import opened Binding
  import opened Evaluation
  import opened Pool

  datatype PlanGroup<P> = PlanGroup(group: Group, program: Program<P>)

  /** A compiled graph.  `bufs` has one preallocated buffer per group output; `alloc` is the size of
      every input and output buffer. */
  datatype CompiledGraph<P> = CompiledGraph(
    groups: seq<PlanGroup<P>>, bufs: map<TensorId, BufId>, inputIds: seq<TensorId>, outputIds: seq<TensorId>,
    shapes: map<TensorId, Shape>, alloc: nat)

  // ----- what compilation establishes -----

  ghost predicate LoweredTo<P, V>(be: Backend<P, V>, g: Graph, pg: PlanGroup<P>) {
    && pg.group.inputs != []
    && (forall k :: 0 <= k < |pg.group.nodeIds| ==>
          pg.group.nodeIds[k] < |g.nodes| && g.nodes[pg.group.nodeIds[k]].inputs != [])
    && Compiled(be, g, pg.group) == Some(pg.program)
  }

  /** The plan is the fusion of g, lowered. */
  ghost predicate PlanOk<P, V>(be: Backend<P, V>, g: Graph, cg: CompiledGraph<P>) {
    && |cg.groups| == |Cut(g, |g.nodes|)|
    && (forall j :: 0 <= j < |cg.groups| ==>
          cg.groups[j].group == Cut(g, |g.nodes|)[j] && LoweredTo(be, g, cg.groups[j]))
    && cg.inputIds == g.inputs && cg.outputIds == g.outputs
    && (forall t :: 0 <= t < |g.tensors| ==>
          t in cg.shapes && cg.shapes[t] == g.tensors[t].shape && g.tensors[t].shape.Bytes() <= cg.alloc)
  }

  /** The buffer was acquired for a tensor of that shape. */
  predicate LaidOut<V>(b: Buffer<V>, shape: Shape) {
    b.layout == Some((shape.channels, shape.width))
  }

  /** Each group output has its own buffer of the common size, laid out for it and held by the compiled
      graph. */
  ghost predicate BuffersOk<P, V>(cg: CompiledGraph<P>, s: State<V>) {
    && (forall t :: t in cg.bufs <==> exists j :: 0 <= j < |cg.groups| && cg.groups[j].group.output == t)
    && (forall t <- cg.bufs :: cg.bufs[t] in s.lent && cg.bufs[t] in s.mem && s.mem[cg.bufs[t]].bytes == cg.alloc)
    && (forall t <- cg.bufs :: t in cg.shapes && cg.bufs[t] in s.mem && LaidOut(s.mem[cg.bufs[t]], cg.shapes[t]))
    && (forall t, u :: t in cg.bufs && u in cg.bufs && t != u ==> cg.bufs[t] != cg.bufs[u])
  }

  /** The group-output buffers are the compiled graph's to write. */
  ghost predicate OutputsLent<P, V>(cg: CompiledGraph<P>, s: State<V>) {
    forall t <- cg.bufs :: cg.bufs[t] in s.lent && cg.bufs[t] in s.mem
  }

  // ----- one dispatch -----

  /** The buffer of a group input: a temporary one if it is a graph input, else a group output's. */
  function Lookup<P>(cg: CompiledGraph<P>, tmp: map<TensorId, BufId>, t: TensorId): Option<BufId> {
    if t in tmp then Some(tmp[t]) else if t in cg.bufs then Some(cg.bufs[t]) else None
  }

  /** What a buffer holds, if it exists, has the given size and was written. */
  function Held<V>(mem: map<BufId, Buffer<V>>, b: Option<BufId>, bytes: nat): Option<V> {
    if b.Some? && b.value in mem && mem[b.value].bytes == bytes then mem[b.value].content else None
  }

  /** The surfaces of a dispatch, in group order; None if a lookup fails or the inputs do not all have the
      same allocation size. */
  function Surfaces<P, V>(cg: CompiledGraph<P>, tmp: map<TensorId, BufId>, mem: map<BufId, Buffer<V>>,
                          inputs: seq<TensorId>, bytes: nat): Option<seq<V>>
  {
    if inputs == [] then Some([])
    else
      var t := inputs[|inputs| - 1];
      match (Surfaces(cg, tmp, mem, inputs[..|inputs| - 1], bytes), Held(mem, Lookup(cg, tmp, t), bytes))
      case (Some(surfaces), Some(v)) => Some(surfaces + [v])
      case _ => None
  }

  /** The size that all inputs of a dispatch must have. */
  function FirstSize<P, V>(cg: CompiledGraph<P>, tmp: map<TensorId, BufId>, mem: map<BufId, Buffer<V>>,
                           inputs: seq<TensorId>): nat
  {
    if inputs != [] && Lookup(cg, tmp, inputs[0]).Some? && Lookup(cg, tmp, inputs[0]).value in mem
    then mem[Lookup(cg, tmp, inputs[0]).value].bytes else 0
  }

  /** What dispatching a group computes from the buffers as they are.  The runtime hands the i-th surface to
      the i-th parameter: it looks for a colon after each parameter name before it reorders surfaces, and the
      generated signatures have none. */
  function DispatchValue<P, V>(m: Meaning<P, V>, cg: CompiledGraph<P>, tmp: map<TensorId, BufId>,
                               mem: map<BufId, Buffer<V>>, pg: PlanGroup<P>): Option<V>
  {
    var inputs := pg.group.inputs;
    match Surfaces(cg, tmp, mem, inputs, FirstSize(cg, tmp, mem, inputs))
    case None => None
    case Some(surfaces) =>
      if |surfaces| == |pg.program.params| then RunProgram(m, pg.program, Positional(pg.program.params, surfaces))
      else None
  }

  /** The state after dispatching one group: its output buffer is overwritten, nothing else changes. */
  function Dispatched<P, V>(m: Meaning<P, V>, cg: CompiledGraph<P>, tmp: map<TensorId, BufId>, s: State<V>,
                            pg: PlanGroup<P>): Option<State<V>>
  {
    var o := pg.group.output;
    var v := DispatchValue(m, cg, tmp, s.mem, pg);
    if o in cg.bufs && cg.bufs[o] in s.mem && v.Some? then Some(Write(s, cg.bufs[o], v.value)) else None
  }

  /** Only the compiled graph's own buffers differ. */
  ghost predicate OthersKept<P, V>(cg: CompiledGraph<P>, before: State<V>, after: State<V>) {
    && after.mem.Keys == before.mem.Keys
    && forall b <- before.mem :: b !in cg.bufs.Values ==> after.mem[b] == before.mem[b]
  }

  /** Dispatch of one group: gathers its surfaces, runs its program, overwrites its output buffer. */
  method Dispatch<P, V>(be: Backend<P, V>, cg: CompiledGraph<P>, tmp: map<TensorId, BufId>, pg: PlanGroup<P>,
                        pool: BufferPool<V>) returns (ok: bool)
    requires pool.Valid() && OutputsLent(cg, pool.Now())
    modifies pool`mem
    ensures pool.Valid() && OutputsLent(cg, pool.Now()) && OthersKept(cg, old(pool.Now()), pool.Now())
    ensures Dispatched(be.meaning, cg, tmp, old(pool.Now()), pg) == if ok then Some(pool.Now()) else None
    ensures !ok ==> pool.Now() == old(pool.Now())
  {
    var surfaces := GatherSurfaces(cg, tmp, pg.group.inputs, pool);
    if surfaces.None? || pg.group.output !in cg.bufs { return false; }
    if |surfaces.value| != |pg.program.params| { return false; }
    match RunProgram(be.meaning, pg.program, Positional(pg.program.params, surfaces.value))
    case None => return false;
    case Some(v) =>
      pool.CopyFrom(cg.bufs[pg.group.output], v);
      return true;
  }

  /** Looks up the surfaces of a dispatch in group order. */
  method GatherSurfaces<P, V>(cg: CompiledGraph<P>, tmp: map<TensorId, BufId>, inputs: seq<TensorId>,
                              pool: BufferPool<V>) returns (r: Option<seq<V>>)
    ensures r == Surfaces(cg, tmp, pool.mem, inputs, FirstSize(cg, tmp, pool.mem, inputs))
  {
    var bytes := FirstSize(cg, tmp, pool.mem, inputs);
    var surfaces: seq<V> := [];
    for k := 0 to |inputs|
      invariant Surfaces(cg, tmp, pool.mem, inputs[..k], bytes) == Some(surfaces)
    {
      assert inputs[..k + 1][..k] == inputs[..k];
      match Held(pool.mem, Lookup(cg, tmp, inputs[k]), bytes)
      case None =>
        SurfacesStop(cg, tmp, pool.mem, inputs, k + 1, bytes);
        return None;
      case Some(v) => surfaces := surfaces + [v];
    }
    assert inputs[..|inputs|] == inputs;
    return Some(surfaces);
  }

  lemma {:induction false} SurfacesStop<P, V>(cg: CompiledGraph<P>, tmp: map<TensorId, BufId>,
                                              mem: map<BufId, Buffer<V>>, inputs: seq<TensorId>, k: nat, bytes: nat)
    requires k <= |inputs| && Surfaces(cg, tmp, mem, inputs[..k], bytes).None?
    ensures Surfaces(cg, tmp, mem, inputs, bytes).None?
    decreases |inputs|
  {
    if k == |inputs| {
      assert inputs[..k] == inputs;
    } else {
      assert inputs[..|inputs| - 1][..k] == inputs[..k];
      SurfacesStop(cg, tmp, mem, inputs[..|inputs| - 1], k, bytes);
    }
  }

  /** Every listed tensor can be looked up and its buffer holds its value. */
  ghost predicate HoldAll<P, V>(cg: CompiledGraph<P>, tmp: map<TensorId, BufId>, mem: map<BufId, Buffer<V>>,
                                vals: seq<V>, ts: seq<TensorId>)
  {
    forall k :: 0 <= k < |ts| ==>
      ts[k] < |vals| && Held(mem, Lookup(cg, tmp, ts[k]), cg.alloc) == Some(vals[ts[k]])
  }

  lemma {:induction false} SurfacesHold<P, V>(cg: CompiledGraph<P>, tmp: map<TensorId, BufId>,
                                              mem: map<BufId, Buffer<V>>, vals: seq<V>, ts: seq<TensorId>)
    requires HoldAll(cg, tmp, mem, vals, ts)
    ensures Surfaces(cg, tmp, mem, ts, cg.alloc) == Some(Pick(vals, ts))
    decreases |ts|
  {
    if ts != [] {
      var n := |ts| - 1;
      SurfacesHold(cg, tmp, mem, vals, ts[..n]);
      assert Held(mem, Lookup(cg, tmp, ts[n]), cg.alloc) == Some(vals[ts[n]]);
      assert Pick(vals, ts) == Pick(vals, ts[..n]) + [vals[ts[n]]];
    }
  }

  // ----- running all groups -----

  /** Temporary buffers hold the graph inputs and the first j groups' buffers hold their outputs. */
  ghost predicate RanTo<P, V>(g: Graph, cg: CompiledGraph<P>, tmp: map<TensorId, BufId>, s: State<V>,
                              vals: seq<V>, j: nat)
  {
    && tmp.Keys == (set t | t in g.inputs)
    && HoldAll(cg, tmp, s.mem, vals, g.inputs)
    && (forall t <- tmp :: tmp[t] in s.lent && forall u <- cg.bufs :: cg.bufs[u] != tmp[t])
    && j <= |cg.groups|
    && forall i :: 0 <= i < j ==>
         var o := cg.groups[i].group.output;
         o < |vals| && o in cg.bufs && Held(s.mem, Some(cg.bufs[o]), cg.alloc) == Some(vals[o])
  }

  /** From what the earlier groups left every lookup succeeds, and the dispatch computes the group's result. */
  lemma GroupValue<P, V>(be: Backend<P, V>, g: Graph, cg: CompiledGraph<P>, tmp: map<TensorId, BufId>, s: State<V>,
                         vals: seq<V>, j: nat, lo: nat, hi: nat)
    requires PlanOk(be, g, cg) && AllEmit(be, g) && j < |cg.groups| && |vals| == |g.tensors|
    requires MaximalRun(g, lo, hi) && Cut(g, |g.nodes|)[..j] == Cut(g, lo)
    requires Cut(g, |g.nodes|)[j] == GroupOf(g, lo, hi)
    requires RanTo(g, cg, tmp, s, vals, j)
    ensures DispatchValue(be.meaning, cg, tmp, s.mem, cg.groups[j]) == Some(GroupResult(be, g, vals, lo, hi))
  {
    assert LoweredTo(be, g, cg.groups[j]);
    GroupInputsHeld(be, g, cg, tmp, s, vals, j, lo, hi);
    SurfacesHold(cg, tmp, s.mem, vals, RunInputs(g, lo, hi));
    GroupResultRuns(be, g, vals, lo, hi);
  }

  lemma GroupInputsHeld<P, V>(be: Backend<P, V>, g: Graph, cg: CompiledGraph<P>, tmp: map<TensorId, BufId>,
                              s: State<V>, vals: seq<V>, j: nat, lo: nat, hi: nat)
    requires PlanOk(be, g, cg) && j < |cg.groups| && RanTo(g, cg, tmp, s, vals, j)
    requires MaximalRun(g, lo, hi) && Cut(g, |g.nodes|)[..j] == Cut(g, lo)
    requires RunInputs(g, lo, hi) != []
    ensures HoldAll(cg, tmp, s.mem, vals, RunInputs(g, lo, hi))
    ensures FirstSize(cg, tmp, s.mem, RunInputs(g, lo, hi)) == cg.alloc
  {
    var inputs := RunInputs(g, lo, hi);
    forall k | 0 <= k < |inputs|
      ensures inputs[k] < |vals| && Held(s.mem, Lookup(cg, tmp, inputs[k]), cg.alloc) == Some(vals[inputs[k]])
    {
      var t := inputs[k];
      GroupInputsAvailable(g, lo, hi, t);
      if t !in g.inputs {
        var i :| 0 <= i < |Cut(g, lo)| && Cut(g, lo)[i].output == t;
        assert Cut(g, |g.nodes|)[..j][i] == Cut(g, lo)[i];
        assert cg.groups[i].group == Cut(g, |g.nodes|)[i];
      }
    }
    assert Held(s.mem, Lookup(cg, tmp, inputs[0]), cg.alloc).Some?;
  }

  /** Writing the output of group j keeps everything older in place. */
  lemma AfterDispatch<P, V>(be: Backend<P, V>, g: Graph, cg: CompiledGraph<P>, tmp: map<TensorId, BufId>, s: State<V>,
                            vals: seq<V>, j: nat, v: V)
    requires WellFormed(g) && PlanOk(be, g, cg) && BuffersOk(cg, s) && j < |cg.groups| && |vals| == |g.tensors|
    requires RanTo(g, cg, tmp, s, vals, j)
    ensures var o := cg.groups[j].group.output;
            && o < |vals| && o in cg.bufs && cg.bufs[o] in s.mem
            && BuffersOk(cg, Write(s, cg.bufs[o], v))
            && RanTo(g, cg, tmp, Write(s, cg.bufs[o], v), vals[o := v], j + 1)
  {
    GroupOutputIsNodeOutput(g, j);
    var o := cg.groups[j].group.output;
    assert o in cg.bufs;
    forall i | 0 <= i < j ensures cg.groups[i].group.output != o { CutOutputsIncrease(g, |g.nodes|, i, j); }
    forall k | 0 <= k < |g.inputs| ensures g.inputs[k] != o {}
    WriteKeepsInputs(g, cg, tmp, s, vals, j, o, v);
    WriteKeepsOutputs(g, cg, tmp, s, vals, j, o, v);
  }

  lemma WriteKeepsInputs<P, V>(g: Graph, cg: CompiledGraph<P>, tmp: map<TensorId, BufId>, s: State<V>, vals: seq<V>,
                               j: nat, o: TensorId, v: V)
    requires BuffersOk(cg, s) && RanTo(g, cg, tmp, s, vals, j) && o < |vals| && o in cg.bufs
    requires forall k :: 0 <= k < |g.inputs| ==> g.inputs[k] != o
    ensures BuffersOk(cg, Write(s, cg.bufs[o], v))
    ensures HoldAll(cg, tmp, Write(s, cg.bufs[o], v).mem, vals[o := v], g.inputs)
  {
    var s' := Write(s, cg.bufs[o], v);
    forall k | 0 <= k < |g.inputs|
      ensures Held(s'.mem, Lookup(cg, tmp, g.inputs[k]), cg.alloc) == Some(vals[g.inputs[k]])
    {
      assert g.inputs[k] in tmp;
      assert Held(s.mem, Lookup(cg, tmp, g.inputs[k]), cg.alloc) == Some(vals[g.inputs[k]]);
    }
  }

  lemma WriteKeepsOutputs<P, V>(g: Graph, cg: CompiledGraph<P>, tmp: map<TensorId, BufId>, s: State<V>, vals: seq<V>,
                                j: nat, o: TensorId, v: V)
    requires BuffersOk(cg, s) && j < |cg.groups| && RanTo(g, cg, tmp, s, vals, j)
    requires o == cg.groups[j].group.output && o < |vals| && o in cg.bufs
    requires forall i :: 0 <= i < j ==> cg.groups[i].group.output != o
    ensures var s', vals' := Write(s, cg.bufs[o], v), vals[o := v];
            forall i :: 0 <= i < j + 1 ==>
              var u := cg.groups[i].group.output;
              u < |vals'| && u in cg.bufs && Held(s'.mem, Some(cg.bufs[u]), cg.alloc) == Some(vals'[u])
  {
  }

  /** j steps in order; None once a step fails. */
  function Iterate<S>(step: (S, nat) -> Option<S>, s: S, j: nat): Option<S>
    decreases j
  {
    if j == 0 then Some(s)
    else
      match Iterate(step, s, j - 1)
      case None => None
      case Some(s') => step(s', j - 1)
  }

  lemma {:induction false} IterateStops<S>(step: (S, nat) -> Option<S>, s: S, j: nat, k: nat)
    requires j <= k && Iterate(step, s, j).None?
    ensures Iterate(step, s, k).None?
    decreases k
  {
    if j < k { IterateStops(step, s, j, k - 1); }
  }

  /** What every successful step keeps holds after any number of steps, and none fails. */
  lemma {:induction false} IterateKeeps<S>(step: (S, nat) -> Option<S>, inv: (S, nat) -> bool, s: S, n: nat, j: nat)
    requires j <= n && inv(s, 0)
    requires forall s', i: nat :: i < n && inv(s', i) ==> step(s', i).Some? && inv(step(s', i).value, i + 1)
    ensures Iterate(step, s, j).Some? && inv(Iterate(step, s, j).value, j)
    decreases j
  {
    if j > 0 { IterateKeeps(step, inv, s, n, j - 1); }
  }

  /** Dispatching group i. */
  function Stepper<P, V>(m: Meaning<P, V>, cg: CompiledGraph<P>, tmp: map<TensorId, BufId>)
    : (State<V>, nat) -> Option<State<V>> {
    (s: State<V>, i: nat) => if i < |cg.groups| then Dispatched(m, cg, tmp, s, cg.groups[i]) else None
  }

  /** The state after dispatching the first j groups in order; None once a dispatch fails. */
  function RunPlan<P, V>(m: Meaning<P, V>, cg: CompiledGraph<P>, tmp: map<TensorId, BufId>, s: State<V>, j: nat)
    : Option<State<V>>
  {
    Iterate(Stepper(m, cg, tmp), s, j)
  }

  /** The first j groups, those of the first k nodes, have run from the values `base`. */
  ghost predicate StageAt<P, V>(be: Backend<P, V>, g: Graph, cg: CompiledGraph<P>, tmp: map<TensorId, BufId>,
                                base: seq<V>, s: State<V>, j: nat, k: nat)
    requires WellFormed(g) && AllEmit(be, g) && |base| == |g.tensors|
  {
    && k <= |g.nodes| && j <= |Cut(g, |g.nodes|)| && Cut(g, k) == Cut(g, |g.nodes|)[..j]
    && BuffersOk(cg, s) && RanTo(g, cg, tmp, s, SurfaceValues(be, g, base, k), j)
  }

  ghost predicate Stage<P, V>(be: Backend<P, V>, g: Graph, cg: CompiledGraph<P>, tmp: map<TensorId, BufId>,
                              base: seq<V>, s: State<V>, j: nat)
    requires WellFormed(g) && AllEmit(be, g) && |base| == |g.tensors|
  {
    exists k :: StageAt(be, g, cg, tmp, base, s, j, k)
  }

  /** Dispatching group j takes stage j to stage j + 1. */
  lemma StageAdvances<P, V>(be: Backend<P, V>, g: Graph, cg: CompiledGraph<P>, tmp: map<TensorId, BufId>,
                            base: seq<V>, s: State<V>, j: nat)
    requires WellFormed(g) && AllEmit(be, g) && PlanOk(be, g, cg) && |base| == |g.tensors| && j < |cg.groups|
    requires Stage(be, g, cg, tmp, base, s, j)
    ensures var r := Dispatched(be.meaning, cg, tmp, s, cg.groups[j]);
            r.Some? && Stage(be, g, cg, tmp, base, r.value, j + 1)
  {
    var k :| StageAt(be, g, cg, tmp, base, s, j, k);
    var lo, hi := CutAt(g, |g.nodes|, j);
    CutInjective(g, k, lo);
    RunStartOf(g, lo, hi);
    StageStep(be, g, cg, tmp, base, s, j, lo, hi);
  }

  lemma StageStep<P, V>(be: Backend<P, V>, g: Graph, cg: CompiledGraph<P>, tmp: map<TensorId, BufId>,
                        base: seq<V>, s: State<V>, j: nat, lo: nat, hi: nat)
    requires AllEmit(be, g) && PlanOk(be, g, cg) && |base| == |g.tensors| && j < |cg.groups|
    requires MaximalRun(g, lo, hi) && RunStart(g, hi - 1) == lo && Cut(g, |g.nodes|)[j] == GroupOf(g, lo, hi)
    requires StageAt(be, g, cg, tmp, base, s, j, lo)
    ensures var r := Dispatched(be.meaning, cg, tmp, s, cg.groups[j]);
            r.Some? && StageAt(be, g, cg, tmp, base, r.value, j + 1, hi)
  {
    GroupStep(be, g, cg, tmp, s, SurfaceValues(be, g, base, lo), j, lo, hi);
    CutOneMore(g, lo, hi, j);
    SurfaceStep(be, g, base, lo, hi);
  }

  lemma SurfaceStep<P, V>(be: Backend<P, V>, g: Graph, base: seq<V>, lo: nat, hi: nat)
    requires WellFormed(g) && AllEmit(be, g) && |base| == |g.tensors|
    requires lo < hi <= |g.nodes| && RunStart(g, hi - 1) == lo
    ensures g.nodes[hi - 1].output < |base|
    ensures SurfaceValues(be, g, base, hi)
         == SurfaceValues(be, g, base, lo)
              [g.nodes[hi - 1].output := GroupResult(be, g, SurfaceValues(be, g, base, lo), lo, hi)]
  {
    InputIdsInRange(g, hi - 1);
  }

  lemma GroupStep<P, V>(be: Backend<P, V>, g: Graph, cg: CompiledGraph<P>, tmp: map<TensorId, BufId>,
                        s: State<V>, vals: seq<V>, j: nat, lo: nat, hi: nat)
    requires PlanOk(be, g, cg) && AllEmit(be, g) && j < |cg.groups| && |vals| == |g.tensors|
    requires MaximalRun(g, lo, hi) && Cut(g, |g.nodes|)[..j] == Cut(g, lo)
    requires Cut(g, |g.nodes|)[j] == GroupOf(g, lo, hi)
    requires BuffersOk(cg, s) && RanTo(g, cg, tmp, s, vals, j)
    ensures g.nodes[hi - 1].output < |vals|
    ensures var r := Dispatched(be.meaning, cg, tmp, s, cg.groups[j]);
            && r.Some? && BuffersOk(cg, r.value)
            && RanTo(g, cg, tmp, r.value, vals[g.nodes[hi - 1].output := GroupResult(be, g, vals, lo, hi)], j + 1)
  {
    GroupValue(be, g, cg, tmp, s, vals, j, lo, hi);
    AfterDispatch(be, g, cg, tmp, s, vals, j, GroupResult(be, g, vals, lo, hi));
  }

  /** Dispatching group i takes stage i to stage i + 1. */
  ghost predicate Advances<P, V>(be: Backend<P, V>, g: Graph, cg: CompiledGraph<P>, tmp: map<TensorId, BufId>,
                                 base: seq<V>, s: State<V>, i: nat)
    requires WellFormed(g) && AllEmit(be, g) && |base| == |g.tensors| && i < |cg.groups|
  {
    Stage(be, g, cg, tmp, base, s, i) ==>
      var r := Dispatched(be.meaning, cg, tmp, s, cg.groups[i]);
      r.Some? && Stage(be, g, cg, tmp, base, r.value, i + 1)
  }

  lemma PlanInduction<P, V>(be: Backend<P, V>, g: Graph, cg: CompiledGraph<P>, tmp: map<TensorId, BufId>,
                            s: State<V>, base: seq<V>, j: nat)
    requires WellFormed(g) && AllEmit(be, g) && |base| == |g.tensors| && j <= |cg.groups|
    requires Stage(be, g, cg, tmp, base, s, 0)
    requires forall s': State<V>, i :: 0 <= i < |cg.groups| ==> Advances(be, g, cg, tmp, base, s', i)
    ensures var r := RunPlan(be.meaning, cg, tmp, s, j); r.Some? && Stage(be, g, cg, tmp, base, r.value, j)
  {
    ghost var inv := (s': State<V>, i: nat) => Stage(be, g, cg, tmp, base, s', i);
    var step := Stepper(be.meaning, cg, tmp);
    forall s': State<V>, i: nat | i < |cg.groups| && inv(s', i)
      ensures step(s', i).Some? && inv(step(s', i).value, i + 1)
    {
      assert Advances(be, g, cg, tmp, base, s', i);
    }
    IterateKeeps(step, inv, s, |cg.groups|, j);
  }

  /** The first j groups run, whatever the buffers held, and leave their results. */
  lemma PlanRuns<P, V>(be: Backend<P, V>, g: Graph, cg: CompiledGraph<P>,
                       tmp: map<TensorId, BufId>, s: State<V>, base: seq<V>, j: nat)
    requires WellFormed(g) && AllEmit(be, g) && PlanOk(be, g, cg) && j <= |cg.groups| && |base| == |g.tensors|
    requires Stage(be, g, cg, tmp, base, s, 0)
    ensures var r := RunPlan(be.meaning, cg, tmp, s, j); r.Some? && Stage(be, g, cg, tmp, base, r.value, j)
  {
    forall s': State<V>, i | 0 <= i < |cg.groups| ensures Advances(be, g, cg, tmp, base, s', i) {
      if Stage(be, g, cg, tmp, base, s', i) { StageAdvances(be, g, cg, tmp, base, s', i); }
    }
    PlanInduction(be, g, cg, tmp, s, base, j);
  }

  lemma FirstStage<P, V>(be: Backend<P, V>, g: Graph, cg: CompiledGraph<P>, tmp: map<TensorId, BufId>,
                         base: seq<V>, s: State<V>)
    requires WellFormed(g) && AllEmit(be, g) && |base| == |g.tensors|
    requires BuffersOk(cg, s) && RanTo(g, cg, tmp, s, base, 0)
    ensures Stage(be, g, cg, tmp, base, s, 0)
  {
    assert StageAt(be, g, cg, tmp, base, s, 0, 0);
  }

  lemma LastStage<P, V>(be: Backend<P, V>, g: Graph, cg: CompiledGraph<P>, tmp: map<TensorId, BufId>,
                        base: seq<V>, s: State<V>)
    requires WellFormed(g) && AllEmit(be, g) && PlanOk(be, g, cg) && |base| == |g.tensors|
    requires Stage(be, g, cg, tmp, base, s, |cg.groups|)
    ensures BuffersOk(cg, s) && RanTo(g, cg, tmp, s, SurfaceValues(be, g, base, |g.nodes|), |cg.groups|)
  {
    var k :| StageAt(be, g, cg, tmp, base, s, |cg.groups|, k);
    var all := Cut(g, |g.nodes|);
    assert all[..|all|] == all;
    CutInjective(g, k, |g.nodes|);
  }

  /** Running all groups leaves the outcome in the buffers of the group outputs. */
  lemma AllGroupsRun<P, V>(be: Backend<P, V>, g: Graph, cg: CompiledGraph<P>, tmp: map<TensorId, BufId>,
                           s: State<V>, ins: seq<V>)
    requires CompiledFrom(be, g, cg, s) && |ins| == |g.inputs|
    requires |Reference(be, g, ins)| == |g.tensors| && RanTo(g, cg, tmp, s, Reference(be, g, ins), 0)
    ensures var r := RunPlan(be.meaning, cg, tmp, s, |cg.groups|);
            r.Some? && BuffersOk(cg, r.value) && RanTo(g, cg, tmp, r.value, Outcome(be, g, ins), |cg.groups|)
  {
    var base := Reference(be, g, ins);
    FirstStage(be, g, cg, tmp, base, s);
    PlanRuns(be, g, cg, tmp, s, base, |cg.groups|);
    LastStage(be, g, cg, tmp, base, RunPlan(be.meaning, cg, tmp, s, |cg.groups|).value);
  }

  /** Fusion preserves meaning where it binds right.  For every well-formed graph, every backend and every
      state of the preallocated buffers: if the temporary buffers hold the inputs, then dispatching the fused
      groups in order succeeds and leaves the outcome in the buffer of each marked output that a node
      produces; and if every group that the marked outputs depend on has its input ids in decimal order,
      that is exactly the value of node-by-node evaluation. */
  lemma FusionPreservesMeaning<P, V>(be: Backend<P, V>, g: Graph, cg: CompiledGraph<P>,
                                     tmp: map<TensorId, BufId>, s: State<V>, ins: seq<V>)
    requires CompiledFrom(be, g, cg, s) && |ins| == |g.inputs|
    requires RanTo(g, cg, tmp, s, Reference(be, g, ins), 0)
    ensures |Reference(be, g, ins)| == |g.tensors|
    ensures var r := RunPlan(be.meaning, cg, tmp, s, |cg.groups|);
            && r.Some?
            && forall o <- g.outputs :: g.tensors[o].producer.Some? ==>
                 && o in cg.bufs && cg.bufs[o] in r.value.mem
                 && r.value.mem[cg.bufs[o]].content == Some(Outcome(be, g, ins)[o])
                 && (NeededInOrder(g) ==> r.value.mem[cg.bufs[o]].content == Some(Reference(be, g, ins)[o]))
  {
    ReferenceFacts(be, g, ins);
    AllGroupsRun(be, g, cg, tmp, s, ins);
    MarkedHeld(be, g, cg, tmp, RunPlan(be.meaning, cg, tmp, s, |cg.groups|).value, Outcome(be, g, ins));
    if NeededInOrder(g) { OutcomeIsReference(be, g, ins); }
  }

  lemma MarkedHeld<P, V>(be: Backend<P, V>, g: Graph, cg: CompiledGraph<P>, tmp: map<TensorId, BufId>, s: State<V>,
                         vals: seq<V>)
    requires WellFormed(g) && PlanOk(be, g, cg) && BuffersOk(cg, s) && |vals| == |g.tensors|
    requires RanTo(g, cg, tmp, s, vals, |cg.groups|)
    ensures forall o <- g.outputs :: o < |g.tensors| && (g.tensors[o].producer.Some? ==>
              o in cg.bufs && cg.bufs[o] in s.mem && s.mem[cg.bufs[o]].content == Some(vals[o]))
  {
    forall o <- g.outputs ensures o < |g.tensors| && (g.tensors[o].producer.Some? ==>
        o in cg.bufs && cg.bufs[o] in s.mem && s.mem[cg.bufs[o]].content == Some(vals[o]))
    {
      OutputsReady(be, g, cg, tmp, s, vals, o);
    }
  }

  /** The executor's loop over the groups. */
  method RunLoop<P, V>(be: Backend<P, V>, cg: CompiledGraph<P>, tmp: map<TensorId, BufId>, pool: BufferPool<V>)
    returns (ok: bool)
    requires pool.Valid() && OutputsLent(cg, pool.Now())
    modifies pool`mem
    ensures pool.Valid() && OthersKept(cg, old(pool.Now()), pool.Now())
    ensures ok <==> RunPlan(be.meaning, cg, tmp, old(pool.Now()), |cg.groups|).Some?
    ensures ok ==> RunPlan(be.meaning, cg, tmp, old(pool.Now()), |cg.groups|) == Some(pool.Now())
  {
    ghost var s0 := pool.Now();
    for j := 0 to |cg.groups|
      invariant RunPlan(be.meaning, cg, tmp, s0, j) == Some(pool.Now())
      invariant pool.Valid() && OutputsLent(cg, pool.Now()) && OthersKept(cg, s0, pool.Now())
    {
      ghost var s := pool.Now();
      var done := Dispatch(be, cg, tmp, cg.groups[j], pool);
      PlanNext(be.meaning, cg, tmp, s0, s, j);
      KeptThen(cg, s0, s, pool.Now());
      if !done { return false; }
    }
    ok := true;
  }

  lemma PlanNext<P, V>(m: Meaning<P, V>, cg: CompiledGraph<P>, tmp: map<TensorId, BufId>, s0: State<V>, s: State<V>,
                       j: nat)
    requires j < |cg.groups| && RunPlan(m, cg, tmp, s0, j) == Some(s)
    ensures RunPlan(m, cg, tmp, s0, j + 1) == Dispatched(m, cg, tmp, s, cg.groups[j])
    ensures Dispatched(m, cg, tmp, s, cg.groups[j]).None? ==> RunPlan(m, cg, tmp, s0, |cg.groups|).None?
  {
    if Dispatched(m, cg, tmp, s, cg.groups[j]).None? {
      IterateStops(Stepper(m, cg, tmp), s0, j + 1, |cg.groups|);
    }
  }

  lemma KeptThen<P, V>(cg: CompiledGraph<P>, a: State<V>, b: State<V>, c: State<V>)
    requires OthersKept(cg, a, b) && OthersKept(cg, b, c)
    ensures OthersKept(cg, a, c)
  {
  }

  // ----- a whole execution -----

  /** The temporary buffers are the pool's only loans beyond `lent0`, one per tensor. */
  ghost predicate Loans<V>(tmp: map<TensorId, BufId>, lent0: set<BufId>, s: State<V>) {
    && (forall t <- tmp :: tmp[t] in s.lent && tmp[t] in s.mem && tmp[t] !in lent0)
    && (forall t, u :: t in tmp && u in tmp && t != u ==> tmp[t] != tmp[u])
    && s.lent == lent0 + tmp.Values
  }

  /** Buffers lent before are as they were. */
  ghost predicate Untouched<V>(lent0: set<BufId>, before: State<V>, after: State<V>) {
    forall b <- lent0 :: b in before.mem && b in after.mem && after.mem[b] == before.mem[b]
  }

  /** The first i graph inputs, and only they, have a temporary buffer, which is laid out for them and holds
      their value. */
  ghost predicate Filled<V>(ids: seq<TensorId>, shapes: map<TensorId, Shape>, ins: seq<V>, tmp: map<TensorId, BufId>,
                            mem: map<BufId, Buffer<V>>, alloc: nat, i: nat)
    requires i <= |ids| == |ins|
  {
    && (forall t <- tmp :: exists k :: 0 <= k < i && ids[k] == t)
    && (forall k :: 0 <= k < i ==> ids[k] in tmp && Held(mem, Some(tmp[ids[k]]), alloc) == Some(ins[k]))
    && forall t <- tmp :: t in shapes && tmp[t] in mem && LaidOut(mem[tmp[t]], shapes[t])
  }

  /** Acquires and fills one temporary buffer per graph input. */
  method FillInputs<P, V>(cg: CompiledGraph<P>, ins: seq<V>, pool: BufferPool<V>)
    returns (ok: bool, tmp: map<TensorId, BufId>)
    requires pool.Valid() && |ins| == |cg.inputIds|
    requires forall i, j :: 0 <= i < j < |cg.inputIds| ==> cg.inputIds[i] < cg.inputIds[j]
    requires forall t <- cg.shapes :: cg.shapes[t].Ok() && cg.shapes[t].Bytes() <= cg.alloc
    modifies pool
    ensures pool.Valid() && Loans(tmp, old(pool.lent), pool.Now())
    ensures Untouched(old(pool.lent), old(pool.Now()), pool.Now())
    ensures ok <==> forall k :: 0 <= k < |cg.inputIds| ==> cg.inputIds[k] in cg.shapes
    ensures ok ==> Filled(cg.inputIds, cg.shapes, ins, tmp, pool.mem, cg.alloc, |ins|)
  {
    tmp := map[];
    ghost var lent0, s0 := pool.lent, pool.Now();
    for i := 0 to |ins|
      invariant pool.Valid() && Loans(tmp, lent0, pool.Now()) && Untouched(lent0, s0, pool.Now())
      invariant forall k :: 0 <= k < i ==> cg.inputIds[k] in cg.shapes
      invariant Filled(cg.inputIds, cg.shapes, ins, tmp, pool.mem, cg.alloc, i)
    {
      var t := cg.inputIds[i];
      if t !in cg.shapes { return false, tmp; }
      ghost var before := pool.Now();
      var b := AcquireFilled(cg.shapes[t], cg.alloc, ins[i], pool);
      FillOne(cg.inputIds, cg.shapes, ins, tmp, before, pool.Now(), cg.alloc, i, b, lent0);
      tmp := tmp[t := b];
    }
    ok := true;
  }

  lemma FillOne<V>(ids: seq<TensorId>, shapes: map<TensorId, Shape>, ins: seq<V>, tmp: map<TensorId, BufId>,
                   s: State<V>, s': State<V>, alloc: nat, i: nat, b: BufId, lent0: set<BufId>)
    requires i < |ids| == |ins| && (forall i, j :: 0 <= i < j < |ids| ==> ids[i] < ids[j])
    requires Filled(ids, shapes, ins, tmp, s.mem, alloc, i) && Loans(tmp, lent0, s)
    requires b !in s.lent && s'.lent == s.lent + {b} && Held(s'.mem, Some(b), alloc) == Some(ins[i])
    requires ids[i] in shapes && b in s'.mem && LaidOut(s'.mem[b], shapes[ids[i]])
    requires forall x <- s.lent :: x in s.mem && x in s'.mem && s'.mem[x] == s.mem[x]
    ensures Filled(ids, shapes, ins, tmp[ids[i] := b], s'.mem, alloc, i + 1) && Loans(tmp[ids[i] := b], lent0, s')
  {
    LoansGrow(tmp, lent0, s, s', ids[i], b);
    forall k | 0 <= k < i ensures Held(s'.mem, Some(tmp[ids[k]]), alloc) == Some(ins[k]) {
      assert tmp[ids[k]] in s.lent;
    }
  }

  /** Acquires a tensor buffer of the common size and fills it. */
  method AcquireFilled<V>(shape: Shape, alloc: nat, v: V, pool: BufferPool<V>) returns (b: BufId)
    requires pool.Valid() && shape.Ok() && shape.Bytes() <= alloc
    modifies pool
    ensures pool.Valid() && b !in old(pool.lent) && pool.lent == old(pool.lent) + {b}
    ensures Held(pool.mem, Some(b), alloc) == Some(v) && b in pool.mem && LaidOut(pool.mem[b], shape)
    ensures forall x <- old(pool.lent) :: x in old(pool.mem) && x in pool.mem && pool.mem[x] == old(pool.mem)[x]
  {
    assert shape.channels * shape.width * 2 == shape.Bytes();
    b := pool.GetTensor(shape.channels, shape.width, alloc);
    pool.CopyFrom(b, v);
  }

  lemma LoansGrow<V>(tmp: map<TensorId, BufId>, lent0: set<BufId>, s: State<V>, s': State<V>, t: TensorId, b: BufId)
    requires Loans(tmp, lent0, s) && t !in tmp && b !in s.lent && s'.lent == s.lent + {b} && b in s'.mem
    requires forall x <- s.lent :: x in s'.mem
    ensures Loans(tmp[t := b], lent0, s')
  {
    var tmp' := tmp[t := b];
    forall x ensures x in tmp'.Values <==> x in tmp.Values || x == b {
      if x in tmp.Values {
        var k :| k in tmp && tmp[k] == x;
        assert tmp'[k] == x;
      }
      assert tmp'[t] == b;
    }
  }

  lemma LoansShrink<V>(tmp: map<TensorId, BufId>, lent0: set<BufId>, s: State<V>, s': State<V>, t: TensorId)
    requires Loans(tmp, lent0, s) && t in tmp && s'.lent == s.lent - {tmp[t]}
    requires forall x <- s'.lent :: x in s'.mem
    ensures Loans(tmp - {t}, lent0, s')
  {
    var tmp' := tmp - {t};
    forall x ensures x in tmp'.Values <==> x in tmp.Values && x != tmp[t] {
      if x in tmp.Values && x != tmp[t] {
        var k :| k in tmp && tmp[k] == x;
        assert tmp'[k] == x;
      }
    }
  }

  method GiveBack<V>(b: BufId, pool: BufferPool<V>)
    requires pool.Valid() && b in pool.lent && b in pool.mem
    modifies pool
    ensures pool.Valid() && pool.lent == old(pool.lent) - {b}
    ensures forall x <- pool.lent :: x in pool.mem && pool.mem[x] == old(pool.mem)[x]
  {
    pool.Return(b);
  }

  /** Returns every temporary buffer to the pool. */
  method ReturnInputs<V>(tmp0: map<TensorId, BufId>, pool: BufferPool<V>, ghost lent0: set<BufId>)
    requires pool.Valid() && Loans(tmp0, lent0, pool.Now())
    requires forall b <- lent0 :: b in pool.mem
    modifies pool
    ensures pool.Valid() && pool.lent == lent0 && Untouched(lent0, old(pool.Now()), pool.Now())
  {
    var tmp := tmp0;
    ghost var s0 := pool.Now();
    while tmp != map[]
      invariant pool.Valid() && Loans(tmp, lent0, pool.Now()) && Untouched(lent0, s0, pool.Now())
      decreases tmp.Keys
    {
      var t :| t in tmp;
      ghost var before := pool.Now();
      GiveBack(tmp[t], pool);
      LoansShrink(tmp, lent0, before, pool.Now(), t);
      tmp := tmp - {t};
    }
  }

  /** cg is a compilation of g whose buffers the pool has lent to it. */
  ghost predicate CompiledFrom<P, V>(be: Backend<P, V>, g: Graph, cg: CompiledGraph<P>, s: State<V>) {
    && WellFormed(g) && AllEmit(be, g) && PlanOk(be, g, cg) && BuffersOk(cg, s)
    && forall t: TensorId :: t in cg.shapes ==> t < |g.tensors|
  }

  lemma InputsLoaded<P, V>(be: Backend<P, V>, g: Graph, cg: CompiledGraph<P>, tmp: map<TensorId, BufId>, s0: State<V>,
                           s: State<V>, ins: seq<V>)
    requires CompiledFrom(be, g, cg, s0) && |ins| == |g.inputs|
    requires Loans(tmp, s0.lent, s) && Untouched(s0.lent, s0, s)
    requires Filled(g.inputs, cg.shapes, ins, tmp, s.mem, cg.alloc, |ins|)
    ensures BuffersOk(cg, s) && RanTo(g, cg, tmp, s, Reference(be, g, ins), 0)
  {
    ReferenceFacts(be, g, ins);
    BuffersStay(cg, s0, s);
    InputsHeld(g, cg, tmp, s0, s, ins, Reference(be, g, ins));
  }

  lemma BuffersStay<P, V>(cg: CompiledGraph<P>, s0: State<V>, s: State<V>)
    requires BuffersOk(cg, s0) && Untouched(s0.lent, s0, s) && s0.lent <= s.lent
    ensures BuffersOk(cg, s)
  {
  }

  lemma InputsHeld<P, V>(g: Graph, cg: CompiledGraph<P>, tmp: map<TensorId, BufId>, s0: State<V>, s: State<V>,
                         ins: seq<V>, vals: seq<V>)
    requires |ins| == |g.inputs| && Loans(tmp, s0.lent, s)
    requires Filled(g.inputs, cg.shapes, ins, tmp, s.mem, cg.alloc, |ins|)
    requires forall t <- cg.bufs :: cg.bufs[t] in s0.lent
    requires forall k :: 0 <= k < |ins| ==> g.inputs[k] < |vals| && vals[g.inputs[k]] == ins[k]
    ensures RanTo(g, cg, tmp, s, vals, 0)
  {
  }

  /** Copies the marked outputs out; fails on one that has no buffer. */
  method ReadOutputs<P, V>(cg: CompiledGraph<P>, pool: BufferPool<V>) returns (ok: bool, outs: seq<V>)
    requires BuffersOk(cg, pool.Now())
    ensures ok <==> forall k :: 0 <= k < |cg.outputIds| ==>
                      cg.outputIds[k] in cg.bufs && pool.mem[cg.bufs[cg.outputIds[k]]].content.Some?
    ensures ok ==> |outs| == |cg.outputIds| && forall k :: 0 <= k < |outs| ==>
              Some(outs[k]) == pool.mem[cg.bufs[cg.outputIds[k]]].content
  {
    outs := [];
    for k := 0 to |cg.outputIds|
      invariant |outs| == k
      invariant forall j :: 0 <= j < k ==> cg.outputIds[j] in cg.bufs
                                           && Some(outs[j]) == pool.mem[cg.bufs[cg.outputIds[j]]].content
    {
      var t := cg.outputIds[k];
      if t !in cg.bufs || pool.mem[cg.bufs[t]].content.None? { return false, outs; }
      outs := outs + [pool.mem[cg.bufs[t]].content.value];
    }
    ok := true;
  }

  /** A marked output has a buffer, holding its reference value, exactly if a node produces it. */
  lemma OutputsReady<P, V>(be: Backend<P, V>, g: Graph, cg: CompiledGraph<P>, tmp: map<TensorId, BufId>, s: State<V>,
                           vals: seq<V>, o: TensorId)
    requires WellFormed(g) && PlanOk(be, g, cg) && BuffersOk(cg, s) && |vals| == |g.tensors|
    requires RanTo(g, cg, tmp, s, vals, |cg.groups|) && o in g.outputs
    ensures o < |g.tensors|
    ensures o in cg.bufs <==> g.tensors[o].producer.Some?
    ensures o in cg.bufs ==> s.mem[cg.bufs[o]].content == Some(vals[o])
  {
    OutputHasGroup(g, o);
    PlanOutputs(be, g, cg, o);
    OutputHeld(g, cg, tmp, s, vals, o);
  }

  /** A marked output is some group's output exactly when a node produces it. */
  lemma OutputHasGroup(g: Graph, o: TensorId)
    requires WellFormed(g) && o in g.outputs
    ensures o < |g.tensors|
    ensures g.tensors[o].producer.Some?
       <==> exists j :: 0 <= j < |Cut(g, |g.nodes|)| && Cut(g, |g.nodes|)[j].output == o
  {
    if g.tensors[o].producer.Some? { MarkedOutputsAreGroupOutputs(g, o); }
    if j :| 0 <= j < |Cut(g, |g.nodes|)| && Cut(g, |g.nodes|)[j].output == o { GroupOutputIsNodeOutput(g, j); }
  }

  lemma PlanOutputs<P, V>(be: Backend<P, V>, g: Graph, cg: CompiledGraph<P>, o: TensorId)
    requires PlanOk(be, g, cg)
    ensures (exists j :: 0 <= j < |cg.groups| && cg.groups[j].group.output == o)
       <==> (exists j :: 0 <= j < |Cut(g, |g.nodes|)| && Cut(g, |g.nodes|)[j].output == o)
  {
    if j :| 0 <= j < |cg.groups| && cg.groups[j].group.output == o { assert Cut(g, |g.nodes|)[j].output == o; }
    if j :| 0 <= j < |Cut(g, |g.nodes|)| && Cut(g, |g.nodes|)[j].output == o { assert cg.groups[j].group.output == o; }
  }

  lemma OutputHeld<P, V>(g: Graph, cg: CompiledGraph<P>, tmp: map<TensorId, BufId>, s: State<V>, vals: seq<V>,
                         o: TensorId)
    requires BuffersOk(cg, s) && RanTo(g, cg, tmp, s, vals, |cg.groups|)
    ensures o in cg.bufs ==> o < |vals| && cg.bufs[o] in s.mem && s.mem[cg.bufs[o]].content == Some(vals[o])
  {
    if o in cg.bufs { var j :| 0 <= j < |cg.groups| && cg.groups[j].group.output == o; }
  }

  /** Buffers lent to others than the compiled graph are as they were. */
  ghost predicate OtherLoansKept<P, V>(cg: CompiledGraph<P>, before: State<V>, after: State<V>) {
    forall b <- before.lent :: b in before.mem && b !in cg.bufs.Values ==>
      b in after.mem && after.mem[b] == before.mem[b]
  }

  /** Executing one compiled graph leaves another one executable. */
  lemma OtherGraphsStay<P, V>(be: Backend<P, V>, h: Graph, ch: CompiledGraph<P>, cg: CompiledGraph<P>,
                              before: State<V>, after: State<V>)
    requires CompiledFrom(be, h, ch, before) && ch.bufs.Values !! cg.bufs.Values
    requires OtherLoansKept(cg, before, after) && after.lent == before.lent
    ensures CompiledFrom(be, h, ch, after)
  {
    forall t <- ch.bufs ensures ch.bufs[t] in after.mem && after.mem[ch.bufs[t]] == before.mem[ch.bufs[t]] {
      assert ch.bufs[t] in ch.bufs.Values;
    }
  }

  /** Execution.  It succeeds exactly when the caller's counts match and every marked output is produced by
      a node.  It then returns the outcome of running the groups with surfaces bound by position, whatever
      the buffers held before; that is what node-by-node evaluation returns if every group that the marked
      outputs depend on has its input ids in decimal order.  On every exit all temporary buffers are back in
      the pool, buffers lent to others are untouched and the compiled graph can be executed again. */
  method Execute<P, V>(be: Backend<P, V>, cg: CompiledGraph<P>, ins: seq<V>, outCount: nat, pool: BufferPool<V>,
                       ghost g: Graph) returns (ok: bool, outs: seq<V>)
    requires pool.Valid() && CompiledFrom(be, g, cg, pool.Now())
    modifies pool
    ensures pool.Valid() && pool.lent == old(pool.lent) && CompiledFrom(be, g, cg, pool.Now())
    ensures OtherLoansKept(cg, old(pool.Now()), pool.Now())
    ensures ok <==> && |ins| == |g.inputs| && outCount == |g.outputs|
                    && forall k :: 0 <= k < |g.outputs| ==> g.tensors[g.outputs[k]].producer.Some?
    ensures ok ==> IsOutcome(be, g, ins, outs)
    ensures ok && NeededInOrder(g) ==> IsReference(be, g, ins, outs)
  {
    outs := [];
    if |ins| != |cg.inputIds| || outCount != |cg.outputIds| { return false, outs; }
    ghost var s0 := pool.Now();
    var tmp;
    ShapesKnown(be, g, cg, s0);
    ok, tmp := FillInputs(cg, ins, pool);
    ghost var s1 := pool.Now();
    if ok {
      ReferenceFacts(be, g, ins);
      InputsLoaded(be, g, cg, tmp, s0, s1, ins);
      ok, outs := RunAndRead(be, cg, tmp, pool, g, ins);
      if ok { OutcomeMeans(be, g, ins, outs); }
    }
    ghost var s2 := pool.Now();
    LoansStay(tmp, s0.lent, s1, s2);
    ReturnInputs(tmp, pool, s0.lent);
    LoansBack(cg, s0, s1, s2, pool.Now());
  }

  lemma OutcomeMeans<P, V>(be: Backend<P, V>, g: Graph, ins: seq<V>, outs: seq<V>)
    requires WellFormed(g) && AllEmit(be, g) && |ins| == |g.inputs| && IsOutcome(be, g, ins, outs)
    ensures NeededInOrder(g) ==> IsReference(be, g, ins, outs)
  {
    if NeededInOrder(g) {
      ReferenceFacts(be, g, ins);
      OutcomeIsReference(be, g, ins);
    }
  }

  /** What the whole call leaves alone, step by step. */
  lemma LoansBack<P, V>(cg: CompiledGraph<P>, s0: State<V>, s1: State<V>, s2: State<V>, s3: State<V>)
    requires BuffersOk(cg, s0) && Untouched(s0.lent, s0, s1)
    requires OthersKept(cg, s1, s2) && BuffersOk(cg, s2)
    requires Untouched(s0.lent, s2, s3) && s3.lent == s0.lent
    ensures BuffersOk(cg, s3) && OtherLoansKept(cg, s0, s3)
  {
  }

  /** The results are the outcome at the marked outputs. */
  ghost predicate IsOutcome<P, V>(be: Backend<P, V>, g: Graph, ins: seq<V>, outs: seq<V>)
    requires WellFormed(g) && AllEmit(be, g) && |ins| == |g.inputs|
  {
    |outs| == |g.outputs| && forall k :: 0 <= k < |outs| ==> outs[k] == Outcome(be, g, ins)[g.outputs[k]]
  }

  /** The results are what node-by-node evaluation gives the marked outputs. */
  ghost predicate IsReference<P, V>(be: Backend<P, V>, g: Graph, ins: seq<V>, outs: seq<V>)
    requires WellFormed(g) && AllEmit(be, g) && |ins| == |g.inputs|
  {
    ReferenceFacts(be, g, ins);
    |outs| == |g.outputs| && forall k :: 0 <= k < |outs| ==> outs[k] == Reference(be, g, ins)[g.outputs[k]]
  }

  lemma LoansStay<V>(tmp: map<TensorId, BufId>, lent0: set<BufId>, s: State<V>, s': State<V>)
    requires Loans(tmp, lent0, s) && s'.lent == s.lent && s.mem.Keys == s'.mem.Keys
    ensures Loans(tmp, lent0, s')
  {
  }

  lemma ShapesKnown<P, V>(be: Backend<P, V>, g: Graph, cg: CompiledGraph<P>, s: State<V>)
    requires CompiledFrom(be, g, cg, s)
    ensures forall t <- cg.shapes :: cg.shapes[t].Ok() && cg.shapes[t].Bytes() <= cg.alloc
    ensures forall k :: 0 <= k < |cg.inputIds| ==> cg.inputIds[k] in cg.shapes
  {
    forall t <- cg.shapes ensures cg.shapes[t].Ok() { assert TensorOk(g, t); }
  }

  /** Dispatches all groups and copies the outputs out. */
  method RunAndRead<P, V>(be: Backend<P, V>, cg: CompiledGraph<P>, tmp: map<TensorId, BufId>, pool: BufferPool<V>,
                          ghost g: Graph, ghost ins: seq<V>) returns (ok: bool, outs: seq<V>)
    requires CompiledFrom(be, g, cg, pool.Now()) && |ins| == |g.inputs| && pool.Valid()
    requires |Reference(be, g, ins)| == |g.tensors| && RanTo(g, cg, tmp, pool.Now(), Reference(be, g, ins), 0)
    modifies pool`mem
    ensures pool.Valid() && BuffersOk(cg, pool.Now()) && OthersKept(cg, old(pool.Now()), pool.Now())
    ensures ok <==> forall k :: 0 <= k < |g.outputs| ==> g.tensors[g.outputs[k]].producer.Some?
    ensures ok ==> IsOutcome(be, g, ins, outs)
  {
    AllGroupsRun(be, g, cg, tmp, pool.Now(), ins);  // so the loop does not fail
    var all := RunLoop(be, cg, tmp, pool);
    ok, outs := ReadReady(be, cg, tmp, pool, g, Outcome(be, g, ins));
  }

  /** Reads the outputs once all groups have run. */
  method ReadReady<P, V>(ghost be: Backend<P, V>, cg: CompiledGraph<P>, ghost tmp: map<TensorId, BufId>,
                         pool: BufferPool<V>, ghost g: Graph, ghost vals: seq<V>) returns (ok: bool, outs: seq<V>)
    requires WellFormed(g) && PlanOk(be, g, cg) && BuffersOk(cg, pool.Now()) && |vals| == |g.tensors|
    requires RanTo(g, cg, tmp, pool.Now(), vals, |cg.groups|)
    ensures ok <==> forall k :: 0 <= k < |g.outputs| ==> g.tensors[g.outputs[k]].producer.Some?
    ensures ok ==> |outs| == |g.outputs| && forall k :: 0 <= k < |outs| ==> outs[k] == vals[g.outputs[k]]
  {
    AllOutputsReady(be, g, cg, tmp, pool.Now(), vals);
    ok, outs := ReadOutputs(cg, pool);
  }

  lemma AllOutputsReady<P, V>(be: Backend<P, V>, g: Graph, cg: CompiledGraph<P>, tmp: map<TensorId, BufId>,
                              s: State<V>, vals: seq<V>)
    requires WellFormed(g) && PlanOk(be, g, cg) && BuffersOk(cg, s) && |vals| == |g.tensors|
    requires RanTo(g, cg, tmp, s, vals, |cg.groups|)
    ensures forall k :: 0 <= k < |g.outputs| ==>
              && (g.outputs[k] in cg.bufs <==> g.tensors[g.outputs[k]].producer.Some?)
              && (g.outputs[k] in cg.bufs ==> s.mem[cg.bufs[g.outputs[k]]].content == Some(vals[g.outputs[k]]))
  {
    forall k | 0 <= k < |g.outputs|
      ensures g.outputs[k] in cg.bufs <==> g.tensors[g.outputs[k]].producer.Some?
      ensures g.outputs[k] in cg.bufs ==> s.mem[cg.bufs[g.outputs[k]]].content == Some(vals[g.outputs[k]])
    {
      OutputsReady(be, g, cg, tmp, s, vals, g.outputs[k]);
    }
  }
}
