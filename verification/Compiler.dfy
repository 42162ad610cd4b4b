/** Compilation of a graph: validate, fuse, choose the allocation size, lower every group and
    preallocate its output buffer. */
module Compiler {
  import opened Names
  import opened Graph
  import opened Fusion
  import opened Mil
  import opened Validator
  import opened Emitters
  import opened Alloc
  import opened Pool
  import opened Executor

  /** Null is the null pointer the documentation announces for every failure; Throws is an exception
      that leaves compile. */
  datatype CompileResult<P> = Null | Throws | Done(cg: CompiledGraph<P>)

  /** How lowering the groups ends: all done, an emitter threw, or the runtime refused a program. */
  datatype Status = Lowered | Threw | Refused

  /** On this graph the emitters do what their shape checks say: those that return do so with sound code. */
  ghost predicate EmitsFor<P, V>(be: Backend<P, V>, g: Graph) {
    forall i :: 0 <= i < |g.nodes| && Passes(g, g.nodes[i]) && g.nodes[i].inputs != [] ==>
      if EmitterAccepts(g, g.nodes[i]) then EmitsSound(be, g, i) else be.emit(g, g.nodes[i]).None?
  }

  /** Lowering node i throws. */
  predicate NodeThrows(g: Graph, i: nat) {
    i < |g.nodes| && IdsKnown(g, g.nodes[i]) && g.nodes[i].inputs != [] && LoweringThrows(g, g.nodes[i])
  }

  predicate GroupThrows(g: Graph, group: Group) {
    exists k :: 0 <= k < |group.nodeIds| && NodeThrows(g, group.nodeIds[k])
  }

  /** Some group throws before the runtime refuses an earlier one. */
  ghost predicate ThrowsFirst(g: Graph, loads: nat -> bool) {
    var plan := Cut(g, |g.nodes|);
    exists j :: 0 <= j < |plan| && GroupThrows(g, plan[j]) && AllLoad(loads, j)
  }

  /** The runtime refuses some group and neither that nor an earlier one throws. */
  ghost predicate RefusedFirst(g: Graph, loads: nat -> bool) {
    var plan := Cut(g, |g.nodes|);
    exists j :: 0 <= j < |plan| && !loads(j) && NoneThrow(g, plan, j + 1)
  }

  ghost predicate AllLoad(loads: nat -> bool, j: nat) {
    forall i: nat :: i < j ==> loads(i)
  }

  /** The first j groups neither throw nor are refused. */
  ghost predicate CleanTo(g: Graph, plan: seq<Group>, loads: nat -> bool, j: nat) {
    j <= |plan| && NoneThrow(g, plan, j) && AllLoad(loads, j)
  }

  ghost predicate NoneThrow(g: Graph, plan: seq<Group>, j: nat)
    requires j <= |plan|
  {
    forall i :: 0 <= i < j ==> !GroupThrows(g, plan[i])
  }

  /** The shapes of the graph's inputs, then of its outputs. */
  ghost function IoShapes(g: Graph): seq<Shape>
    requires WellFormed(g)
  {
    ShapesOf(g, g.inputs) + ShapesOf(g, g.outputs)
  }

  function ShapesOf(g: Graph, ids: seq<TensorId>): seq<Shape>
    requires forall k :: 0 <= k < |ids| ==> ids[k] < |g.tensors|
  {
    seq(|ids|, k requires 0 <= k < |ids| => g.tensors[ids[k]].shape)
  }

  function AllShapes(g: Graph): seq<Shape> {
    seq(|g.tensors|, k requires 0 <= k < |g.tensors| => g.tensors[k].shape)
  }

  /** The first j groups are lowered. */
  ghost predicate LoweredUpTo<P, V>(be: Backend<P, V>, g: Graph, groups: seq<PlanGroup<P>>) {
    && |groups| <= |Cut(g, |g.nodes|)|
    && forall i :: 0 <= i < |groups| ==> groups[i].group == Cut(g, |g.nodes|)[i] && LoweredTo(be, g, groups[i])
  }

  /** Exactly their outputs have buffers, of the common size. */
  ghost predicate BuffersFor<P, V>(g: Graph, groups: seq<PlanGroup<P>>, bufs: map<TensorId, BufId>, alloc: nat,
                                   s: State<V>) {
    && (forall t :: t in bufs <==> exists i :: 0 <= i < |groups| && groups[i].group.output == t)
    && (forall t <- bufs :: bufs[t] in s.mem && s.mem[bufs[t]].bytes == alloc)
    && (forall t <- bufs :: t < |g.tensors| && bufs[t] in s.mem && LaidOut(s.mem[bufs[t]], g.tensors[t].shape))
  }

  /** A group of a validated graph can be handed to lowering. */
  lemma GroupReady<P, V>(be: Backend<P, V>, g: Graph, j: nat) returns (lo: nat, hi: nat)
    requires WellFormed(g) && Validated(g) && j < |Cut(g, |g.nodes|)|
    ensures MaximalRun(g, lo, hi) && Cut(g, |g.nodes|)[j] == GroupOf(g, lo, hi)
    ensures RunInputs(g, lo, hi) != []
    ensures forall k :: 0 <= k < hi - lo ==> Span(lo, hi)[k] < |g.nodes| && g.nodes[Span(lo, hi)[k]].inputs != []
  {
    lo, hi := CutAt(g, |g.nodes|, j);
    RunHasInputs(g, lo, hi);
  }

  lemma RunHasInputs(g: Graph, lo: nat, hi: nat)
    requires WellFormed(g) && Validated(g) && lo < hi <= |g.nodes|
    ensures RunInputs(g, lo, hi) != []
    ensures forall k :: 0 <= k < hi - lo ==> Span(lo, hi)[k] < |g.nodes| && g.nodes[Span(lo, hi)[k]].inputs != []
  {
    forall i | lo <= i < hi ensures g.nodes[i].inputs != [] { ValidatedNodes(g, i); }
    HeadInput(g, lo, hi);
  }

  /** A run of nodes one of which has no emitter is not lowered. */
  lemma {:induction false} BodyNeedsEmitters<P, V>(be: Backend<P, V>, g: Graph, ids: seq<nat>, first: string, k: nat)
    requires forall k :: 0 <= k < |ids| ==> ids[k] < |g.nodes| && g.nodes[ids[k]].inputs != []
    requires k < |ids| && Body(be, g, ids, first).Some?
    ensures be.emit(g, g.nodes[ids[k]]).Some?
    decreases |ids|
  {
    if k < |ids| - 1 { BodyNeedsEmitters(be, g, ids[..|ids| - 1], first, k); }
  }

  /** Every node is in some group. */
  lemma {:induction false} GroupHolding(g: Graph, k: nat, i: nat) returns (j: nat, lo: nat, hi: nat)
    requires i < k <= |g.nodes|
    ensures j < |Cut(g, k)| && lo <= i < hi <= k && Cut(g, k)[j] == GroupOf(g, lo, hi)
  {
    CutLast(g, k);
    var m := RunStart(g, k - 1);
    if m <= i {
      j, lo, hi := |Cut(g, k)| - 1, m, k;
    } else {
      j, lo, hi := GroupHolding(g, m, i);
      assert Cut(g, k)[j] == Cut(g, k)[..|Cut(g, k)| - 1][j];
    }
  }

  /** Node i's emitter returns, with sound code, exactly when lowering it does not throw. */
  lemma EmitsExactly<P, V>(be: Backend<P, V>, g: Graph, i: nat)
    requires WellFormed(g) && Validated(g) && EmitsFor(be, g) && i < |g.nodes|
    ensures g.nodes[i].inputs != []
    ensures be.emit(g, g.nodes[i]).Some? <==> !NodeThrows(g, i)
    ensures !NodeThrows(g, i) ==> EmitsSound(be, g, i)
  {
    assert Passes(g, g.nodes[i]);
    ThrowsExactly(g, i);
  }

  lemma NoThrowMeansAllEmit<P, V>(be: Backend<P, V>, g: Graph)
    requires WellFormed(g) && Validated(g) && EmitsFor(be, g) && forall i :: 0 <= i < |g.nodes| ==> !NodeThrows(g, i)
    ensures AllEmit(be, g)
  {
    forall i | 0 <= i < |g.nodes| ensures EmitsSound(be, g, i) { EmitsExactly(be, g, i); }
  }

  /** A run is lowered exactly when lowering none of its nodes throws. */
  lemma RunCompilesIff<P, V>(be: Backend<P, V>, g: Graph, lo: nat, hi: nat)
    requires WellFormed(g) && Validated(g) && EmitsFor(be, g) && lo < hi <= |g.nodes| && RunInputs(g, lo, hi) != []
    requires forall k :: 0 <= k < hi - lo ==> Span(lo, hi)[k] < |g.nodes| && g.nodes[Span(lo, hi)[k]].inputs != []
    ensures Compiled(be, g, GroupOf(g, lo, hi)).None? <==> GroupThrows(g, GroupOf(g, lo, hi))
  {
    var ids := Span(lo, hi);
    forall i | lo <= i < hi
      ensures g.nodes[i].inputs != [] && (be.emit(g, g.nodes[i]).Some? <==> !NodeThrows(g, i))
    {
      EmitsExactly(be, g, i);
    }
    if Compiled(be, g, GroupOf(g, lo, hi)).Some? {
      forall k | 0 <= k < |ids| ensures !NodeThrows(g, ids[k]) {
        BodyNeedsEmitters(be, g, ids, TensorVar(RunInputs(g, lo, hi)[0]), k);
      }
    } else {
      CompilesOrThrows(be, g, lo, hi);
    }
  }

  lemma CompilesOrThrows<P, V>(be: Backend<P, V>, g: Graph, lo: nat, hi: nat)
    requires lo < hi <= |g.nodes| && RunInputs(g, lo, hi) != []
    requires forall i :: lo <= i < hi ==>
               g.nodes[i].inputs != [] && (be.emit(g, g.nodes[i]).Some? <==> !NodeThrows(g, i))
    ensures GroupThrows(g, GroupOf(g, lo, hi)) || Compiled(be, g, GroupOf(g, lo, hi)).Some?
  {
    if forall i :: lo <= i < hi ==> !NodeThrows(g, i) {
      RunLowers(be, g, lo, hi);
    } else {
      var i :| lo <= i < hi && NodeThrows(g, i);
      assert Span(lo, hi)[i - lo] == i;
    }
  }

  /** Some group throws exactly when some node does. */
  lemma SomeGroupThrows(g: Graph)
    ensures (exists j :: 0 <= j < |Cut(g, |g.nodes|)| && GroupThrows(g, Cut(g, |g.nodes|)[j]))
       <==> (exists i :: 0 <= i < |g.nodes| && NodeThrows(g, i))
  {
    var plan := Cut(g, |g.nodes|);
    if i :| 0 <= i < |g.nodes| && NodeThrows(g, i) {
      var j, lo, hi := GroupHolding(g, |g.nodes|, i);
      assert plan[j].nodeIds[i - lo] == i;
      assert GroupThrows(g, plan[j]);
    }
  }

  /** Destroys the buffers of an abandoned compilation. */
  method DropAll<V>(bufs0: map<TensorId, BufId>, pool: BufferPool<V>, ghost lent0: set<BufId>)
    requires pool.Valid() && Loans(bufs0, lent0, pool.Now())
    modifies pool
    ensures pool.Valid() && pool.lent == lent0 && Untouched(lent0, old(pool.Now()), pool.Now())
  {
    var bufs := bufs0;
    ghost var s0 := pool.Now();
    while bufs != map[]
      invariant pool.Valid() && Loans(bufs, lent0, pool.Now()) && Untouched(lent0, s0, pool.Now())
      decreases bufs.Keys
    {
      var t :| t in bufs;
      ghost var before := pool.Now();
      pool.Drop(bufs[t]);
      LoansShrink(bufs, lent0, before, pool.Now(), t);
      bufs := bufs - {t};
    }
  }

  lemma BuffersGrow<P, V>(g: Graph, groups: seq<PlanGroup<P>>, bufs: map<TensorId, BufId>, alloc: nat,
                          lent0: set<BufId>, s: State<V>, s': State<V>, pg: PlanGroup<P>, b: BufId)
    requires Loans(bufs, lent0, s) && BuffersFor(g, groups, bufs, alloc, s)
    requires forall i :: 0 <= i < |groups| ==> groups[i].group.output != pg.group.output
    requires b !in s.lent && s'.lent == s.lent + {b} && b in s'.mem && s'.mem[b].bytes == alloc
    requires pg.group.output < |g.tensors| && LaidOut(s'.mem[b], g.tensors[pg.group.output].shape)
    requires forall x <- s.lent :: x in s.mem && x in s'.mem && s'.mem[x] == s.mem[x]
    ensures Loans(bufs[pg.group.output := b], lent0, s')
    ensures BuffersFor(g, groups + [pg], bufs[pg.group.output := b], alloc, s')
  {
    LoansGrow(bufs, lent0, s, s', pg.group.output, b);
    OutputsGrow(groups, bufs, pg, b);
  }

  lemma OutputsAreNew<P, V>(be: Backend<P, V>, g: Graph, groups: seq<PlanGroup<P>>)
    requires WellFormed(g) && LoweredUpTo(be, g, groups) && |groups| < |Cut(g, |g.nodes|)|
    ensures forall i :: 0 <= i < |groups| ==> groups[i].group.output != Cut(g, |g.nodes|)[|groups|].output
  {
    forall i | 0 <= i < |groups| ensures groups[i].group.output != Cut(g, |g.nodes|)[|groups|].output {
      CutOutputsIncrease(g, |g.nodes|, i, |groups|);
    }
  }

  lemma OutputsGrow<P>(groups: seq<PlanGroup<P>>, bufs: map<TensorId, BufId>, pg: PlanGroup<P>, b: BufId)
    requires forall t :: t in bufs <==> exists i :: 0 <= i < |groups| && groups[i].group.output == t
    ensures var more, bufs' := groups + [pg], bufs[pg.group.output := b];
            forall t :: t in bufs' <==> exists i :: 0 <= i < |more| && more[i].group.output == t
  {
    var more, bufs' := groups + [pg], bufs[pg.group.output := b];
    assert more[|groups|] == pg;
    forall t | t in bufs' ensures exists i :: 0 <= i < |more| && more[i].group.output == t {
      if t != pg.group.output {
        var i :| 0 <= i < |groups| && groups[i].group.output == t;
        assert more[i].group.output == t;
      }
    }
  }

  lemma OutputShape(g: Graph, j: nat, shapes: seq<Shape>, alloc: nat)
    requires WellFormed(g) && j < |Cut(g, |g.nodes|)| && shapes == AllShapes(g) && Candidate(alloc, shapes)
    ensures var o := Cut(g, |g.nodes|)[j].output;
            o < |g.tensors| && g.tensors[o].shape.Ok() && g.tensors[o].shape.Bytes() <= alloc
  {
    GroupOutputIsNodeOutput(g, j);
    var o := Cut(g, |g.nodes|)[j].output;
    assert TensorOk(g, o) && shapes[o] == g.tensors[o].shape;
  }

  /** Lowers all groups and preallocates their buffers; stops at the first emitter that throws and at the
      first program the runtime refuses. */
  method LowerAll<P, V>(be: Backend<P, V>, g: Graph, plan: seq<Group>, loads: nat -> bool, alloc: nat,
                        pool: BufferPool<V>)
    returns (status: Status, groups: seq<PlanGroup<P>>, bufs: map<TensorId, BufId>)
    requires WellFormed(g) && Validated(g) && EmitsFor(be, g) && plan == Cut(g, |g.nodes|)
    requires Candidate(alloc, AllShapes(g)) && pool.Valid()
    modifies pool
    ensures pool.Valid() && Loans(bufs, old(pool.lent), pool.Now())
    ensures Untouched(old(pool.lent), old(pool.Now()), pool.Now())
    ensures status.Threw? <==> ThrowsFirst(g, loads)
    ensures status.Refused? <==> RefusedFirst(g, loads)
    ensures status.Lowered? ==> BuffersFor(g, groups, bufs, alloc, pool.Now())
    ensures status.Lowered? ==> |groups| == |plan| && LoweredUpTo(be, g, groups) && NoneThrow(g, plan, |plan|)
  {
    status, groups, bufs := LowerLoop(be, g, plan, loads, alloc, pool);
    HowItEnds(g, plan, loads, |groups|, status);
  }

  method LowerLoop<P, V>(be: Backend<P, V>, g: Graph, plan: seq<Group>, loads: nat -> bool, alloc: nat,
                         pool: BufferPool<V>)
    returns (status: Status, groups: seq<PlanGroup<P>>, bufs: map<TensorId, BufId>)
    requires WellFormed(g) && Validated(g) && EmitsFor(be, g) && plan == Cut(g, |g.nodes|)
    requires Candidate(alloc, AllShapes(g)) && pool.Valid()
    modifies pool
    ensures pool.Valid() && LoweredUpTo(be, g, groups) && CleanTo(g, plan, loads, |groups|)
    ensures StoppedAt(g, plan, loads, |groups|, status) && (status.Lowered? ==> |groups| == |plan|)
    ensures Loans(bufs, old(pool.lent), pool.Now()) && BuffersFor(g, groups, bufs, alloc, pool.Now())
    ensures Untouched(old(pool.lent), old(pool.Now()), pool.Now())
  {
    groups, bufs, status := [], map[], Lowered;
    ghost var lent0, s0 := pool.lent, pool.Now();
    NothingLowered(be, g, plan, loads, groups, bufs, alloc, pool.Now());
    while |groups| < |plan| && status.Lowered?
      invariant pool.Valid() && LoweredUpTo(be, g, groups) && CleanTo(g, plan, loads, |groups|)
      invariant StoppedAt(g, plan, loads, |groups|, status)
      invariant Loans(bufs, lent0, pool.Now()) && BuffersFor(g, groups, bufs, alloc, pool.Now())
      invariant Untouched(lent0, s0, pool.Now())
      decreases |plan| - |groups|, status.Lowered?
    {
      status, groups, bufs := LowerNext(be, g, plan, loads, alloc, groups, bufs, pool, lent0);
    }
  }

  lemma NothingLowered<P, V>(be: Backend<P, V>, g: Graph, plan: seq<Group>, loads: nat -> bool,
                             groups: seq<PlanGroup<P>>, bufs: map<TensorId, BufId>, alloc: nat, s: State<V>)
    requires groups == [] && bufs == map[] && Ok(s)
    ensures LoweredUpTo(be, g, groups) && CleanTo(g, plan, loads, |groups|)
    ensures Loans(bufs, s.lent, s) && BuffersFor(g, groups, bufs, alloc, s) && Untouched(s.lent, s, s)
  {
  }

  /** Why lowering stopped before group j, if it did. */
  ghost predicate StoppedAt(g: Graph, plan: seq<Group>, loads: nat -> bool, j: nat, status: Status) {
    match status
    case Lowered => true
    case Threw => j < |plan| && GroupThrows(g, plan[j])
    case Refused => j < |plan| && !GroupThrows(g, plan[j]) && !loads(j)
  }

  lemma HowItEnds(g: Graph, plan: seq<Group>, loads: nat -> bool, j: nat, status: Status)
    requires plan == Cut(g, |g.nodes|) && CleanTo(g, plan, loads, j)
    requires StoppedAt(g, plan, loads, j, status) && (status.Lowered? ==> j == |plan|)
    ensures status.Threw? <==> ThrowsFirst(g, loads)
    ensures status.Refused? <==> RefusedFirst(g, loads)
  {
    if k :| 0 <= k < |plan| && GroupThrows(g, plan[k]) && AllLoad(loads, k) {
      assert k >= j;
    }
    if k :| 0 <= k < |plan| && !loads(k) && NoneThrow(g, plan, k + 1) {
      assert k >= j;
    }
    if status.Refused? { assert NoneThrow(g, plan, j + 1); }
  }

  /** Lowers the next group and acquires its output buffer, unless lowering throws or the runtime refuses. */
  method LowerNext<P, V>(be: Backend<P, V>, g: Graph, plan: seq<Group>, loads: nat -> bool, alloc: nat,
                         groups0: seq<PlanGroup<P>>, bufs0: map<TensorId, BufId>, pool: BufferPool<V>,
                         ghost lent0: set<BufId>)
    returns (status: Status, groups: seq<PlanGroup<P>>, bufs: map<TensorId, BufId>)
    requires WellFormed(g) && Validated(g) && EmitsFor(be, g) && plan == Cut(g, |g.nodes|)
    requires Candidate(alloc, AllShapes(g)) && pool.Valid()
    requires LoweredUpTo(be, g, groups0) && |groups0| < |plan| && CleanTo(g, plan, loads, |groups0|)
    requires Loans(bufs0, lent0, pool.Now()) && BuffersFor(g, groups0, bufs0, alloc, pool.Now())
    modifies pool
    ensures pool.Valid() && LoweredUpTo(be, g, groups) && CleanTo(g, plan, loads, |groups|)
    ensures Loans(bufs, lent0, pool.Now()) && BuffersFor(g, groups, bufs, alloc, pool.Now())
    ensures Untouched(lent0, old(pool.Now()), pool.Now())
    ensures StoppedAt(g, plan, loads, |groups|, status)
    ensures |groups| == |groups0| + if status.Lowered? then 1 else 0
  {
    var j := |groups0|;
    var program := LowerGroup(be, g, plan, j);
    if program.None? { return Threw, groups0, bufs0; }
    if !loads(j) { return Refused, groups0, bufs0; }
    groups, bufs := KeepGroup(be, g, plan, PlanGroup(plan[j], program.value), alloc, groups0, bufs0, pool, lent0);
    CleanNext(g, plan, loads, j);
    status := Lowered;
  }

  lemma CleanNext(g: Graph, plan: seq<Group>, loads: nat -> bool, j: nat)
    requires CleanTo(g, plan, loads, j) && j < |plan| && !GroupThrows(g, plan[j]) && loads(j)
    ensures CleanTo(g, plan, loads, j + 1)
  {
  }

  /** Appends a loaded group and its output buffer. */
  method KeepGroup<P, V>(be: Backend<P, V>, g: Graph, ghost plan: seq<Group>, pg: PlanGroup<P>, alloc: nat,
                         groups0: seq<PlanGroup<P>>, bufs0: map<TensorId, BufId>, pool: BufferPool<V>,
                         ghost lent0: set<BufId>)
    returns (groups: seq<PlanGroup<P>>, bufs: map<TensorId, BufId>)
    requires WellFormed(g) && plan == Cut(g, |g.nodes|) && Candidate(alloc, AllShapes(g)) && pool.Valid()
    requires LoweredUpTo(be, g, groups0) && |groups0| < |plan|
    requires pg.group == plan[|groups0|] && LoweredTo(be, g, pg)
    requires Loans(bufs0, lent0, pool.Now()) && BuffersFor(g, groups0, bufs0, alloc, pool.Now())
    modifies pool
    ensures pool.Valid() && groups == groups0 + [pg] && LoweredUpTo(be, g, groups)
    ensures Loans(bufs, lent0, pool.Now()) && BuffersFor(g, groups, bufs, alloc, pool.Now())
    ensures Untouched(lent0, old(pool.Now()), pool.Now())
  {
    OutputShape(g, |groups0|, AllShapes(g), alloc);
    OutputsAreNew(be, g, groups0);
    LoweredMore(be, g, groups0, pg);
    bufs := AddBuffer(g, g.tensors[pg.group.output].shape, alloc, groups0, bufs0, pg, pool, lent0);
    groups := groups0 + [pg];
  }

  lemma LoweredMore<P, V>(be: Backend<P, V>, g: Graph, groups: seq<PlanGroup<P>>, pg: PlanGroup<P>)
    requires LoweredUpTo(be, g, groups) && |groups| < |Cut(g, |g.nodes|)|
    requires pg.group == Cut(g, |g.nodes|)[|groups|] && LoweredTo(be, g, pg)
    ensures LoweredUpTo(be, g, groups + [pg])
  {
  }

  /** Acquires the output buffer of the next group. */
  method AddBuffer<P, V>(ghost g: Graph, shape: Shape, alloc: nat, ghost groups: seq<PlanGroup<P>>,
                         bufs0: map<TensorId, BufId>, pg: PlanGroup<P>, pool: BufferPool<V>, ghost lent0: set<BufId>)
    returns (bufs: map<TensorId, BufId>)
    requires pool.Valid() && shape.Ok() && shape.Bytes() <= alloc
    requires pg.group.output < |g.tensors| && shape == g.tensors[pg.group.output].shape
    requires Loans(bufs0, lent0, pool.Now()) && BuffersFor(g, groups, bufs0, alloc, pool.Now())
    requires forall i :: 0 <= i < |groups| ==> groups[i].group.output != pg.group.output
    modifies pool
    ensures pool.Valid() && Loans(bufs, lent0, pool.Now()) && BuffersFor(g, groups + [pg], bufs, alloc, pool.Now())
    ensures Untouched(lent0, old(pool.Now()), pool.Now())
  {
    ghost var before := pool.Now();
    var b := AcquireTensor(shape, alloc, pool);
    BuffersGrow(g, groups, bufs0, alloc, lent0, before, pool.Now(), pg, b);
    bufs := bufs0[pg.group.output := b];
  }

  /** Lowers one group of the plan; None if an emitter throws. */
  method LowerGroup<P, V>(be: Backend<P, V>, g: Graph, plan: seq<Group>, j: nat) returns (program: Option<Program<P>>)
    requires WellFormed(g) && Validated(g) && EmitsFor(be, g) && plan == Cut(g, |g.nodes|) && j < |plan|
    ensures program.None? <==> GroupThrows(g, plan[j])
    ensures program.Some? ==> LoweredTo(be, g, PlanGroup(plan[j], program.value))
  {
    ghost var lo, hi := GroupReady(be, g, j);
    program := CompileGroup(be, g, plan[j]);
    RunCompilesIff(be, g, lo, hi);
  }

  /** A tensor buffer of exactly the common size. */
  method AcquireTensor<V>(shape: Shape, alloc: nat, pool: BufferPool<V>) returns (b: BufId)
    requires pool.Valid() && shape.Ok() && shape.Bytes() <= alloc
    modifies pool
    ensures pool.Valid() && b !in old(pool.lent) && pool.lent == old(pool.lent) + {b}
    ensures b in pool.mem && pool.mem[b].bytes == alloc && LaidOut(pool.mem[b], shape)
    ensures forall x <- old(pool.lent) :: x in old(pool.mem) && x in pool.mem && pool.mem[x] == old(pool.mem)[x]
  {
    assert shape.channels * shape.width * 2 == shape.Bytes();
    b := pool.GetTensor(shape.channels, shape.width, alloc);
  }

  /** Compilation.  `available` says whether the hardware is there, `loads(j)` whether the runtime turns
      the program of group j into a loaded one.  It returns null exactly when validation fails, the
      hardware is absent or the runtime refuses a group before one throws; the exception leaves compile
      exactly when a group throws before one is refused; otherwise it delivers a faithful compiled graph.
      With a runtime that refuses nothing, it throws exactly on the validated graphs that hold a node
      whose lowering throws.  Buffers lent before are untouched. */
  method Compile<P, V>(be: Backend<P, V>, g: Graph, available: bool, loads: nat -> bool, pool: BufferPool<V>)
    returns (r: CompileResult<P>)
    requires WellFormed(g) && EmitsFor(be, g) && pool.Valid()
    modifies pool
    ensures pool.Valid()
    ensures r.Null? <==> !Validated(g) || !available || RefusedFirst(g, loads)
    ensures r.Throws? <==> Validated(g) && available && ThrowsFirst(g, loads)
    ensures (forall j :: loads(j)) ==>
              && (r.Null? <==> !Validated(g) || !available)
              && (r.Throws? <==> Validated(g) && available && exists i :: 0 <= i < |g.nodes| && NodeThrows(g, i))
    ensures r.Done? ==> CompiledFrom(be, g, r.cg, pool.Now()) && Chosen(r.cg.alloc, AllShapes(g), IoShapes(g))
                        && pool.lent == old(pool.lent) + r.cg.bufs.Values
    ensures !r.Done? ==> pool.lent == old(pool.lent)
    ensures Untouched(old(pool.lent), old(pool.Now()), pool.Now())
  {
    SomeGroupThrows(g);
    var ok := Validate(g);
    if !ok || !available { return Null; }
    var plan := ComputeGroups(g);
    ghost var lent0 := pool.lent;
    var shapes := map t: TensorId | 0 <= t < |g.tensors| :: g.tensors[t].shape;
    var alloc := AllocFor(g);
    var status, groups, bufs := LowerAll(be, g, plan, loads, alloc, pool);
    if !status.Lowered? {
      DropAll(bufs, pool, lent0);
      return if status.Threw? then Throws else Null;
    }
    NoThrowMeansAllEmit(be, g);
    var cg := CompiledGraph(groups, bufs, g.inputs, g.outputs, shapes, alloc);
    PlanBuilt(be, g, cg, lent0, pool.Now());
    r := Done(cg);
  }

  method AllocFor(g: Graph) returns (alloc: nat)
    requires WellFormed(g)
    ensures Chosen(alloc, AllShapes(g), IoShapes(g))
  {
    var all, ins, outs := AllShapes(g), ShapesOf(g, g.inputs), ShapesOf(g, g.outputs);
    forall k | 0 <= k < |all| ensures all[k].Ok() { assert TensorOk(g, k); }
    forall k | 0 <= k < |ins + outs| ensures (ins + outs)[k] in all {
      if k < |ins| {
        assert all[g.inputs[k]] == ins[k];
      } else {
        assert all[g.outputs[k - |ins|]] == outs[k - |ins|];
      }
    }
    alloc := ChooseAlloc(all, ins, outs);
  }

  lemma PlanBuilt<P, V>(be: Backend<P, V>, g: Graph, cg: CompiledGraph<P>, lent0: set<BufId>, s: State<V>)
    requires WellFormed(g) && AllEmit(be, g) && Candidate(cg.alloc, AllShapes(g))
    requires LoweredUpTo(be, g, cg.groups) && |cg.groups| == |Cut(g, |g.nodes|)|
    requires Loans(cg.bufs, lent0, s) && BuffersFor(g, cg.groups, cg.bufs, cg.alloc, s)
    requires cg.inputIds == g.inputs && cg.outputIds == g.outputs
    requires cg.shapes == map t: TensorId | 0 <= t < |g.tensors| :: g.tensors[t].shape
    ensures CompiledFrom(be, g, cg, s)
  {
    BuffersBuilt(g, cg, lent0, s);
    forall t | 0 <= t < |g.tensors| ensures g.tensors[t].shape.Bytes() <= cg.alloc {
      assert AllShapes(g)[t] == g.tensors[t].shape;
    }
  }

  lemma BuffersBuilt<P, V>(g: Graph, cg: CompiledGraph<P>, lent0: set<BufId>, s: State<V>)
    requires Loans(cg.bufs, lent0, s) && BuffersFor(g, cg.groups, cg.bufs, cg.alloc, s)
    requires cg.shapes == map t: TensorId | 0 <= t < |g.tensors| :: g.tensors[t].shape
    ensures BuffersOk(cg, s)
  {
  }
}
