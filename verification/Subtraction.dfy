/** One SUB of two of n inputs, through the whole pipeline: what it yields and when that is right. */
module Subtraction {
  import opened Names
  import opened Sequences
  import opened Graph
  import opened Fusion
  import opened Mil
  import opened Validator
  import opened Binding
  import opened NameOrder
  import opened Evaluation
  import opened Witnesses

  // ----- the graph -----

  function InputCalls(n: nat, s: Shape): seq<Call> {
    if n == 0 then [] else InputCalls(n - 1, s) + [AddInput("x", s)]
  }

  /** n inputs of one shape, the difference of inputs x and y, marked. */
  function SubCalls(n: nat, s: Shape, x: nat, y: nat): seq<Call> {
    InputCalls(n, s) + [AddOp(Sub, [x, y], s, [])] + [MarkOutput(n, "")]
  }

  ghost predicate SubOf(g: Graph, n: nat, x: nat, y: nat) {
    && WellFormed(g) && |g.nodes| == 1 && |g.tensors| == n + 1 && x < n && y < n
    && |g.inputs| == n && (forall k :: 0 <= k < n ==> g.inputs[k] == k) && g.outputs == [n]
    && g.nodes[0].inputs == [x, y] && g.nodes[0].output == n
  }

  /** n inputs and nothing else. */
  ghost predicate InputsOnly(g: Graph, n: nat, s: Shape) {
    && |g.tensors| == |g.inputs| == n && g.nodes == [] && g.outputs == []
    && forall t :: 0 <= t < n ==> g.tensors[t].shape == s && g.inputs[t] == t
  }

  lemma {:induction false} InputsBuilt(n: nat, s: Shape)
    requires s.Ok()
    ensures InputsOnly(Built(InputCalls(n, s)), n, s)
  {
    if n > 0 {
      InputsBuilt(n - 1, s);
      BuiltLast(InputCalls(n - 1, s), AddInput("x", s));
      OneMoreInput(Built(InputCalls(n - 1, s)), n - 1, s);
    }
  }

  lemma OneMoreInput(g: Graph, n: nat, s: Shape)
    requires s.Ok() && InputsOnly(g, n, s)
    ensures InputsOnly(After(g, AddInput("x", s)), n + 1, s)
  {
  }

  /** Every such graph can be built and passes validation. */
  lemma SubBuilt(n: nat, s: Shape, x: nat, y: nat)
    requires s.Ok() && x < n && y < n
    ensures SubOf(Built(SubCalls(n, s, x, y)), n, x, y) && Validated(Built(SubCalls(n, s, x, y)))
  {
    var calls, op, mark := InputCalls(n, s), AddOp(Sub, [x, y], s, []), MarkOutput(n, "");
    InputsBuilt(n, s);
    BuiltLast(calls, op);
    BuiltLast(calls + [op], mark);
    SubGraph(Built(calls), n, s, x, y);
    BuiltIsWellFormed(calls + [op] + [mark]);
    SubPasses(Built(calls + [op] + [mark]), n, s);
    PassesValidation(calls + [op] + [mark]);
  }

  lemma SubGraph(g: Graph, n: nat, s: Shape, x: nat, y: nat)
    requires s.Ok() && x < n && y < n && InputsOnly(g, n, s)
    ensures var h := After(After(g, AddOp(Sub, [x, y], s, [])), MarkOutput(n, ""));
            && |h.tensors| == n + 1 && |h.nodes| == 1 && h.inputs == g.inputs && h.outputs == [n]
            && h.nodes[0].op == Sub && h.nodes[0].inputs == [x, y] && h.nodes[0].output == n && h.nodes[0].weights == []
            && forall t :: 0 <= t <= n ==> h.tensors[t].shape == s
  {
    assert [x, y][0] == x && [x, y][1] == y;
    assert Accepts(g, AddOp(Sub, [x, y], s, []));
  }

  lemma SubPasses(g: Graph, n: nat, s: Shape)
    requires |g.tensors| == n + 1 && |g.nodes| == 1 && forall t :: 0 <= t <= n ==> g.tensors[t].shape == s
    requires g.nodes[0].op == Sub && |g.nodes[0].inputs| == 2 && g.nodes[0].output == n && g.nodes[0].weights == []
    requires g.nodes[0].inputs[0] < n && g.nodes[0].inputs[1] < n
    ensures Passes(g, g.nodes[0])
  {
  }

  // ----- its meaning -----

  /** A backend whose only op subtracts integers. */
  function Subtractor(): Backend<(), int> {
    Backend((g, n) => Some([Apply(Out, (), [In(0), In(1)])]),
            Meaning((p, args: seq<int>) => if |args| == 2 then args[0] - args[1] else 0, blob => 0))
  }

  lemma SubSound(g: Graph)
    requires |g.nodes| == 1 && |g.nodes[0].inputs| == 2
    ensures EmitsSound(Subtractor(), g, 0) && AllEmit(Subtractor(), g)
  {
    var be, n := Subtractor(), g.nodes[0];
    var s: Stmt<Var, nat, ()> := Apply(Out, (), [In(0), In(1)]);
    assert be.emit(g, n) == Some([s]) && [s][1..] == [];
  }

  lemma SubRuns(files: map<nat, Blob>, args: seq<int>)
    requires |args| == 2
    ensures Run(Subtractor().meaning, files, [Apply(Out, (), [In(0), In(1)])], InputEnv(args))
         == Some(InputEnv(args)[Out := args[0] - args[1]])
  {
    var s: Stmt<Var, nat, ()> := Apply(Out, (), [In(0), In(1)]);
    var env := InputEnv(args);
    assert In(0) in env && In(1) in env && Out !in env;
    assert env[In(0)] == args[0] && env[In(1)] == args[1];
    assert Exec(Subtractor().meaning, files, s, env) == Some(env[Out := args[0] - args[1]]);
    assert [s][1..] == [];
  }

  lemma SubValue(g: Graph, args: seq<int>)
    requires |g.nodes| == 1 && |g.nodes[0].inputs| == 2 && |args| == 2
    ensures EmitsSound(Subtractor(), g, 0) && NodeValue(Subtractor(), g, 0, args) == args[0] - args[1]
  {
    SubSound(g);
    SubRuns(OwnFiles(g, g.nodes[0]), args);
  }

  /** The node's equation says that the last value is the difference. */
  lemma SubEquation(g: Graph, n: nat, x: nat, y: nat, vals: seq<int>)
    requires SubOf(g, n, x, y) && |vals| == n + 1
    ensures NodeEquation(Subtractor(), g, vals, 0) <==> vals[n] == vals[x] - vals[y]
  {
    InputIdsInRange(g, 0);
    SubValue(g, Pick(vals, g.nodes[0].inputs));
  }

  // ----- bound by position -----

  lemma PositionalPair(p: string, q: string, u: int, v: int)
    requires p != q
    ensures Positional([p, q], [u, v]) == map[p := u, q := v]
  {
    assert [p, q][..1] == [p] && [u, v][..1] == [u];
    assert Positional([p], [u]) == map[p := u];
  }

  /** The values the program sees: exchanged unless the ids are in decimal order. */
  ghost function Seen(vals: seq<int>, n: nat, x: nat, y: nat): (w: seq<int>)
    requires x < n && y < n && |vals| == n + 1
    ensures |w| == n + 1
  {
    if DecimalOrder([x, y]) then vals[n := vals[x] - vals[y]]
    else vals[x := vals[y]][y := vals[x]][n := vals[y] - vals[x]]
  }

  lemma BindsPair(env: map<string, int>, w: seq<int>, x: nat, y: nat)
    requires x < |w| && y < |w| && TensorVar(x) in env && TensorVar(y) in env
    requires env[TensorVar(x)] == w[x] && env[TensorVar(y)] == w[y]
    ensures BindsAll(env, w, [x, y])
  {
  }

  lemma PositionalBinds(params: seq<string>, u: int, v: int, w: seq<int>, x: nat, y: nat)
    requires x < |w| && y < |w| && x != y
    requires || (params == [TensorVar(x), TensorVar(y)] && w[x] == u && w[y] == v)
             || (params == [TensorVar(y), TensorVar(x)] && w[x] == v && w[y] == u)
    ensures BindsAll(Positional(params, [u, v]), w, [x, y])
  {
    if TensorVar(x) == TensorVar(y) { TensorVarInjective(x, y); }
    PositionalPair(params[0], params[1], u, v);
    BindsPair(Positional(params, [u, v]), w, x, y);
  }

  lemma SeenAt(vals: seq<int>, n: nat, x: nat, y: nat)
    requires x < n && y < n && x != y && |vals| == n + 1
    ensures var w, ok := Seen(vals, n, x, y), DecimalOrder([x, y]);
            && w[x] == (if ok then vals[x] else vals[y]) && w[y] == (if ok then vals[y] else vals[x])
            && w[n] == w[x] - w[y]
  {
  }

  lemma SeenBinds(vals: seq<int>, n: nat, x: nat, y: nat)
    requires x < n && y < n && x != y && |vals| == n + 1
    ensures |SortNames(TensorVars([x, y]))| == 2
    ensures BindsAll(Positional(SortNames(TensorVars([x, y])), Pick(vals, [x, y])), Seen(vals, n, x, y), [x, y])
  {
    PairSignature(x, y);
    SeenAt(vals, n, x, y);
    assert Pick(vals, [x, y]) == [vals[x], vals[y]];
    PositionalBinds(SortNames(TensorVars([x, y])), vals[x], vals[y], Seen(vals, n, x, y), x, y);
  }

  lemma OneNodeRun(g: Graph, lo: nat, hi: nat)
    requires WellFormed(g) && lo == 0 && hi == lo + 1 == |g.nodes|
    ensures MaximalRun(g, lo, hi) && RunInputs(g, lo, hi) == g.nodes[lo].inputs
    ensures GroupOf(g, lo, hi).output == g.nodes[lo].output
  {
  }

  /** A run of one node, bound by position to surfaces under which it sees given values, computes what these
      give. */
  lemma SeenBinding<P>(be: Backend<P, int>, g: Graph, seen: seq<int>, params: seq<string>, surfaces: seq<int>, lo: nat,
                       hi: nat)
    requires MaximalRun(g, lo, hi) && hi == lo + 1 && |seen| == |g.tensors| && NodeEquation(be, g, seen, lo)
    requires params == SortNames(TensorVars(RunInputs(g, lo, hi))) && |params| == |surfaces|
    requires BindsAll(Positional(params, surfaces), seen, RunInputs(g, lo, hi))
    ensures GroupLowers(be, g, lo, hi) && GroupOf(g, lo, hi).output < |seen|
    ensures var prog := Compiled(be, g, GroupOf(g, lo, hi)).value;
            && |prog.params| == |surfaces|
            && RunProgram(be.meaning, prog, Positional(prog.params, surfaces)) == Some(seen[GroupOf(g, lo, hi).output])
  {
    assert forall i :: lo <= i < hi ==> i == lo && NodeEquation(be, g, seen, i);
    BoundByPosition(be, g, seen, lo, hi, params, surfaces);
  }

  // ----- whole runs -----

  lemma SubReference(g: Graph, n: nat, x: nat, y: nat, ref: seq<int>, ins: seq<int>)
    requires SubOf(g, n, x, y) && |ins| == n && |ref| == n + 1 && Solves(Subtractor(), g, ref)
    requires forall k :: 0 <= k < n ==> ref[g.inputs[k]] == ins[k]
    ensures ref[x] == ins[x] && ref[y] == ins[y] && ref[n] == ins[x] - ins[y]
  {
    assert NodeEquation(Subtractor(), g, ref, 0);
    SubEquation(g, n, x, y, ref);
    assert g.inputs[x] == x && g.inputs[y] == y;
  }

  lemma SubResult(g: Graph, n: nat, x: nat, y: nat, ref: seq<int>, lo: nat, hi: nat)
    requires SubOf(g, n, x, y) && x != y && AllEmit(Subtractor(), g) && lo == 0 && hi == lo + 1
    requires |ref| == n + 1 && ref[n] == ref[x] - ref[y]
    ensures GroupResult(Subtractor(), g, ref, lo, hi) == if DecimalOrder([x, y]) then ref[n] else ref[y] - ref[x]
  {
    OneNodeRun(g, lo, hi);
    var seen := Seen(ref, n, x, y);
    SeenBinds(ref, n, x, y);
    SeenAt(ref, n, x, y);
    SubEquation(g, n, x, y, seen);
    SeenBinding(Subtractor(), g, seen, SortNames(TensorVars([x, y])), Pick(ref, [x, y]), lo, hi);
    GroupResultRuns(Subtractor(), g, ref, lo, hi);
  }

  lemma SubOutcome(g: Graph, n: nat, x: nat, y: nat, ref: seq<int>, lo: nat, hi: nat)
    requires SubOf(g, n, x, y) && x != y && AllEmit(Subtractor(), g) && lo == 0 && hi == lo + 1
    requires |ref| == n + 1 && ref[n] == ref[x] - ref[y]
    ensures SurfaceValues(Subtractor(), g, ref, hi)[n] == if DecimalOrder([x, y]) then ref[n] else ref[y] - ref[x]
  {
    SubResult(g, n, x, y, ref, lo, hi);
    assert RunStart(g, hi - 1) == lo;
    assert SurfaceValues(Subtractor(), g, ref, lo) == ref;
  }

  /** Executing SUB(x, y) yields y - x unless the ids are in decimal order; that is right exactly for equal
      values. */
  lemma SubExecutes(g: Graph, n: nat, x: nat, y: nat, ins: seq<int>)
    requires SubOf(g, n, x, y) && x != y && |ins| == n
    ensures AllEmit(Subtractor(), g) && |Reference(Subtractor(), g, ins)| == n + 1
    ensures Reference(Subtractor(), g, ins)[n] == ins[x] - ins[y]
    ensures Outcome(Subtractor(), g, ins)[n] == if Leads(x, y) then ins[x] - ins[y] else ins[y] - ins[x]
    ensures OutputsRight(Subtractor(), g, ins) <==> Leads(x, y) || ins[x] == ins[y]
  {
    SubSound(g);
    ReferenceFacts(Subtractor(), g, ins);
    var ref := Reference(Subtractor(), g, ins);
    SubReference(g, n, x, y, ref, ins);
    SubOutcome(g, n, x, y, ref, 0, |g.nodes|);
    TwoIds(x, y);
  }

  /** SUB(t1, t0) on inputs a and b yields a - b where its meaning is b - a. */
  lemma OneMinusZero(s: Shape, a: int, b: int)
    requires s.Ok()
    ensures var g := Built(SubCalls(2, s, 1, 0));
            && SubOf(g, 2, 1, 0) && AllEmit(Subtractor(), g)
            && Outcome(Subtractor(), g, [a, b])[2] == a - b && Reference(Subtractor(), g, [a, b])[2] == b - a
  {
    SubBuilt(2, s, 1, 0);
    SubExecutes(Built(SubCalls(2, s, 1, 0)), 2, 1, 0, [a, b]);
  }

  /** SUB(t2, t10) yields t10 - t2, although 2 is the smaller id. */
  lemma TwoMinusTen(s: Shape, ins: seq<int>)
    requires s.Ok() && |ins| == 11
    ensures var g := Built(SubCalls(11, s, 2, 10));
            && SubOf(g, 11, 2, 10) && AllEmit(Subtractor(), g)
            && Outcome(Subtractor(), g, ins)[11] == ins[10] - ins[2]
            && |Reference(Subtractor(), g, ins)| == 12 && Reference(Subtractor(), g, ins)[11] == ins[2] - ins[10]
  {
    SubBuilt(11, s, 2, 10);
    SubExecutes(Built(SubCalls(11, s, 2, 10)), 11, 2, 10, ins);
    TenBeforeTwo();
  }
}
