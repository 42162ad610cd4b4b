/** Symbolic execution: a backend whose values are the terms that compute them.  On it execution is right
    only if it is right on every backend. */
module Symbolic {
  import opened Names
  import opened Sequences
  import opened Graph
  import opened Fusion
  import opened Mil
  import opened Binding
  import opened Evaluation

  /** A graph input, or a node applied to terms. */
  datatype Term = Leaf(tensor: nat) | App(node: nat, args: seq<Term>)

  function Vars(n: nat): (s: seq<Var>)
    ensures |s| == n && forall k :: 0 <= k < n ==> s[k] == In(k)
  {
    seq(n, k requires 0 <= k < n => In(k))
  }

  function Terms(): Backend<nat, Term> {
    Backend((g, n: Node) => Some([Apply(Out, n.id, Vars(|n.inputs|))]),
            Meaning((p, args) => App(p, args), blob => Leaf(0)))
  }

  function Leaves(g: Graph): seq<Term> {
    seq(|g.inputs|, k requires 0 <= k < |g.inputs| => Leaf(g.inputs[k]))
  }

  /** The meaning of a node is its application. */
  lemma TermNode(g: Graph, i: nat, args: seq<Term>)
    requires i < |g.nodes| && g.nodes[i].inputs != [] && |args| == |g.nodes[i].inputs|
    ensures EmitsSound(Terms(), g, i) && NodeValue(Terms(), g, i, args) == App(g.nodes[i].id, args)
  {
    var be, n := Terms(), g.nodes[i];
    var vars := Vars(|n.inputs|);
    var s: Stmt<Var, nat, nat> := Apply(Out, n.id, vars);
    var body := [s];
    assert be.emit(g, n) == Some(body) && body[1..] == [];
    assert forall k :: 0 <= k < |vars| ==> vars[k] in Inputs(|n.inputs|);
    assert Sound(body[1..], Inputs(|n.inputs|) + {Out}, |Blobs(g, n)|);
    assert EmitsSound(be, g, i);
    var env := InputEnv(args);
    assert env.Keys == Inputs(|args|) && Out !in env && forall k :: 0 <= k < |s.args| ==> s.args[k] in env;
    var e := Exec(be.meaning, OwnFiles(g, n), s, env);
    assert e.Some? && e.value.Keys == env.Keys + {Out};
    var v := e.value[Out];
    assert v.App? && v.node == n.id && |v.args| == |args|;
    assert forall k :: 0 <= k < |args| ==> v.args[k] == args[k];
    assert v == App(n.id, args) && e.value == env[Out := v];
    assert Run(be.meaning, OwnFiles(g, n), body, env) == Some(env[Out := App(n.id, args)]);
  }

  ghost predicate AllRead(g: Graph) {
    forall i :: 0 <= i < |g.nodes| ==> g.nodes[i].inputs != []
  }

  lemma TermsEmit(g: Graph)
    requires AllRead(g)
    ensures AllEmit(Terms(), g)
  {
    forall i | 0 <= i < |g.nodes| ensures EmitsSound(Terms(), g, i) {
      TermNode(g, i, seq(|g.nodes[i].inputs|, k => Leaf(0)));
    }
  }

  /** The tensor that a term belongs to. */
  function Owner(g: Graph, t: Term): nat {
    match t
    case Leaf(tensor) => tensor
    case App(i, _) => if i < |g.nodes| then g.nodes[i].output else 0
  }

  ghost predicate Owned(g: Graph, vals: seq<Term>) {
    |vals| == |g.tensors| && forall t :: 0 <= t < |vals| ==> Owner(g, vals[t]) == t
  }

  /** The reference terms: each tells its tensor, and each solves its node's equation. */
  lemma ReferenceTerms(g: Graph)
    requires WellFormed(g) && AllRead(g) && AllEmit(Terms(), g)
    ensures Owned(g, Reference(Terms(), g, Leaves(g))) && Solves(Terms(), g, Reference(Terms(), g, Leaves(g)))
  {
    ReferenceFacts(Terms(), g, Leaves(g));
    var ref := Reference(Terms(), g, Leaves(g));
    forall t | 0 <= t < |ref| ensures Owner(g, ref[t]) == t { TermOwner(g, ref, t); }
  }

  lemma TermOwner(g: Graph, ref: seq<Term>, t: nat)
    requires WellFormed(g) && AllRead(g) && Solves(Terms(), g, ref) && t < |ref| == |g.tensors|
    requires forall k :: 0 <= k < |g.inputs| ==> g.inputs[k] < |ref| && ref[g.inputs[k]] == Leaf(g.inputs[k])
    ensures Owner(g, ref[t]) == t
  {
    assert TensorOk(g, t);
    match g.tensors[t].producer
    case None =>
      var k :| 0 <= k < |g.inputs| && g.inputs[k] == t;
      assert ref[g.inputs[k]] == Leaf(t);
    case Some(i) => NodeOwner(g, ref, i);
  }

  /** A solution's value at a node's output is the node applied to its inputs' values. */
  lemma NodeTerm(g: Graph, vals: seq<Term>, i: nat)
    requires WellFormed(g) && i < |g.nodes| && g.nodes[i].inputs != [] && NodeEquation(Terms(), g, vals, i)
    ensures vals[g.nodes[i].output] == App(i, Pick(vals, g.nodes[i].inputs))
  {
    assert NodeOk(g, i);
    TermNode(g, i, Pick(vals, g.nodes[i].inputs));
  }

  lemma NodeOwner(g: Graph, vals: seq<Term>, i: nat)
    requires WellFormed(g) && AllRead(g) && i < |g.nodes| && NodeEquation(Terms(), g, vals, i)
    ensures Owner(g, vals[g.nodes[i].output]) == g.nodes[i].output
  {
    NodeTerm(g, vals, i);
  }

  // ----- equal results come from equal inputs -----

  lemma EqualNode(g: Graph, vals: seq<Term>, ref: seq<Term>, i: nat, b: nat)
    requires WellFormed(g) && i < |g.nodes| && b < |g.nodes[i].inputs|
    requires NodeEquation(Terms(), g, vals, i) && NodeEquation(Terms(), g, ref, i)
    requires vals[g.nodes[i].output] == ref[g.nodes[i].output]
    ensures vals[g.nodes[i].inputs[b]] == ref[g.nodes[i].inputs[b]]
  {
    NodeTerm(g, vals, i);
    NodeTerm(g, ref, i);
    var ins := g.nodes[i].inputs;
    assert Pick(vals, ins)[b] == Pick(ref, ins)[b];
  }

  /** Two solutions of a run that agree at its end agree at all its nodes. */
  lemma {:induction false} EqualBackwards(g: Graph, vals: seq<Term>, ref: seq<Term>, lo: nat, hi: nat, i: nat)
    requires WellFormed(g) && Chain(g, lo, hi) && lo <= i < hi
    requires forall h :: lo <= h < hi ==> NodeEquation(Terms(), g, vals, h) && NodeEquation(Terms(), g, ref, h)
    requires g.nodes[hi - 1].output < |vals| == |ref| && vals[g.nodes[hi - 1].output] == ref[g.nodes[hi - 1].output]
    ensures vals[g.nodes[i].output] == ref[g.nodes[i].output]
    decreases hi - i
  {
    if i < hi - 1 {
      EqualBackwards(g, vals, ref, lo, hi, i + 1);
      assert Fusable(g, i);
      EqualNode(g, vals, ref, i + 1, 0);
    }
  }

  /** and at all its inputs. */
  lemma EqualInputs(g: Graph, vals: seq<Term>, ref: seq<Term>, lo: nat, hi: nat, t: TensorId)
    requires WellFormed(g) && Chain(g, lo, hi) && t in RunInputs(g, lo, hi)
    requires forall h :: lo <= h < hi ==> NodeEquation(Terms(), g, vals, h) && NodeEquation(Terms(), g, ref, h)
    requires g.nodes[hi - 1].output < |vals| == |ref| && vals[g.nodes[hi - 1].output] == ref[g.nodes[hi - 1].output]
    ensures t < |vals| && t < |ref| && vals[t] == ref[t]
  {
    var h, b := ListedIsRead(g, lo, hi, t);
    EqualBackwards(g, vals, ref, lo, hi, h);
    EqualNode(g, vals, ref, h, b);
  }

  /** A group that computes the reference term saw the reference terms. */
  lemma RightResult(g: Graph, vals: seq<Term>, ref: seq<Term>, lo: nat, hi: nat, t: TensorId)
    requires MaximalRun(g, lo, hi) && AllEmit(Terms(), g) && |vals| == |ref| == |g.tensors| && Solves(Terms(), g, ref)
    requires g.nodes[hi - 1].output < |ref| && t in RunInputs(g, lo, hi)
    requires GroupResult(Terms(), g, vals, lo, hi) == ref[g.nodes[hi - 1].output]
    ensures forall k :: 0 <= k < |RunInputs(g, lo, hi)| ==> RunInputs(g, lo, hi)[k] < |vals|
    ensures t < |ref| && Rebound(vals, RunInputs(g, lo, hi))[t] == ref[t]
  {
    RunInputsInRange(g, lo, hi);
    var seen := Rebound(vals, RunInputs(g, lo, hi));
    var w := AllSolved(Terms(), g, seen, lo, hi);
    EqualInputs(g, w, ref, lo, hi, t);
    GroupInputsAvailable(g, lo, hi, t);
    RunValuesKeep(Terms(), g, seen, lo, lo, hi, t);
  }

  /** Terms that tell their tensors, bound by position to the reference terms of distinct inputs, show that
      the inputs are in decimal order and were right. */
  lemma RightBinding(g: Graph, vals: seq<Term>, ref: seq<Term>, ids: seq<nat>)
    requires Owned(g, vals) && Owned(g, ref) && NoDuplicates(ids) && forall k :: 0 <= k < |ids| ==> ids[k] < |vals|
    requires forall t <- ids :: t < |ref| && Rebound(vals, ids)[t] == ref[t]
    ensures DecimalOrder(ids) && forall k :: 0 <= k < |ids| ==> vals[ids[k]] == ref[ids[k]]
  {
    var names := TensorVars(ids);
    var params := SortNames(names);
    ReboundBinds(vals, ids);
    var env := Positional(params, Pick(vals, ids));
    SortedDistinct(ids);
    forall j | 0 <= j < |params| ensures params[j] == names[j] && vals[ids[j]] == ref[ids[j]] {
      PositionalAt(params, Pick(vals, ids), j);
      var t := SortedMember(ids, j);
      assert env[params[j]] == vals[ids[j]] && env[TensorVar(t)] == Rebound(vals, ids)[t] == ref[t];
      assert Owner(g, vals[ids[j]]) == ids[j] && Owner(g, ref[t]) == t;
    }
    assert params == names;
    SortedFixpoint(names);
    NamesFollowIds(ids);
  }

  // ----- whole runs -----

  /** A group's result is its last node applied to something. */
  lemma ResultOwner(g: Graph, vals: seq<Term>, lo: nat, hi: nat)
    requires WellFormed(g) && AllRead(g) && AllEmit(Terms(), g) && |vals| == |g.tensors| && lo < hi <= |g.nodes|
    ensures Owner(g, GroupResult(Terms(), g, vals, lo, hi)) == g.nodes[hi - 1].output
  {
    var w := ResultSolves(Terms(), g, vals, lo, hi);
    NodeOwner(g, w, hi - 1);
  }

  lemma {:induction false} SurfacesOwned(g: Graph, ref: seq<Term>, k: nat)
    requires WellFormed(g) && AllRead(g) && AllEmit(Terms(), g) && Owned(g, ref) && k <= |g.nodes|
    ensures Owned(g, SurfaceValues(Terms(), g, ref, k))
    decreases k
  {
    if k > 0 {
      var lo := RunStart(g, k - 1);
      SurfacesOwned(g, ref, lo);
      ResultOwner(g, SurfaceValues(Terms(), g, ref, lo), lo, k);
    }
  }

  /** Boundaries of the cut do not lie inside its groups. */
  lemma BoundaryOrder(g: Graph, k: nat, k': nat)
    requires Boundary(g, k) && Boundary(g, k') && k < k'
    ensures k <= RunStart(g, k' - 1)
  {
    var lo, all := RunStart(g, k' - 1), Cut(g, |g.nodes|);
    BoundaryBefore(g, k');
    CutLast(g, k');
    CutGrows(g, k, k');
    if |Cut(g, k)| == |Cut(g, k')| { CutInjective(g, k, k'); }
    if lo < k {
      CutGrows(g, lo, k);
      assert |Cut(g, lo)| == |Cut(g, k)|;
      CutInjective(g, lo, k);
    }
  }

  /** Later groups leave alone what none of their nodes writes. */
  lemma {:induction false} SurfacesLater<P, V>(be: Backend<P, V>, g: Graph, base: seq<V>, k: nat, k': nat, t: TensorId)
    requires WellFormed(g) && AllEmit(be, g) && |base| == |g.tensors| && t < |base|
    requires Boundary(g, k) && Boundary(g, k') && k <= k' && forall i :: k <= i < k' ==> g.nodes[i].output != t
    ensures SurfaceValues(be, g, base, k')[t] == SurfaceValues(be, g, base, k)[t]
    decreases k'
  {
    if k < k' {
      BoundaryOrder(g, k, k');
      BoundaryBefore(g, k');
      SurfacesLater(be, g, base, k, RunStart(g, k' - 1), t);
    }
  }

  /** What a group reads is not written from its first node on. */
  lemma InputsAreOld(g: Graph, lo: nat, hi: nat, t: TensorId)
    requires MaximalRun(g, lo, hi) && t in RunInputs(g, lo, hi)
    ensures forall i :: lo <= i < |g.nodes| ==> g.nodes[i].output != t
  {
    GroupInputsAvailable(g, lo, hi, t);
    if t in g.inputs {
      forall i | lo <= i < |g.nodes| ensures g.nodes[i].output != t { assert NodeOk(g, i); }
    } else {
      var j :| 0 <= j < |Cut(g, lo)| && Cut(g, lo)[j].output == t;
      var p := CutOutput(g, lo, j);
    }
  }

  /** Where group j of the cut starts and ends, and that its ends are boundaries. */
  lemma GroupBounds(g: Graph, j: nat) returns (lo: nat, hi: nat)
    requires WellFormed(g) && j < |Cut(g, |g.nodes|)|
    ensures MaximalRun(g, lo, hi) && RunStart(g, hi - 1) == lo && Cut(g, |g.nodes|)[j] == GroupOf(g, lo, hi)
    ensures Boundary(g, lo) && Boundary(g, hi)
  {
    lo, hi := CutAt(g, |g.nodes|, j);
    RunStartOf(g, lo, hi);
    CutOneMore(g, lo, hi, j);
  }

  /** The outcome of a group output is the group's result on the values before it. */
  lemma OutcomeOfGroup(g: Graph, ref: seq<Term>, lo: nat, hi: nat)
    requires AllEmit(Terms(), g) && |ref| == |g.tensors| && MaximalRun(g, lo, hi) && RunStart(g, hi - 1) == lo
    requires Boundary(g, lo) && Boundary(g, hi)
    ensures g.nodes[hi - 1].output < |ref|
    ensures SurfaceValues(Terms(), g, ref, |g.nodes|)[g.nodes[hi - 1].output]
         == GroupResult(Terms(), g, SurfaceValues(Terms(), g, ref, lo), lo, hi)
  {
    InputIdsInRange(g, hi - 1);
    OutputsGrow(g, hi - 1);
    WholeCut(g);
    SurfacesLater(Terms(), g, ref, hi, |g.nodes|, g.nodes[hi - 1].output);
  }

  /** A group whose output comes out right has its inputs in decimal order, and they come out right. */
  lemma RightGroup(g: Graph, ref: seq<Term>, j: nat)
    requires WellFormed(g) && AllRead(g) && AllEmit(Terms(), g) && Owned(g, ref) && Solves(Terms(), g, ref)
    requires j < |Cut(g, |g.nodes|)| && NoDuplicates(Cut(g, |g.nodes|)[j].inputs)
    requires var o := Cut(g, |g.nodes|)[j].output;
             o < |ref| && SurfaceValues(Terms(), g, ref, |g.nodes|)[o] == ref[o]
    ensures DecimalOrder(Cut(g, |g.nodes|)[j].inputs)
    ensures forall t <- Cut(g, |g.nodes|)[j].inputs ::
              t < |ref| && SurfaceValues(Terms(), g, ref, |g.nodes|)[t] == ref[t]
  {
    var lo, hi := GroupBounds(g, j);
    var ids, vals := RunInputs(g, lo, hi), SurfaceValues(Terms(), g, ref, lo);
    OutcomeOfGroup(g, ref, lo, hi);
    RunInputsInRange(g, lo, hi);
    forall t <- ids ensures t < |ref| && Rebound(vals, ids)[t] == ref[t] { RightResult(g, vals, ref, lo, hi, t); }
    SurfacesOwned(g, ref, lo);
    RightBinding(g, vals, ref, ids);
    forall t <- ids ensures t < |ref| && SurfaceValues(Terms(), g, ref, |g.nodes|)[t] == ref[t] {
      var k :| 0 <= k < |ids| && ids[k] == t;
      InputsAreOld(g, lo, hi, t);
      WholeCut(g);
      SurfacesLater(Terms(), g, ref, lo, |g.nodes|, t);
    }
  }

  /** No group reads a tensor twice. */
  ghost predicate DistinctInputs(g: Graph) {
    forall j :: 0 <= j < |Cut(g, |g.nodes|)| ==> NoDuplicates(Cut(g, |g.nodes|)[j].inputs)
  }

  /** If the marked outputs come out right, every group they depend on is in decimal order. */
  lemma RightMeansInOrder(g: Graph)
    requires WellFormed(g) && AllRead(g) && AllEmit(Terms(), g) && DistinctInputs(g)
    requires OutputsRight(Terms(), g, Leaves(g))
    ensures NeededInOrder(g)
  {
    ReferenceTerms(g);
    var ref := Reference(Terms(), g, Leaves(g));
    var out := SurfaceValues(Terms(), g, ref, |g.nodes|);
    var right := set t | 0 <= t < |ref| && out[t] == ref[t];
    var all := Cut(g, |g.nodes|);
    forall j | 0 <= j < |all| && all[j].output in right
      ensures DecimalOrder(all[j].inputs) && forall t <- all[j].inputs :: t in right
    {
      assert NoDuplicates(all[j].inputs);
      RightGroup(g, ref, j);
    }
    NeededIsLeast(all, (set t | t in g.outputs), right);
  }

  /** Execution gives the marked outputs their reference values on every backend and all inputs exactly when
      every group they depend on has its input ids in decimal order: then it does, by OutcomeIsReference, and
      otherwise symbolic execution shows the difference. */
  lemma RightIffInOrder(g: Graph)
    requires WellFormed(g) && AllRead(g) && DistinctInputs(g)
    ensures AllEmit(Terms(), g)
    ensures OutputsRight(Terms(), g, Leaves(g)) <==> NeededInOrder(g)
  {
    TermsEmit(g);
    if NeededInOrder(g) { OutcomeIsReference(Terms(), g, Leaves(g)); }
    if OutputsRight(Terms(), g, Leaves(g)) { RightMeansInOrder(g); }
  }
}
