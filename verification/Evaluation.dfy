/** What a graph means, node by node, and what its fused groups compute when their surfaces are bound to
    the sorted signatures by position. */
module Evaluation {
  import opened Names
  import opened Sequences
  import opened Graph
  import opened Fusion
  import opened Mil
  import opened Binding

  // ----- node by node -----

  /** The values satisfy every node's equation. */
  ghost predicate Solves<P, V>(be: Backend<P, V>, g: Graph, vals: seq<V>) {
    forall i :: 0 <= i < |g.nodes| ==> NodeEquation(be, g, vals, i)
  }

  function Zip<V>(ids: seq<TensorId>, vals: seq<V>): map<TensorId, V>
    requires |ids| == |vals|
  {
    if ids == [] then map[] else Zip(ids[..|ids| - 1], vals[..|ids| - 1])[ids[|ids| - 1] := vals[|ids| - 1]]
  }

  lemma {:induction false} ZipFinds<V>(ids: seq<TensorId>, vals: seq<V>, k: nat)
    requires |ids| == |vals| && k < |ids| && forall i, j :: 0 <= i < j < |ids| ==> ids[i] < ids[j]
    ensures ids[k] in Zip(ids, vals) && Zip(ids, vals)[ids[k]] == vals[k]
  {
    if k < |ids| - 1 { ZipFinds(ids[..|ids| - 1], vals[..|ids| - 1], k); }
  }

  /** The reference result of a graph on the given inputs. */
  ghost function Reference<P, V>(be: Backend<P, V>, g: Graph, ins: seq<V>): seq<V>
    requires WellFormed(g) && AllEmit(be, g) && |ins| == |g.inputs|
  {
    assert forall k :: 0 <= k < |g.inputs| ==> g.inputs[k] in Zip(g.inputs, ins) by {
      forall k | 0 <= k < |g.inputs| ensures g.inputs[k] in Zip(g.inputs, ins) { ZipFinds(g.inputs, ins, k); }
    }
    Values(be, g, Zip(g.inputs, ins), |g.tensors|)
  }

  lemma ReferenceFacts<P, V>(be: Backend<P, V>, g: Graph, ins: seq<V>)
    requires WellFormed(g) && AllEmit(be, g) && |ins| == |g.inputs|
    ensures |Reference(be, g, ins)| == |g.tensors|
    ensures Solves(be, g, Reference(be, g, ins))
    ensures forall k :: 0 <= k < |ins| ==>
              g.inputs[k] < |g.tensors| && Reference(be, g, ins)[g.inputs[k]] == ins[k]
  {
    forall k | 0 <= k < |g.inputs| ensures g.inputs[k] in Zip(g.inputs, ins) { ZipFinds(g.inputs, ins, k); }
    forall i | 0 <= i < |g.nodes| ensures NodeEquation(be, g, Reference(be, g, ins), i) {
      ValuesSolveEquations(be, g, Zip(g.inputs, ins), i);
    }
    forall k | 0 <= k < |ins|
      ensures g.inputs[k] < |g.tensors| && Reference(be, g, ins)[g.inputs[k]] == ins[k]
    {
      ZipFinds(g.inputs, ins, k);
      InputValue(be, g, Zip(g.inputs, ins), g.inputs[k]);
    }
  }

  // ----- one run of nodes -----

  /** The values after evaluating the nodes lo, .., h - 1 on the given ones. */
  ghost function RunValues<P, V>(be: Backend<P, V>, g: Graph, vals: seq<V>, lo: nat, h: nat): (w: seq<V>)
    requires WellFormed(g) && AllEmit(be, g) && |vals| == |g.tensors| && lo <= h <= |g.nodes|
    ensures |w| == |vals|
    decreases h
  {
    if h == lo then vals
    else
      InputIdsInRange(g, h - 1);
      assert EmitsSound(be, g, h - 1);
      var w, n := RunValues(be, g, vals, lo, h - 1), g.nodes[h - 1];
      w[n.output := NodeValue(be, g, h - 1, Pick(w, n.inputs))]
  }

  /** Evaluating more nodes changes only their outputs. */
  lemma {:induction false} RunValuesKeep<P, V>(be: Backend<P, V>, g: Graph, vals: seq<V>, lo: nat, i: nat, h: nat,
                                               t: TensorId)
    requires WellFormed(g) && AllEmit(be, g) && |vals| == |g.tensors| && lo <= i <= h <= |g.nodes| && t < |vals|
    requires forall j :: i <= j < h ==> g.nodes[j].output != t
    ensures RunValues(be, g, vals, lo, h)[t] == RunValues(be, g, vals, lo, i)[t]
    decreases h
  {
    if i < h {
      RunValuesKeep(be, g, vals, lo, i, h - 1, t);
      NextKeeps(be, g, vals, lo, h, t);
    }
  }

  lemma NextKeeps<P, V>(be: Backend<P, V>, g: Graph, vals: seq<V>, lo: nat, h: nat, t: TensorId)
    requires WellFormed(g) && AllEmit(be, g) && |vals| == |g.tensors| && lo < h <= |g.nodes| && t < |vals|
    requires g.nodes[h - 1].output != t
    ensures RunValues(be, g, vals, lo, h)[t] == RunValues(be, g, vals, lo, h - 1)[t]
  {
    InputIdsInRange(g, h - 1);
  }

  /** The values of the run solve its nodes' equations. */
  lemma RunValuesSolve<P, V>(be: Backend<P, V>, g: Graph, vals: seq<V>, lo: nat, hi: nat, i: nat)
    requires WellFormed(g) && AllEmit(be, g) && |vals| == |g.tensors| && lo <= i < hi <= |g.nodes|
    ensures NodeEquation(be, g, RunValues(be, g, vals, lo, hi), i)
  {
    InputIdsInRange(g, i);
    RunValuesAt(be, g, vals, lo, i);
    RunOutputKept(be, g, vals, lo, hi, i);
    RunInputsKept(be, g, vals, lo, hi, i);
    EquationFrom(be, g, RunValues(be, g, vals, lo, i), RunValues(be, g, vals, lo, hi), i);
  }

  lemma RunOutputKept<P, V>(be: Backend<P, V>, g: Graph, vals: seq<V>, lo: nat, hi: nat, i: nat)
    requires WellFormed(g) && AllEmit(be, g) && |vals| == |g.tensors| && lo <= i < hi <= |g.nodes|
    ensures g.nodes[i].output < |vals|
    ensures RunValues(be, g, vals, lo, hi)[g.nodes[i].output] == RunValues(be, g, vals, lo, i + 1)[g.nodes[i].output]
  {
    InputIdsInRange(g, i);
    OutputsGrow(g, i);
    RunValuesKeep(be, g, vals, lo, i + 1, hi, g.nodes[i].output);
  }

  /** A value computed from earlier values of the same inputs solves the node's equation. */
  lemma EquationFrom<P, V>(be: Backend<P, V>, g: Graph, before: seq<V>, w: seq<V>, i: nat)
    requires i < |g.nodes| && InputIdsOk(g, i) && EmitsSound(be, g, i) && |w| == |before| == |g.tensors|
    requires forall k :: 0 <= k < |g.nodes[i].inputs| ==>
               var t := g.nodes[i].inputs[k]; w[t] == before[t]
    requires w[g.nodes[i].output] == NodeValue(be, g, i, Pick(before, g.nodes[i].inputs))
    ensures NodeEquation(be, g, w, i)
  {
    PickSame(w, before, g.nodes[i].inputs);
  }

  lemma RunValuesAt<P, V>(be: Backend<P, V>, g: Graph, vals: seq<V>, lo: nat, i: nat)
    requires WellFormed(g) && AllEmit(be, g) && |vals| == |g.tensors| && lo <= i < |g.nodes|
    ensures EmitsSound(be, g, i) && g.nodes[i].output < |vals|
    ensures forall k :: 0 <= k < |g.nodes[i].inputs| ==> g.nodes[i].inputs[k] < |vals|
    ensures RunValues(be, g, vals, lo, i + 1)[g.nodes[i].output]
         == NodeValue(be, g, i, Pick(RunValues(be, g, vals, lo, i), g.nodes[i].inputs))
  {
    InputIdsInRange(g, i);
    assert EmitsSound(be, g, i);
  }

  lemma RunInputsKept<P, V>(be: Backend<P, V>, g: Graph, vals: seq<V>, lo: nat, hi: nat, i: nat)
    requires WellFormed(g) && AllEmit(be, g) && |vals| == |g.tensors| && lo <= i < hi <= |g.nodes|
    ensures forall k :: 0 <= k < |g.nodes[i].inputs| ==>
              var t := g.nodes[i].inputs[k];
              t < |vals| && RunValues(be, g, vals, lo, hi)[t] == RunValues(be, g, vals, lo, i)[t]
  {
    InputIdsInRange(g, i);
    OutputsGrow(g, i);
    var ins := g.nodes[i].inputs;
    forall k | 0 <= k < |ins|
      ensures ins[k] < |vals| && RunValues(be, g, vals, lo, hi)[ins[k]] == RunValues(be, g, vals, lo, i)[ins[k]]
    {
      RunValuesKeep(be, g, vals, lo, i, hi, ins[k]);
    }
  }

  lemma PickSame<V>(a: seq<V>, b: seq<V>, ts: seq<TensorId>)
    requires forall k :: 0 <= k < |ts| ==> ts[k] < |a| && ts[k] < |b| && a[ts[k]] == b[ts[k]]
    ensures Pick(a, ts) == Pick(b, ts)
  {
  }

  lemma AllSolved<P, V>(be: Backend<P, V>, g: Graph, vals: seq<V>, lo: nat, hi: nat) returns (w: seq<V>)
    requires WellFormed(g) && AllEmit(be, g) && |vals| == |g.tensors| && lo <= hi <= |g.nodes|
    ensures w == RunValues(be, g, vals, lo, hi) && forall i :: lo <= i < hi ==> NodeEquation(be, g, w, i)
  {
    w := RunValues(be, g, vals, lo, hi);
    forall i | lo <= i < hi ensures NodeEquation(be, g, w, i) { RunValuesSolve(be, g, vals, lo, hi, i); }
  }

  /** No node from i on writes what node i reads, and none after i what it writes. */
  lemma OutputsGrow(g: Graph, i: nat)
    requires WellFormed(g) && i < |g.nodes|
    ensures forall j :: i < j < |g.nodes| ==> g.nodes[j].output != g.nodes[i].output
    ensures forall j, k :: i <= j < |g.nodes| && 0 <= k < |g.nodes[i].inputs| ==>
              g.nodes[j].output != g.nodes[i].inputs[k]
  {
    assert NodeOk(g, i);
  }

  // ----- one group, bound by position -----

  /** The values of a group's inputs as its program sees them: the i-th surface under the i-th name of the
      sorted signature. */
  ghost function Rebound<V>(vals: seq<V>, ids: seq<nat>): (w: seq<V>)
    requires forall k :: 0 <= k < |ids| ==> ids[k] < |vals|
    ensures |w| == |vals|
  {
    SortedLength(TensorVars(ids));
    var env := Positional(SortNames(TensorVars(ids)), Pick(vals, ids));
    seq(|vals|, t requires 0 <= t < |vals| => if TensorVar(t) in env then env[TensorVar(t)] else vals[t])
  }

  lemma {:induction false} PositionalKeys<V>(params: seq<string>, surfaces: seq<V>)
    requires |params| == |surfaces|
    ensures forall x :: x in params <==> x in Positional(params, surfaces)
  {
    if params != [] {
      var n := |params| - 1;
      PositionalKeys(params[..n], surfaces[..n]);
      assert params == params[..n] + [params[n]];
    }
  }

  lemma ReboundBinds<V>(vals: seq<V>, ids: seq<nat>)
    requires forall k :: 0 <= k < |ids| ==> ids[k] < |vals|
    ensures |SortNames(TensorVars(ids))| == |ids|
    ensures BindsAll(Positional(SortNames(TensorVars(ids)), Pick(vals, ids)), Rebound(vals, ids), ids)
  {
    var names := TensorVars(ids);
    SortedLength(names);
    SortNamesPermutes(names);
    PositionalKeys(SortNames(names), Pick(vals, ids));
    forall t <- ids ensures t < |vals| && TensorVar(t) in SortNames(names) {
      var k :| 0 <= k < |ids| && ids[k] == t;
      assert names[k] in multiset(names);
    }
  }

  lemma RunInputsInRange(g: Graph, lo: nat, hi: nat)
    requires WellFormed(g) && lo < hi <= |g.nodes|
    ensures forall k :: 0 <= k < |RunInputs(g, lo, hi)| ==> RunInputs(g, lo, hi)[k] < |g.tensors|
  {
    forall k | 0 <= k < |RunInputs(g, lo, hi)| ensures RunInputs(g, lo, hi)[k] < |g.tensors| {
      var h, b := ListedIsRead(g, lo, hi, RunInputs(g, lo, hi)[k]);
      InputIdsInRange(g, h);
    }
  }

  /** What a group computes from the given values when its surfaces are bound by position. */
  ghost function GroupResult<P, V>(be: Backend<P, V>, g: Graph, vals: seq<V>, lo: nat, hi: nat): V
    requires WellFormed(g) && AllEmit(be, g) && |vals| == |g.tensors| && lo < hi <= |g.nodes|
  {
    RunInputsInRange(g, lo, hi);
    InputIdsInRange(g, hi - 1);
    RunValues(be, g, Rebound(vals, RunInputs(g, lo, hi)), lo, hi)[g.nodes[hi - 1].output]
  }

  /** It is the last node's value in a solution of the run's equations. */
  lemma ResultSolves<P, V>(be: Backend<P, V>, g: Graph, vals: seq<V>, lo: nat, hi: nat) returns (w: seq<V>)
    requires WellFormed(g) && AllEmit(be, g) && |vals| == |g.tensors| && lo < hi <= |g.nodes|
    ensures forall i :: lo <= i < hi ==> NodeEquation(be, g, w, i)
    ensures InputIdsOk(g, hi - 1) && |w| == |vals| && w[g.nodes[hi - 1].output] == GroupResult(be, g, vals, lo, hi)
  {
    ResultIs(be, g, vals, lo, hi);
    w := AllSolved(be, g, Rebound(vals, RunInputs(g, lo, hi)), lo, hi);
  }

  lemma ResultIs<P, V>(be: Backend<P, V>, g: Graph, vals: seq<V>, lo: nat, hi: nat)
    requires WellFormed(g) && AllEmit(be, g) && |vals| == |g.tensors| && lo < hi <= |g.nodes|
    ensures forall k :: 0 <= k < |RunInputs(g, lo, hi)| ==> RunInputs(g, lo, hi)[k] < |vals|
    ensures InputIdsOk(g, hi - 1)
    ensures GroupResult(be, g, vals, lo, hi)
         == RunValues(be, g, Rebound(vals, RunInputs(g, lo, hi)), lo, hi)[g.nodes[hi - 1].output]
  {
    RunInputsInRange(g, lo, hi);
    InputIdsInRange(g, hi - 1);
  }

  /** Its program does compute that. */
  lemma GroupResultRuns<P, V>(be: Backend<P, V>, g: Graph, vals: seq<V>, lo: nat, hi: nat)
    requires MaximalRun(g, lo, hi) && AllEmit(be, g) && |vals| == |g.tensors|
    ensures GroupLowers(be, g, lo, hi)
    ensures forall k :: 0 <= k < |RunInputs(g, lo, hi)| ==> RunInputs(g, lo, hi)[k] < |vals|
    ensures var prog := Compiled(be, g, GroupOf(g, lo, hi)).value;
            && |prog.params| == |RunInputs(g, lo, hi)|
            && RunProgram(be.meaning, prog, Positional(prog.params, Pick(vals, RunInputs(g, lo, hi))))
               == Some(GroupResult(be, g, vals, lo, hi))
  {
    var ids := RunInputs(g, lo, hi);
    RunInputsInRange(g, lo, hi);
    ReboundBinds(vals, ids);
    var w := AllSolved(be, g, Rebound(vals, ids), lo, hi);
    forall t <- ids ensures w[t] == Rebound(vals, ids)[t] {
      GroupInputsAvailable(g, lo, hi, t);
      RunValuesKeep(be, g, Rebound(vals, ids), lo, lo, hi, t);
    }
    BoundByPosition(be, g, w, lo, hi, SortNames(TensorVars(ids)), Pick(vals, ids));
  }

  /** With its input ids in decimal order a group computes the reference value from reference values. */
  lemma InOrderResult<P, V>(be: Backend<P, V>, g: Graph, vals: seq<V>, ref: seq<V>, lo: nat, hi: nat)
    requires MaximalRun(g, lo, hi) && AllEmit(be, g) && |vals| == |ref| == |g.tensors| && Solves(be, g, ref)
    requires forall t <- RunInputs(g, lo, hi) :: t < |vals| && vals[t] == ref[t]
    requires DecimalOrder(RunInputs(g, lo, hi))
    ensures g.nodes[hi - 1].output < |ref| && GroupResult(be, g, vals, lo, hi) == ref[g.nodes[hi - 1].output]
  {
    InputIdsInRange(g, hi - 1);
    var ids := RunInputs(g, lo, hi);
    RunInputsInRange(g, lo, hi);
    GroupResultRuns(be, g, vals, lo, hi);
    assert Pick(vals, ids) == Pick(ref, ids);
    forall i | lo <= i < hi ensures NodeEquation(be, g, ref, i) {}
    PositionalComputes(be, g, ref, lo, hi);
  }

  // ----- all groups, bound by position -----

  /** The values after running the groups of the first k nodes. */
  ghost function SurfaceValues<P, V>(be: Backend<P, V>, g: Graph, vals: seq<V>, k: nat): (w: seq<V>)
    requires WellFormed(g) && AllEmit(be, g) && |vals| == |g.tensors| && k <= |g.nodes|
    ensures |w| == |vals|
    decreases k
  {
    if k == 0 then vals
    else
      InputIdsInRange(g, k - 1);
      var lo := RunStart(g, k - 1);
      var w := SurfaceValues(be, g, vals, lo);
      w[g.nodes[k - 1].output := GroupResult(be, g, w, lo, k)]
  }

  /** What execution leaves for each graph input and group output. */
  ghost function Outcome<P, V>(be: Backend<P, V>, g: Graph, ins: seq<V>): (w: seq<V>)
    requires WellFormed(g) && AllEmit(be, g) && |ins| == |g.inputs|
    ensures |w| == |g.tensors|
  {
    ReferenceFacts(be, g, ins);
    SurfaceValues(be, g, Reference(be, g, ins), |g.nodes|)
  }

  /** A cut determines how many nodes it covers. */
  lemma CutInjective(g: Graph, j: nat, k: nat)
    requires j <= |g.nodes| && k <= |g.nodes| && Cut(g, j) == Cut(g, k)
    ensures j == k
  {
    CutIsPartition(g, j);
    CutIsPartition(g, k);
    assert |Span(0, j)| == |Span(0, k)|;
  }

  /** The groups of the first k nodes are the first groups of the whole cut. */
  ghost predicate Boundary(g: Graph, k: nat) {
    k <= |g.nodes| && |Cut(g, k)| <= |Cut(g, |g.nodes|)| && Cut(g, k) == Cut(g, |g.nodes|)[..|Cut(g, k)|]
  }

  lemma BoundaryBefore(g: Graph, k: nat)
    requires Boundary(g, k) && k > 0
    ensures Boundary(g, RunStart(g, k - 1))
    ensures |Cut(g, k)| > 0 && Cut(g, |g.nodes|)[|Cut(g, k)| - 1] == GroupOf(g, RunStart(g, k - 1), k)
  {
    CutLast(g, k);
    var c, all := Cut(g, k), Cut(g, |g.nodes|);
    assert c[..|c| - 1] == all[..|c| - 1];
    assert all[|c| - 1] == c[|c| - 1];
  }

  // ----- which groups matter -----

  /** What the given groups must supply so that the tensors `need` come out: those tensors, and the inputs
      of every group whose output is needed. */
  function NeededBy(groups: seq<Group>, need: set<TensorId>): set<TensorId> {
    if groups == [] then need
    else
      var last := groups[|groups| - 1];
      NeededBy(groups[..|groups| - 1], if last.output in need then need + (set t | t in last.inputs) else need)
  }

  /** The tensors that the marked outputs depend on. */
  function Needed(g: Graph): set<TensorId> {
    NeededBy(Cut(g, |g.nodes|), set t | t in g.outputs)
  }

  /** The set holds the given tensors and with every group output of the list the group's inputs. */
  ghost predicate ClosedUnder(groups: seq<Group>, need: set<TensorId>, d: set<TensorId>) {
    need <= d && forall j :: 0 <= j < |groups| && groups[j].output in d ==> forall t <- groups[j].inputs :: t in d
  }

  lemma {:induction false} NeededGrows(groups: seq<Group>, need: set<TensorId>)
    ensures need <= NeededBy(groups, need)
    decreases |groups|
  {
    if groups != [] {
      var last := groups[|groups| - 1];
      NeededGrows(groups[..|groups| - 1], if last.output in need then need + (set t | t in last.inputs) else need);
    }
  }

  /** Nothing is needed without reason: every closed set contains what is needed. */
  lemma {:induction false} NeededIsLeast(groups: seq<Group>, need: set<TensorId>, d: set<TensorId>)
    requires ClosedUnder(groups, need, d)
    ensures NeededBy(groups, need) <= d
    decreases |groups|
  {
    if groups != [] {
      var m := |groups| - 1;
      var last := groups[m];
      NeededIsLeast(groups[..m], if last.output in need then need + (set t | t in last.inputs) else need, d);
    }
  }

  /** Groups read only what earlier groups, or nobody, produce. */
  ghost predicate ReadsEarlier(groups: seq<Group>) {
    && (forall i, j :: 0 <= i < j < |groups| ==> groups[i].output < groups[j].output)
    && forall j :: 0 <= j < |groups| ==> forall t <- groups[j].inputs :: t < groups[j].output
  }

  /** Tensors from a bound on that are not needed already do not become needed by groups below it. */
  lemma {:induction false} NeededBelow(groups: seq<Group>, need: set<TensorId>, t: TensorId)
    requires ReadsEarlier(groups) && t in NeededBy(groups, need)
    requires forall j :: 0 <= j < |groups| ==> groups[j].output <= t
    ensures t in need
    decreases |groups|
  {
    if groups != [] {
      var m := |groups| - 1;
      var last := groups[m];
      NeededBelow(groups[..m], if last.output in need then need + (set t | t in last.inputs) else need, t);
    }
  }

  /** What is needed is closed. */
  lemma {:induction false} NeededIsClosed(groups: seq<Group>, need: set<TensorId>)
    requires ReadsEarlier(groups)
    ensures ClosedUnder(groups, need, NeededBy(groups, need))
    decreases |groups|
  {
    NeededGrows(groups, need);
    if groups != [] {
      var m := |groups| - 1;
      var last := groups[m];
      var more := if last.output in need then need + (set t | t in last.inputs) else need;
      NeededIsClosed(groups[..m], more);
      NeededGrows(groups[..m], more);
      forall j | 0 <= j < |groups| && groups[j].output in NeededBy(groups, need)
        ensures forall t <- groups[j].inputs :: t in NeededBy(groups, need)
      {
        if j < m {
          assert groups[..m][j] == groups[j];
        } else {
          NeededBelow(groups[..m], more, last.output);
        }
      }
    }
  }

  lemma CutReadsEarlier(g: Graph)
    requires WellFormed(g)
    ensures ReadsEarlier(Cut(g, |g.nodes|))
  {
    var c := Cut(g, |g.nodes|);
    forall i, j | 0 <= i < j < |c| ensures c[i].output < c[j].output { CutOutputsIncrease(g, |g.nodes|, i, j); }
    forall j | 0 <= j < |c| ensures forall t <- c[j].inputs :: t < c[j].output {
      var lo, hi := CutAt(g, |g.nodes|, j);
      forall t <- c[j].inputs ensures t < c[j].output { GroupInputsAvailable(g, lo, hi, t); }
    }
  }

  /** Every group that the marked outputs depend on has its input ids in decimal order. */
  ghost predicate NeededInOrder(g: Graph) {
    forall j :: 0 <= j < |Cut(g, |g.nodes|)| && Cut(g, |g.nodes|)[j].output in Needed(g) ==>
      DecimalOrder(Cut(g, |g.nodes|)[j].inputs)
  }

  /** Where only groups in decimal order feed a closed set of tensors, these keep their reference values. */
  lemma {:induction false} SurfacesAgree<P, V>(be: Backend<P, V>, g: Graph, ref: seq<V>, k: nat, d: set<TensorId>)
    requires WellFormed(g) && AllEmit(be, g) && |ref| == |g.tensors| && Solves(be, g, ref) && Boundary(g, k)
    requires ClosedUnder(Cut(g, |g.nodes|), {}, d)
    requires forall j :: 0 <= j < |Cut(g, |g.nodes|)| && Cut(g, |g.nodes|)[j].output in d ==>
               DecimalOrder(Cut(g, |g.nodes|)[j].inputs)
    ensures forall t <- d :: t < |ref| ==> SurfaceValues(be, g, ref, k)[t] == ref[t]
    decreases k
  {
    if k > 0 {
      var lo := RunStart(g, k - 1);
      BoundaryBefore(g, k);
      SurfacesAgree(be, g, ref, lo, d);
      if g.nodes[k - 1].output in d { AgreeNext(be, g, SurfaceValues(be, g, ref, lo), ref, lo, k, d); }
    }
  }

  lemma AgreeNext<P, V>(be: Backend<P, V>, g: Graph, vals: seq<V>, ref: seq<V>, lo: nat, k: nat, d: set<TensorId>)
    requires WellFormed(g) && AllEmit(be, g) && |vals| == |ref| == |g.tensors| && Solves(be, g, ref)
    requires 0 < k <= |g.nodes| && lo == RunStart(g, k - 1)
    requires forall t <- RunInputs(g, lo, k) :: t in d
    requires DecimalOrder(RunInputs(g, lo, k))
    requires forall t <- d :: t < |ref| ==> vals[t] == ref[t]
    ensures g.nodes[k - 1].output < |ref| && GroupResult(be, g, vals, lo, k) == ref[g.nodes[k - 1].output]
  {
    RunStartIsChain(g, k - 1);
    RunInputsInRange(g, lo, k);
    var ids := RunInputs(g, lo, k);
    forall t <- ids ensures t < |vals| && vals[t] == ref[t] {
      var i :| 0 <= i < |ids| && ids[i] == t;
    }
    InOrderResult(be, g, vals, ref, lo, k);
  }

  /** Every marked output has its reference value after execution. */
  ghost predicate OutputsRight<P, V>(be: Backend<P, V>, g: Graph, ins: seq<V>)
    requires WellFormed(g) && AllEmit(be, g) && |ins| == |g.inputs|
  {
    ReferenceFacts(be, g, ins);
    forall o <- g.outputs :: o < |g.tensors| ==> Outcome(be, g, ins)[o] == Reference(be, g, ins)[o]
  }

  /** If every group that the marked outputs depend on has its input ids in decimal order, execution gives
      them their reference values: for every backend and all inputs. */
  lemma OutcomeIsReference<P, V>(be: Backend<P, V>, g: Graph, ins: seq<V>)
    requires WellFormed(g) && AllEmit(be, g) && |ins| == |g.inputs| && NeededInOrder(g)
    ensures OutputsRight(be, g, ins)
  {
    ReferenceFacts(be, g, ins);
    CutReadsEarlier(g);
    NeededIsClosed(Cut(g, |g.nodes|), set t | t in g.outputs);
    WholeCut(g);
    SurfacesAgree(be, g, Reference(be, g, ins), |g.nodes|, Needed(g));
  }

  lemma WholeCut(g: Graph)
    ensures Boundary(g, |g.nodes|)
  {
    assert Cut(g, |g.nodes|)[..|Cut(g, |g.nodes|)|] == Cut(g, |g.nodes|);
  }
}
