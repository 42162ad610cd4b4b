/** Binding surfaces to parameters by position.  The signature of a fused program is sorted by name while
    the executor hands the surfaces over in group order. */
module Binding {
  import opened Names
  import opened Sequences
  import opened Graph
  import opened Fusion
  import opened Mil

  /** The ids are in the alphabetical order of their decimal renderings: 10 comes before 2. */
  ghost predicate DecimalOrder(ids: seq<nat>) {
    forall i :: 0 < i < |ids| ==> AtMost(Digits(ids[i - 1]), Digits(ids[i]))
  }

  lemma NamesFollowIds(ids: seq<nat>)
    ensures Alphabetical(TensorVars(ids)) <==> DecimalOrder(ids)
  {
    var names := TensorVars(ids);
    forall i | 0 < i < |ids|
      ensures AtMost(names[i - 1], names[i]) <==> AtMost(Digits(ids[i - 1]), Digits(ids[i]))
    {
      assert names[i - 1][1..] == Digits(ids[i - 1]) && names[i][1..] == Digits(ids[i]);
    }
  }

  /** The signature of a group's program lists its parameters in group order exactly when the input ids
      are in decimal order. */
  lemma SignatureOrder<P, V>(be: Backend<P, V>, g: Graph, lo: nat, hi: nat)
    requires lo < hi && Emits(be, g, lo, hi)
    ensures GroupLowers(be, g, lo, hi)
    ensures Compiled(be, g, GroupOf(g, lo, hi)).value.params == TensorVars(RunInputs(g, lo, hi))
       <==> DecimalOrder(RunInputs(g, lo, hi))
  {
    RunLowers(be, g, lo, hi);
    SortedFixpoint(TensorVars(RunInputs(g, lo, hi)));
    NamesFollowIds(RunInputs(g, lo, hi));
  }

  /** The i-th surface becomes the i-th parameter. */
  function Positional<V>(params: seq<string>, surfaces: seq<V>): map<string, V>
    requires |params| == |surfaces|
  {
    if params == [] then map[]
    else
      var n := |params| - 1;
      Positional(params[..n], surfaces[..n])[params[n] := surfaces[n]]
  }

  /** Every input finds its own value under its own name. */
  ghost predicate BindsAll<V>(env: map<string, V>, vals: seq<V>, ids: seq<nat>) {
    forall t <- ids :: t < |vals| && TensorVar(t) in env && env[TensorVar(t)] == vals[t]
  }

  lemma {:induction false} InOrderBinds<V>(vals: seq<V>, ids: seq<nat>)
    requires forall k :: 0 <= k < |ids| ==> ids[k] < |vals|
    ensures BindsAll(Positional(TensorVars(ids), Pick(vals, ids)), vals, ids)
  {
    if ids != [] {
      var n := |ids| - 1;
      InOrderBinds(vals, ids[..n]);
      assert TensorVars(ids)[..n] == TensorVars(ids[..n]) && Pick(vals, ids)[..n] == Pick(vals, ids[..n]);
      forall t <- ids ensures t in ids[..n] || t == ids[n] {}
      forall t <- ids[..n] | TensorVar(t) == TensorVar(ids[n]) ensures t == ids[n] { TensorVarInjective(t, ids[n]); }
    }
  }

  /** With its input ids in decimal order, a group's program computes the value of the group's last node
      also when its surfaces are bound by position. */
  lemma PositionalComputes<P, V>(be: Backend<P, V>, g: Graph, vals: seq<V>, lo: nat, hi: nat)
    requires MaximalRun(g, lo, hi) && |vals| == |g.tensors|
    requires forall i :: lo <= i < hi ==> NodeEquation(be, g, vals, i)
    requires forall k :: 0 <= k < |RunInputs(g, lo, hi)| ==> RunInputs(g, lo, hi)[k] < |vals|
    requires DecimalOrder(RunInputs(g, lo, hi))
    ensures GroupLowers(be, g, lo, hi) && GroupOf(g, lo, hi).output < |vals|
    ensures var prog := Compiled(be, g, GroupOf(g, lo, hi)).value;
            && |prog.params| == |RunInputs(g, lo, hi)|
            && RunProgram(be.meaning, prog, Positional(prog.params, Pick(vals, RunInputs(g, lo, hi))))
               == Some(vals[GroupOf(g, lo, hi).output])
  {
    var ids := RunInputs(g, lo, hi);
    EquationsEmit(be, g, vals, lo, hi);
    SignatureOrder(be, g, lo, hi);
    InOrderBinds(vals, ids);
    BoundComputes(be, g, vals, lo, hi, Positional(TensorVars(ids), Pick(vals, ids)));
  }

  lemma BoundComputes<P, V>(be: Backend<P, V>, g: Graph, vals: seq<V>, lo: nat, hi: nat, env: map<string, V>)
    requires MaximalRun(g, lo, hi) && |vals| == |g.tensors| && BindsAll(env, vals, RunInputs(g, lo, hi))
    requires forall i :: lo <= i < hi ==> NodeEquation(be, g, vals, i)
    ensures GroupLowers(be, g, lo, hi) && GroupOf(g, lo, hi).output < |vals|
    ensures RunProgram(be.meaning, Compiled(be, g, GroupOf(g, lo, hi)).value, env)
         == Some(vals[GroupOf(g, lo, hi).output])
  {
    GroupComputes(be, g, vals, lo, hi, env);
  }

  /** The same for any surfaces that the sorted signature happens to bind to the inputs' values. */
  lemma BoundByPosition<P, V>(be: Backend<P, V>, g: Graph, vals: seq<V>, lo: nat, hi: nat, params: seq<string>,
                              surfaces: seq<V>)
    requires MaximalRun(g, lo, hi) && |vals| == |g.tensors|
    requires forall i :: lo <= i < hi ==> NodeEquation(be, g, vals, i)
    requires params == SortNames(TensorVars(RunInputs(g, lo, hi))) && |params| == |surfaces|
    requires BindsAll(Positional(params, surfaces), vals, RunInputs(g, lo, hi))
    ensures GroupLowers(be, g, lo, hi) && GroupOf(g, lo, hi).output < |vals|
    ensures var prog := Compiled(be, g, GroupOf(g, lo, hi)).value;
            prog.params == params
            && RunProgram(be.meaning, prog, Positional(params, surfaces)) == Some(vals[GroupOf(g, lo, hi).output])
  {
    EquationsEmit(be, g, vals, lo, hi);
    RunLowers(be, g, lo, hi);
    BoundComputes(be, g, vals, lo, hi, Positional(params, surfaces));
  }

  /** Binding the sorted signature by position gives every input its own value, whatever the values. */
  ghost predicate AlwaysBinds(ids: seq<nat>, n: nat)
    requires forall k :: 0 <= k < |ids| ==> ids[k] < n
  {
    SortedLength(TensorVars(ids));
    forall vals: seq<int> :: |vals| == n ==>
      BindsAll(Positional(SortNames(TensorVars(ids)), Pick(vals, ids)), vals, ids)
  }

  lemma SortedLength(names: seq<string>)
    ensures |SortNames(names)| == |names|
  {
    SortNamesPermutes(names);
    assert |multiset(SortNames(names))| == |multiset(names)|;
  }

  lemma {:induction false} PositionalAt<V>(params: seq<string>, surfaces: seq<V>, j: nat)
    requires |params| == |surfaces| && NoDuplicates(params) && j < |params|
    ensures params[j] in Positional(params, surfaces) && Positional(params, surfaces)[params[j]] == surfaces[j]
  {
    var n := |params| - 1;
    if j < n {
      assert params[..n][j] == params[j] && params[j] != params[n];
      PositionalAt(params[..n], surfaces[..n], j);
    }
  }

  /** For distinct inputs the decimal order is exactly what binding by position needs. */
  lemma PositionalIffDecimalOrder(ids: seq<nat>, n: nat)
    requires NoDuplicates(ids) && forall k :: 0 <= k < |ids| ==> ids[k] < n
    ensures AlwaysBinds(ids, n) <==> DecimalOrder(ids)
  {
    var names := TensorVars(ids);
    SortedFixpoint(names);
    NamesFollowIds(ids);
    SortedLength(names);
    if DecimalOrder(ids) {
      forall vals: seq<int> | |vals| == n ensures BindsAll(Positional(SortNames(names), Pick(vals, ids)), vals, ids) {
        InOrderBinds(vals, ids);
      }
    }
    if AlwaysBinds(ids, n) { BoundMeansSorted(ids, n); }
  }

  /** With each tensor's id as its value, a wrong position shows. */
  lemma BoundMeansSorted(ids: seq<nat>, n: nat)
    requires NoDuplicates(ids) && forall k :: 0 <= k < |ids| ==> ids[k] < n
    requires AlwaysBinds(ids, n)
    ensures SortNames(TensorVars(ids)) == TensorVars(ids)
  {
    var names := TensorVars(ids);
    var params := SortNames(names);
    var vals: seq<int> := seq(n, i => i);
    SortedLength(names);
    var env := Positional(params, Pick(vals, ids));
    assert BindsAll(env, vals, ids);
    SortedDistinct(ids);
    forall j | 0 <= j < |params| ensures params[j] == names[j] {
      PositionalAt(params, Pick(vals, ids), j);
      var t := SortedMember(ids, j);
      assert env[params[j]] == ids[j] && env[TensorVar(t)] == vals[t] == t;
    }
  }

  lemma SortedDistinct(ids: seq<nat>)
    requires NoDuplicates(ids)
    ensures NoDuplicates(SortNames(TensorVars(ids)))
  {
    VarsDistinct(ids);
    SortNamesPermutes(TensorVars(ids));
    DistinctByCount(TensorVars(ids));
    DistinctByCount(SortNames(TensorVars(ids)));
  }

  lemma SortedMember(ids: seq<nat>, j: nat) returns (t: nat)
    requires j < |SortNames(TensorVars(ids))|
    ensures t in ids && SortNames(TensorVars(ids))[j] == TensorVar(t)
  {
    var names := TensorVars(ids);
    SortNamesPermutes(names);
    assert SortNames(names)[j] in multiset(SortNames(names));
    assert SortNames(names)[j] in names;
    var k :| 0 <= k < |names| && names[k] == SortNames(names)[j];
    t := ids[k];
  }
}
