/** Greedy fusion: the insertion order of the nodes is cut into chains, each compiled and
    dispatched as one program. */
module Fusion {
  import opened Names
  import opened Sequences
  import opened Graph

  datatype Group = Group(nodeIds: seq<nat>, inputs: seq<TensorId>, output: TensorId)

  predicate Supported(op: Op) {
    !op.Conv2d? && !op.Cast? && !op.Unknown?
  }

  // ----- consumer counts -----

  /** How often each tensor is read by a list of nodes. */
  function Reads(nodes: seq<Node>): multiset<TensorId> {
    if nodes == [] then multiset{}
    else Reads(nodes[..|nodes| - 1]) + multiset(nodes[|nodes| - 1].inputs)
  }

  /** Reads by nodes plus one for every time the tensor is marked as a graph output. */
  function Consumers(g: Graph): multiset<TensorId> {
    Reads(g.nodes) + multiset(g.outputs)
  }

  function Bump(count: map<TensorId, nat>, t: TensorId): map<TensorId, nat> {
    count[t := (if t in count then count[t] else 0) + 1]
  }

  /** `count` agrees with a multiset, tensors it does not mention counting as 0. */
  ghost predicate Counts(count: map<TensorId, nat>, m: multiset<TensorId>) {
    forall t: TensorId :: m[t] == if t in count then count[t] else 0
  }

  method BumpAll(count: map<TensorId, nat>, ts: seq<TensorId>, ghost m: multiset<TensorId>)
    returns (r: map<TensorId, nat>)
    requires Counts(count, m)
    ensures Counts(r, m + multiset(ts)) && count.Keys <= r.Keys
  {
    r := count;
    for k := 0 to |ts|
      invariant Counts(r, m + multiset(ts[..k])) && count.Keys <= r.Keys
    {
      assert ts[..k + 1] == ts[..k] + [ts[k]];
      r := Bump(r, ts[k]);
    }
    assert ts[..|ts|] == ts;
  }

  /** The counting loops give every tensor of the graph its number of consumers. */
  method BuildConsumerCount(g: Graph) returns (count: map<TensorId, nat>)
    ensures Counts(count, Consumers(g))
    ensures forall t <- g.tensors :: t.id in count
  {
    count := map[];
    for k := 0 to |g.tensors|
      invariant Counts(count, multiset{})
      invariant forall j :: 0 <= j < k ==> g.tensors[j].id in count
    {
      count := count[g.tensors[k].id := 0];
    }
    for k := 0 to |g.nodes|
      invariant Counts(count, Reads(g.nodes[..k]))
      invariant forall t <- g.tensors :: t.id in count
    {
      assert g.nodes[..k + 1][..k] == g.nodes[..k];
      count := BumpAll(count, g.nodes[k].inputs, Reads(g.nodes[..k]));
    }
    assert g.nodes[..|g.nodes|] == g.nodes;
    count := BumpAll(count, g.outputs, Reads(g.nodes));
  }

  /** Two nodes that read the same tensor contribute separately to its count. */
  lemma {:induction false} ReadsOfTwo(nodes: seq<Node>, i: nat, j: nat, t: TensorId)
    requires i < j < |nodes|
    ensures Reads(nodes)[t] >= multiset(nodes[i].inputs)[t] + multiset(nodes[j].inputs)[t]
  {
    var pre := nodes[..|nodes| - 1];
    if j < |pre| { ReadsOfTwo(pre, i, j, t); } else { ReadsOfOne(pre, i, t); }
  }

  lemma {:induction false} ReadsOfOne(nodes: seq<Node>, i: nat, t: TensorId)
    requires i < |nodes|
    ensures Reads(nodes)[t] >= multiset(nodes[i].inputs)[t]
  {
    var pre := nodes[..|nodes| - 1];
    if i < |pre| { ReadsOfOne(pre, i, t); }
  }

  /** A tensor with one consumer occurs in one input position of one node and is no output:
      any second read at (j, b) beside (i, a), or a mark as output, makes two. */
  lemma SoleConsumer(g: Graph, i: nat, a: nat, j: nat, b: nat)
    requires i < |g.nodes| && a < |g.nodes[i].inputs|
    requires j < |g.nodes| && b < |g.nodes[j].inputs|
    requires g.nodes[i].inputs[a] == g.nodes[j].inputs[b]
    requires Consumers(g)[g.nodes[i].inputs[a]] == 1
    ensures i == j && a == b
    ensures g.nodes[i].inputs[a] !in g.outputs
  {
    var t := g.nodes[i].inputs[a];
    ReadsOfOne(g.nodes, i, t);
    if i < j { ReadsOfTwo(g.nodes, i, j, t); }
    if j < i { ReadsOfTwo(g.nodes, j, i, t); }
    if i == j && a != b {
      var x, y := if a < b then a else b, if a < b then b else a;
      TwoOccurrences(g.nodes[i].inputs, x, y);
    }
  }

  lemma TwoOccurrences(s: seq<TensorId>, x: nat, y: nat)
    requires x < y < |s| && s[x] == s[y]
    ensures multiset(s)[s[x]] >= 2
  {
    assert s == s[..x] + [s[x]] + s[x + 1..y] + [s[y]] + s[y + 1..];
  }

  // ----- the extension test and the greedy pass -----

  /** May `candidate` be appended to `group`?  The tests in the order the code makes them. */
  predicate CanExtend(g: Graph, group: Group, candidate: nat, count: map<TensorId, nat>)
    requires forall i :: 0 <= i < |group.nodeIds| ==> group.nodeIds[i] < |g.nodes|
    requires candidate < |g.nodes|
  {
    && group.nodeIds != []
    && var last := g.nodes[group.nodeIds[|group.nodeIds| - 1]];
    var c := g.nodes[candidate];
    && Supported(c.op)
    && c.inputs != []
    && c.inputs[0] == last.output
    && last.output in count && count[last.output] == 1
    && (c.weightFile != "" ==> forall i <- group.nodeIds :: g.nodes[i].weightFile != c.weightFile)
    && (|c.inputs| >= 2 ==> forall i <- group.nodeIds :: g.nodes[i].output != c.inputs[1])
  }

  /** Appends those of `more` that are not yet in `s`, one after the other. */
  function AddNew(s: seq<TensorId>, more: seq<TensorId>): seq<TensorId> {
    if more == [] then s
    else
      var r := AddNew(s, more[..|more| - 1]);
      var t := more[|more| - 1];
      if t in r then r else r + [t]
  }

  /** The tensors join one by one, front to back. */
  lemma {:induction false} AddNewFront(s: seq<TensorId>, more: seq<TensorId>)
    requires more != []
    ensures AddNew(s, more) == AddNew(if more[0] in s then s else s + [more[0]], more[1..])
    decreases |more|
  {
    var m := |more| - 1;
    if m > 0 {
      AddNewFront(s, more[..m]);
      assert more[..m][1..] == more[1..][..m - 1];
    }
  }

  /** The deduplicating loop that records a fused node's side inputs. */
  method AddSideInputs(known: seq<TensorId>, node: Node) returns (inputs: seq<TensorId>)
    requires node.inputs != []
    ensures inputs == AddNew(known, node.inputs[1..])
  {
    inputs := known;
    for i := 1 to |node.inputs|
      invariant inputs == AddNew(known, node.inputs[1..i])
    {
      assert node.inputs[1..i + 1][..i - 1] == node.inputs[1..i];
      if node.inputs[i] !in inputs { inputs := inputs + [node.inputs[i]]; }
    }
    assert node.inputs[1..|node.inputs|] == node.inputs[1..];
  }

  /** A node that opens a group contributes all its inputs, repeated ones included. */
  method HeadInputs(node: Node) returns (inputs: seq<TensorId>)
    ensures inputs == node.inputs
  {
    inputs := [];
    if node.inputs != [] { inputs := [node.inputs[0]]; }
    var i := 1;
    while i < |node.inputs|
      invariant node.inputs == [] ==> inputs == []
      invariant node.inputs != [] ==> 1 <= i <= |node.inputs| && inputs == node.inputs[..i]
    {
      inputs := inputs + [node.inputs[i]];
      i := i + 1;
    }
  }

  /** The greedy pass of the compiler.  `Cut` below says what it computes. */
  method ComputeGroups(g: Graph) returns (groups: seq<Group>)
    requires WellFormed(g)
    ensures groups == Cut(g, |g.nodes|)
  {
    var count := BuildConsumerCount(g);
    groups := [];
    for k := 0 to |g.nodes|
      invariant groups == Cut(g, k)
    {
      groups := PlaceNode(g, k, groups, count);
    }
  }

  /** Extends the last group with node k or opens a new one. */
  method PlaceNode(g: Graph, k: nat, groups0: seq<Group>, count: map<TensorId, nat>) returns (groups: seq<Group>)
    requires WellFormed(g) && k < |g.nodes| && groups0 == Cut(g, k) && Counts(count, Consumers(g))
    ensures groups == Cut(g, k + 1)
  {
    var node := g.nodes[k];
    assert node.id == k by { assert NodeOk(g, k); }
    GroupsSoFar(g, k, groups0, count);
    if groups0 != [] && CanExtend(g, groups0[|groups0| - 1], node.id, count) {
      groups := ExtendLast(g, k, groups0, node);
    } else {
      groups := OpenNew(g, k, groups0, node);
    }
  }

  /** Where the next node goes. */
  lemma GroupsSoFar(g: Graph, k: nat, groups: seq<Group>, count: map<TensorId, nat>)
    requires WellFormed(g) && k < |g.nodes| && groups == Cut(g, k) && Counts(count, Consumers(g))
    ensures groups == [] <==> k == 0
    ensures k > 0 ==> var last := groups[|groups| - 1]; last.nodeIds != [] && forall i <- last.nodeIds :: i < |g.nodes|
    ensures k > 0 ==> (CanExtend(g, groups[|groups| - 1], k, count) <==> Fusable(g, k - 1))
  {
    if k > 0 {
      CutLast(g, k);
      ExtendIsPairTest(g, RunStart(g, k - 1), k, count);
    }
  }

  method ExtendLast(g: Graph, ghost k: nat, groups0: seq<Group>, node: Node) returns (groups: seq<Group>)
    requires 0 < k < |g.nodes| && Fusable(g, k - 1) && groups0 == Cut(g, k) && node == g.nodes[k] && node.id == k
    ensures groups == Cut(g, k + 1)
  {
    CutLast(g, k);
    CutExtends(g, k);
    var last := groups0[|groups0| - 1];
    var inputs := AddSideInputs(last.inputs, node);
    groups := groups0[..|groups0| - 1] + [Group(last.nodeIds + [node.id], inputs, node.output)];
  }

  method OpenNew(g: Graph, ghost k: nat, groups0: seq<Group>, node: Node) returns (groups: seq<Group>)
    requires k < |g.nodes| && (k == 0 || !Fusable(g, k - 1))
    requires groups0 == Cut(g, k) && node == g.nodes[k] && node.id == k
    ensures groups == Cut(g, k + 1)
  {
    CutOpens(g, k);
    var inputs := HeadInputs(node);
    groups := groups0 + [Group([node.id], inputs, node.output)];
  }

  // ----- what the pass computes -----

  /** The adjacent-pair test that the whole extension test comes down to. */
  predicate Fusable(g: Graph, i: nat)
    requires i + 1 < |g.nodes|
  {
    var c := g.nodes[i + 1];
    && Supported(c.op)
    && c.inputs != [] && c.inputs[0] == g.nodes[i].output
    && Consumers(g)[g.nodes[i].output] == 1
  }

  /** Every adjacent pair of the run lo, .., hi - 1 may be fused. */
  ghost predicate Chain(g: Graph, lo: nat, hi: nat) {
    lo < hi <= |g.nodes| && forall i :: lo <= i && i + 1 < hi ==> Fusable(g, i)
  }

  /** Where the maximal fusable run that ends with node i starts. */
  function RunStart(g: Graph, i: nat): (lo: nat)
    requires i < |g.nodes|
    ensures lo <= i
  {
    if i > 0 && Fusable(g, i - 1) then RunStart(g, i - 1) else i
  }

  /** The tensors a run reads from outside, in discovery order. */
  function RunInputs(g: Graph, lo: nat, hi: nat): seq<TensorId>
    requires lo < hi <= |g.nodes|
  {
    if hi == lo + 1 then g.nodes[lo].inputs
    else
      var more := g.nodes[hi - 1].inputs;
      AddNew(RunInputs(g, lo, hi - 1), if more == [] then [] else more[1..])
  }

  /** The ids lo, .., hi - 1. */
  function Span(lo: nat, hi: nat): (s: seq<nat>)
    requires lo <= hi
    ensures |s| == hi - lo && forall k :: 0 <= k < |s| ==> s[k] == lo + k
  {
    seq(hi - lo, k requires 0 <= k < hi - lo => lo + k)
  }

  function GroupOf(g: Graph, lo: nat, hi: nat): Group
    requires lo < hi <= |g.nodes|
  {
    Group(Span(lo, hi), RunInputs(g, lo, hi), g.nodes[hi - 1].output)
  }

  /** The first k nodes cut into maximal fusable runs. */
  function Cut(g: Graph, k: nat): seq<Group>
    requires k <= |g.nodes|
  {
    if k == 0 then []
    else
      var lo := RunStart(g, k - 1);
      Cut(g, lo) + [GroupOf(g, lo, k)]
  }

  lemma {:induction false} RunStartIsChain(g: Graph, i: nat)
    requires i < |g.nodes|
    ensures Chain(g, RunStart(g, i), i + 1)
    ensures var lo := RunStart(g, i); lo == 0 || !Fusable(g, lo - 1)
  {
    if i > 0 && Fusable(g, i - 1) { RunStartIsChain(g, i - 1); }
  }

  lemma CutLast(g: Graph, k: nat)
    requires 0 < k <= |g.nodes|
    ensures Cut(g, k) != []
    ensures var lo := RunStart(g, k - 1);
            Chain(g, lo, k) && (lo == 0 || !Fusable(g, lo - 1)) && Cut(g, k)[|Cut(g, k)| - 1] == GroupOf(g, lo, k)
            && Cut(g, k)[..|Cut(g, k)| - 1] == Cut(g, lo)
  {
    RunStartIsChain(g, k - 1);
  }

  /** Inside a run only the chain input of each node is produced by the run: every other input
      position, of any arity, reads from outside. */
  lemma SideInputsAreExternal(g: Graph, lo: nat, hi: nat, i: nat, h: nat, b: nat)
    requires WellFormed(g) && Chain(g, lo, hi)
    requires lo <= i < hi && lo <= h < hi && b < |g.nodes[h].inputs|
    requires h > lo ==> b > 0
    ensures g.nodes[h].inputs[b] != g.nodes[i].output
  {
    if g.nodes[h].inputs[b] == g.nodes[i].output {
      ReaderIsLater(g, h, b, i);
      assert Fusable(g, i);
      SoleConsumer(g, i + 1, 0, h, b);
    }
  }

  lemma ReaderIsLater(g: Graph, h: nat, b: nat, i: nat)
    requires WellFormed(g) && h < |g.nodes| && i < |g.nodes| && b < |g.nodes[h].inputs|
    requires g.nodes[h].inputs[b] == g.nodes[i].output
    ensures i < h
  {
    assert NodeOk(g, h) && NodeOk(g, i);
  }

  /** For a run built so far, the extension test is the adjacent-pair test: the weight-file rule
      and the side-input rule never reject anything in a graph built through the API. */
  lemma ExtendIsPairTest(g: Graph, lo: nat, h: nat, count: map<TensorId, nat>)
    requires WellFormed(g) && Chain(g, lo, h) && h < |g.nodes|
    requires Counts(count, Consumers(g))
    ensures CanExtend(g, GroupOf(g, lo, h), h, count) <==> Fusable(g, h - 1)
  {
    var ids := GroupOf(g, lo, h).nodeIds;
    assert ids[|ids| - 1] == h - 1;
    if Fusable(g, h - 1) {
      assert Chain(g, lo, h + 1);
      forall i <- ids
        ensures g.nodes[h].weightFile != "" ==> g.nodes[i].weightFile != g.nodes[h].weightFile
        ensures |g.nodes[h].inputs| >= 2 ==> g.nodes[i].output != g.nodes[h].inputs[1]
      {
        assert NodeOk(g, i) && NodeOk(g, h);
        WeightFilesDistinct(i, h);
        if |g.nodes[h].inputs| >= 2 { SideInputsAreExternal(g, lo, h + 1, i, h, 1); }
      }
    }
  }

  /** A fusable node extends the last run. */
  lemma CutExtends(g: Graph, k: nat)
    requires 0 < k < |g.nodes| && Fusable(g, k - 1)
    ensures var lo := RunStart(g, k - 1);
            Cut(g, k + 1) == Cut(g, lo) + [Group(Span(lo, k) + [k],
              AddNew(RunInputs(g, lo, k), g.nodes[k].inputs[1..]), g.nodes[k].output)]
  {
    var lo := RunStart(g, k - 1);
    assert RunStart(g, k) == lo;
    assert Span(lo, k + 1) == Span(lo, k) + [k];
  }

  /** Any other node opens a new run. */
  lemma CutOpens(g: Graph, k: nat)
    requires k < |g.nodes| && (k == 0 || !Fusable(g, k - 1))
    ensures Cut(g, k + 1) == Cut(g, k) + [Group([k], g.nodes[k].inputs, g.nodes[k].output)]
  {
    assert RunStart(g, k) == k;
    assert Span(k, k + 1) == [k];
  }

  // ----- partition and minimality -----

  function Flatten(groups: seq<Group>): seq<nat> {
    if groups == [] then [] else Flatten(groups[..|groups| - 1]) + groups[|groups| - 1].nodeIds
  }

  /** The groups concatenate to exactly the insertion order: every node is in one group. */
  lemma {:induction false} CutIsPartition(g: Graph, k: nat)
    requires k <= |g.nodes|
    ensures Flatten(Cut(g, k)) == Span(0, k)
  {
    if k > 0 {
      CutLast(g, k);
      var lo := RunStart(g, k - 1);
      CutIsPartition(g, lo);
      FlattenLast(Cut(g, k), Cut(g, lo), lo, k);
    }
  }

  lemma FlattenLast(groups: seq<Group>, rest: seq<Group>, lo: nat, k: nat)
    requires groups != [] && groups[..|groups| - 1] == rest && lo <= k
    requires Flatten(rest) == Span(0, lo) && groups[|groups| - 1].nodeIds == Span(lo, k)
    ensures Flatten(groups) == Span(0, k)
  {
    assert Span(0, lo) + Span(lo, k) == Span(0, k);
  }

  /** A run may be built node by node under the extension test. */
  ghost predicate LegalRun(g: Graph, lo: nat, hi: nat, count: map<TensorId, nat>) {
    && lo < hi <= |g.nodes|
    && forall h :: lo < h < hi ==> CanExtend(g, GroupOf(g, lo, h), h, count)
  }

  /** `cuts` lists the end positions of consecutive legal runs that cover the first k nodes. */
  ghost predicate LegalCut(g: Graph, cuts: seq<nat>, k: nat, count: map<TensorId, nat>) {
    if cuts == [] then k == 0
    else
      var m := |cuts| - 1;
      var lo := if m == 0 then 0 else cuts[m - 1];
      cuts[m] == k && LegalRun(g, lo, k, count) && LegalCut(g, cuts[..m], lo, count)
  }

  lemma {:induction false} LegalRunIsChain(g: Graph, lo: nat, hi: nat, count: map<TensorId, nat>)
    requires WellFormed(g) && Counts(count, Consumers(g)) && LegalRun(g, lo, hi, count)
    ensures Chain(g, lo, hi)
  {
    if hi > lo + 1 {
      LegalRunIsChain(g, lo, hi - 1, count);
      ExtendIsPairTest(g, lo, hi - 1, count);
    }
  }

  lemma {:induction false} StepsGrow(f: nat -> nat, a: nat, b: nat)
    requires a <= b && forall k: nat :: k < b ==> f(k) <= f(k + 1)
    ensures f(a) <= f(b)
  {
    if a < b { StepsGrow(f, a, b - 1); }
  }

  lemma CutGrows(g: Graph, a: nat, b: nat)
    requires a <= b <= |g.nodes|
    ensures |Cut(g, a)| <= |Cut(g, b)|
  {
    var f := (k: nat) => if k <= |g.nodes| then |Cut(g, k)| else 0;
    forall k: nat | k < b ensures f(k) <= f(k + 1) { CutStep(g, k); }
    StepsGrow(f, a, b);
  }

  lemma CutStep(g: Graph, k: nat)
    requires k < |g.nodes|
    ensures |Cut(g, k)| <= |Cut(g, k + 1)|
  {
    if k > 0 && Fusable(g, k - 1) { CutExtends(g, k); CutLast(g, k); } else { CutOpens(g, k); }
  }

  lemma {:induction false} ChainStart(g: Graph, lo: nat, hi: nat)
    requires Chain(g, lo, hi)
    ensures RunStart(g, hi - 1) <= lo
  {
    if hi > lo + 1 { ChainStart(g, lo, hi - 1); }
  }

  /** No cut of the insertion order into runs that the extension test allows has fewer groups
      than the greedy one. */
  lemma {:induction false} GreedyIsMinimal(g: Graph, cuts: seq<nat>, k: nat, count: map<TensorId, nat>)
    requires WellFormed(g) && Counts(count, Consumers(g))
    requires k <= |g.nodes| && LegalCut(g, cuts, k, count)
    ensures |Cut(g, k)| <= |cuts|
  {
    if cuts != [] {
      var m := |cuts| - 1;
      var lo := if m == 0 then 0 else cuts[m - 1];
      GreedyIsMinimal(g, cuts[..m], lo, count);
      LegalRunIsChain(g, lo, k, count);
      ChainStart(g, lo, k);
      CutGrows(g, RunStart(g, k - 1), lo);
      CutLast(g, k);
    }
  }

  // ----- where a group's inputs come from -----

  lemma {:induction false} AddNewElements(s: seq<TensorId>, more: seq<TensorId>)
    ensures forall t :: t in AddNew(s, more) <==> t in s || t in more
    ensures |AddNew(s, more)| >= |s| && AddNew(s, more)[..|s|] == s
  {
    if more != [] {
      var pre, t := more[..|more| - 1], more[|more| - 1];
      AddNewElements(s, pre);
      assert more == pre + [t];
    }
  }

  /** A run's inputs are its head's inputs and the side inputs of its other nodes. */
  lemma RunInputsElements(g: Graph, lo: nat, hi: nat)
    requires lo < hi <= |g.nodes|
    ensures |RunInputs(g, lo, hi)| >= |g.nodes[lo].inputs|
    ensures RunInputs(g, lo, hi)[..|g.nodes[lo].inputs|] == g.nodes[lo].inputs
    ensures forall h, b :: lo <= h < hi && (if h == lo then 0 else 1) <= b < |g.nodes[h].inputs| ==>
              g.nodes[h].inputs[b] in RunInputs(g, lo, hi)
    ensures forall t <- RunInputs(g, lo, hi) :: exists h, b :: ExternalRead(g, lo, hi, h, b, t)
  {
    HeadInputsFirst(g, lo, hi);
    forall h, b | lo <= h < hi && (if h == lo then 0 else 1) <= b < |g.nodes[h].inputs|
      ensures g.nodes[h].inputs[b] in RunInputs(g, lo, hi)
    {
      ReadIsListed(g, lo, hi, h, b);
    }
    forall t <- RunInputs(g, lo, hi) ensures exists h, b :: ExternalRead(g, lo, hi, h, b, t) {
      var h, b := ListedIsRead(g, lo, hi, t);
    }
  }

  lemma {:induction false} HeadInputsFirst(g: Graph, lo: nat, hi: nat)
    requires lo < hi <= |g.nodes|
    ensures |RunInputs(g, lo, hi)| >= |g.nodes[lo].inputs|
    ensures RunInputs(g, lo, hi)[..|g.nodes[lo].inputs|] == g.nodes[lo].inputs
  {
    if hi > lo + 1 {
      HeadInputsFirst(g, lo, hi - 1);
      AddNewElements(RunInputs(g, lo, hi - 1), Others(g, hi - 1));
      var n, all := |g.nodes[lo].inputs|, RunInputs(g, lo, hi);
      var pre := RunInputs(g, lo, hi - 1);
      assert all[..|pre|] == pre;
      assert all[..n] == all[..|pre|][..n];
    }
  }

  function Others(g: Graph, i: nat): seq<TensorId>
    requires i < |g.nodes|
  {
    var all := g.nodes[i].inputs;
    if all == [] then [] else all[1..]
  }

  lemma {:induction false} ReadIsListed(g: Graph, lo: nat, hi: nat, h: nat, b: nat)
    requires lo <= h < hi <= |g.nodes| && (if h == lo then 0 else 1) <= b < |g.nodes[h].inputs|
    ensures g.nodes[h].inputs[b] in RunInputs(g, lo, hi)
  {
    if hi > lo + 1 {
      AddNewElements(RunInputs(g, lo, hi - 1), Others(g, hi - 1));
      if h < hi - 1 {
        ReadIsListed(g, lo, hi - 1, h, b);
      } else {
        assert Others(g, h)[b - 1] == g.nodes[h].inputs[b];
      }
    }
  }

  lemma {:induction false} ListedIsRead(g: Graph, lo: nat, hi: nat, t: TensorId) returns (h: nat, b: nat)
    requires lo < hi <= |g.nodes| && t in RunInputs(g, lo, hi)
    ensures ExternalRead(g, lo, hi, h, b, t)
  {
    if hi == lo + 1 {
      h := lo;
      b :| 0 <= b < |g.nodes[lo].inputs| && g.nodes[lo].inputs[b] == t;
    } else {
      AddNewElements(RunInputs(g, lo, hi - 1), Others(g, hi - 1));
      if t in RunInputs(g, lo, hi - 1) {
        h, b := ListedIsRead(g, lo, hi - 1, t);
      } else {
        h := hi - 1;
        var c :| 0 <= c < |Others(g, h)| && Others(g, h)[c] == t;
        b := c + 1;
      }
    }
  }

  /** Node h of the run reads t in position b, and that position is not its chain input. */
  ghost predicate ExternalRead(g: Graph, lo: nat, hi: nat, h: nat, b: nat, t: TensorId) {
    && lo <= h < hi <= |g.nodes| && (if h == lo then 0 else 1) <= b < |g.nodes[h].inputs|
    && g.nodes[h].inputs[b] == t
  }

  /** t is a graph input or the output of one of the given groups. */
  ghost predicate Available(g: Graph, groups: seq<Group>, t: TensorId) {
    t in g.inputs || exists j :: 0 <= j < |groups| && groups[j].output == t
  }

  /** If node p is not the last of its group then only the next node reads its output, so a
      tensor that anything else reads, or that is marked as output, is some group's output. */
  lemma {:induction false} ReadElsewhereIsGroupOutput(g: Graph, k: nat, p: nat)
    requires p < k <= |g.nodes|
    requires p + 1 < k ==> !Fusable(g, p)
    ensures exists j :: 0 <= j < |Cut(g, k)| && Cut(g, k)[j].output == g.nodes[p].output
  {
    CutLast(g, k);
    var lo := RunStart(g, k - 1);
    var c := Cut(g, k);
    if p == k - 1 {
      assert c[|c| - 1].output == g.nodes[p].output;
    } else {
      assert p < lo;
      ReadElsewhereIsGroupOutput(g, lo, p);
      var j :| 0 <= j < |Cut(g, lo)| && Cut(g, lo)[j].output == g.nodes[p].output;
      assert c[j] == Cut(g, lo)[j];
    }
  }

  /** Everything a group reads is a graph input or the output of a strictly earlier group. */
  lemma GroupInputsAvailable(g: Graph, lo: nat, hi: nat, t: TensorId)
    requires WellFormed(g) && Chain(g, lo, hi) && t in RunInputs(g, lo, hi)
    requires lo == 0 || !Fusable(g, lo - 1)
    ensures Available(g, Cut(g, lo), t)
    ensures forall i :: lo <= i < hi ==> g.nodes[i].output != t
    ensures t < g.nodes[hi - 1].output
  {
    var h, b := ListedIsRead(g, lo, hi, t);
    InputComesFromEarlierNode(g, h, b);
    assert NodeOk(g, h) && TensorOk(g, t);
    forall i | lo <= i < hi ensures g.nodes[i].output != t {
      SideInputsAreExternal(g, lo, hi, i, h, b);
    }
    if g.tensors[t].producer.Some? {
      var p := g.tensors[t].producer.value;
      assert p < lo;
      EarlierProducer(g, lo, p, h, b);
    }
  }

  /** A tensor produced before lo and read from lo on is the output of a group of the first lo nodes. */
  lemma EarlierProducer(g: Graph, lo: nat, p: nat, h: nat, b: nat)
    requires WellFormed(g) && p < lo <= h < |g.nodes| && b < |g.nodes[h].inputs|
    requires g.nodes[h].inputs[b] == g.nodes[p].output
    ensures exists j :: 0 <= j < |Cut(g, lo)| && Cut(g, lo)[j].output == g.nodes[p].output
  {
    if p + 1 < lo && Fusable(g, p) { SoleConsumer(g, p + 1, 0, h, b); }
    ReadElsewhereIsGroupOutput(g, lo, p);
  }

  /** Every marked output that a node produces is the output of some group. */
  lemma MarkedOutputsAreGroupOutputs(g: Graph, o: TensorId)
    requires WellFormed(g) && o in g.outputs && g.tensors[o].producer.Some?
    ensures exists j :: 0 <= j < |Cut(g, |g.nodes|)| && Cut(g, |g.nodes|)[j].output == o
  {
    assert TensorOk(g, o);
    var p := g.tensors[o].producer.value;
    if p + 1 < |g.nodes| && Fusable(g, p) { SoleConsumer(g, p + 1, 0, p + 1, 0); }
    ReadElsewhereIsGroupOutput(g, |g.nodes|, p);
  }

  // ----- the groups of the cut -----

  /** Which run of nodes a group of the cut is. */
  lemma {:induction false} CutAt(g: Graph, k: nat, j: nat) returns (lo: nat, hi: nat)
    requires k <= |g.nodes| && j < |Cut(g, k)|
    ensures Chain(g, lo, hi) && (lo == 0 || !Fusable(g, lo - 1))
    ensures Cut(g, k)[j] == GroupOf(g, lo, hi) && Cut(g, k)[..j] == Cut(g, lo)
  {
    CutLast(g, k);
    var m, c := RunStart(g, k - 1), Cut(g, k);
    if j == |c| - 1 {
      lo, hi := m, k;
    } else {
      lo, hi := CutAt(g, m, j);
      PrefixOfPrefix(c, Cut(g, m), j);
    }
  }

  lemma PrefixOfPrefix(c: seq<Group>, rest: seq<Group>, j: nat)
    requires c != [] && c[..|c| - 1] == rest && j < |rest|
    ensures c[j] == rest[j] && c[..j] == rest[..j]
  {
  }

  /** A group of the cut of the first k nodes ends in one of those nodes. */
  lemma {:induction false} CutOutput(g: Graph, k: nat, j: nat) returns (p: nat)
    requires k <= |g.nodes| && j < |Cut(g, k)|
    ensures p < k && Cut(g, k)[j].output == g.nodes[p].output
  {
    CutLast(g, k);
    var m := RunStart(g, k - 1);
    if j == |Cut(g, k)| - 1 {
      p := k - 1;
    } else {
      assert Cut(g, k)[j] == Cut(g, k)[..|Cut(g, k)| - 1][j];
      p := CutOutput(g, m, j);
    }
  }

  lemma {:induction false} CutOutputsIncrease(g: Graph, k: nat, i: nat, j: nat)
    requires k <= |g.nodes| && i < j < |Cut(g, k)|
    requires forall a, b :: 0 <= a < b < |g.nodes| ==> g.nodes[a].output < g.nodes[b].output
    ensures Cut(g, k)[i].output < Cut(g, k)[j].output
  {
    CutLast(g, k);
    var c, m := Cut(g, k), RunStart(g, k - 1);
    assert c[i] == c[..|c| - 1][i];
    if j == |c| - 1 {
      var p := CutOutput(g, m, i);
    } else {
      assert c[j] == c[..|c| - 1][j];
      CutOutputsIncrease(g, m, i, j);
    }
  }

  /** Group outputs are node outputs, not graph inputs. */
  lemma GroupOutputIsNodeOutput(g: Graph, j: nat)
    requires WellFormed(g) && j < |Cut(g, |g.nodes|)|
    ensures Cut(g, |g.nodes|)[j].output < |g.tensors|
    ensures g.tensors[Cut(g, |g.nodes|)[j].output].producer.Some?
  {
    var p := CutOutput(g, |g.nodes|, j);
    assert NodeOk(g, p);
  }

  /** The run that ends with node hi - 1 is the one from lo on. */
  lemma RunStartOf(g: Graph, lo: nat, hi: nat)
    requires Chain(g, lo, hi) && (lo == 0 || !Fusable(g, lo - 1))
    ensures RunStart(g, hi - 1) == lo
  {
    ChainStart(g, lo, hi);
    RunStartIsChain(g, hi - 1);
  }

  lemma CutOneMore(g: Graph, lo: nat, hi: nat, j: nat)
    requires Chain(g, lo, hi) && RunStart(g, hi - 1) == lo && j < |Cut(g, |g.nodes|)|
    requires Cut(g, |g.nodes|)[..j] == Cut(g, lo) && Cut(g, |g.nodes|)[j] == GroupOf(g, lo, hi)
    ensures Cut(g, hi) == Cut(g, |g.nodes|)[..j + 1]
  {
    CutLast(g, hi);
    TakeOneMore(Cut(g, |g.nodes|), j, Cut(g, hi));
  }

  lemma TakeOneMore(all: seq<Group>, j: nat, c: seq<Group>)
    requires j < |all| && c != [] && c[..|c| - 1] == all[..j] && c[|c| - 1] == all[j]
    ensures c == all[..j + 1]
  {
    assert c == c[..|c| - 1] + [c[|c| - 1]];
    assert all[..j + 1] == all[..j] + [all[j]];
  }

  // ----- duplicated inputs -----

  lemma {:induction false} AddNewDuplicates(s: seq<TensorId>, more: seq<TensorId>)
    ensures NoDuplicates(AddNew(s, more)) <==> NoDuplicates(s)
  {
    AddNewElements(s, more);
    if more != [] {
      AddNewDuplicates(s, more[..|more| - 1]);
      AddNewElements(s, more[..|more| - 1]);
    }
  }

  /** A group lists no tensor twice exactly when its head reads no tensor twice: later nodes'
      side inputs are deduplicated, the head's own inputs are not. */
  lemma {:induction false} DuplicatedInputs(g: Graph, lo: nat, hi: nat)
    requires lo < hi <= |g.nodes|
    ensures NoDuplicates(RunInputs(g, lo, hi)) <==> NoDuplicates(g.nodes[lo].inputs)
  {
    if hi > lo + 1 {
      DuplicatedInputs(g, lo, hi - 1);
      var all := g.nodes[hi - 1].inputs;
      AddNewDuplicates(RunInputs(g, lo, hi - 1), if all == [] then [] else all[1..]);
    }
  }

  // ----- which nodes share a group -----

  /** Nodes i and i + 1 lie in one of the groups. */
  ghost predicate Together(groups: seq<Group>, i: nat) {
    exists j :: 0 <= j < |groups| && i in groups[j].nodeIds && i + 1 in groups[j].nodeIds
  }

  lemma {:induction false} CutIdsBelow(g: Graph, k: nat, j: nat, i: nat)
    requires k <= |g.nodes| && j < |Cut(g, k)| && i in Cut(g, k)[j].nodeIds
    ensures i < k
  {
    CutLast(g, k);
    var lo := RunStart(g, k - 1);
    if j < |Cut(g, k)| - 1 {
      assert Cut(g, k)[j] == Cut(g, k)[..|Cut(g, k)| - 1][j];
      CutIdsBelow(g, lo, j, i);
    }
  }

  lemma {:induction false} TogetherIffFusable(g: Graph, k: nat, i: nat)
    requires k <= |g.nodes| && i + 1 < k
    ensures Together(Cut(g, k), i) <==> Fusable(g, i)
  {
    var lo := RunStart(g, k - 1);
    PairsAround(g, k - 1, i);
    if i >= lo {
      TogetherInLast(g, k, i);
    } else {
      TogetherInRest(g, k, i);
      if i + 1 < lo { TogetherIffFusable(g, lo, i); } else { NotBeyond(g, lo, i); }
    }
  }

  lemma PairsAround(g: Graph, m: nat, i: nat)
    requires i < m < |g.nodes|
    ensures RunStart(g, m) <= i ==> Fusable(g, i)
    ensures RunStart(g, m) == i + 1 ==> !Fusable(g, i)
  {
    RunStartIsChain(g, m);
  }

  lemma TogetherInLast(g: Graph, k: nat, i: nat)
    requires i + 1 < k <= |g.nodes| && RunStart(g, k - 1) <= i
    ensures Together(Cut(g, k), i)
  {
    CutLast(g, k);
    TogetherAtEnd(Cut(g, k), RunStart(g, k - 1), k, i);
  }

  lemma TogetherAtEnd(groups: seq<Group>, lo: nat, hi: nat, i: nat)
    requires groups != [] && lo <= i && i + 1 < hi && groups[|groups| - 1].nodeIds == Span(lo, hi)
    ensures Together(groups, i)
  {
    SpanHas(lo, hi, i);
    SpanHas(lo, hi, i + 1);
    assert i in groups[|groups| - 1].nodeIds;
  }

  lemma TogetherInRest(g: Graph, k: nat, i: nat)
    requires k <= |g.nodes| && i + 1 < k && i < RunStart(g, k - 1)
    ensures Together(Cut(g, k), i) <==> Together(Cut(g, RunStart(g, k - 1)), i)
  {
    CutLast(g, k);
    SpanHas(RunStart(g, k - 1), k, i);
    TogetherBefore(Cut(g, k), Cut(g, RunStart(g, k - 1)), i);
  }

  lemma SpanHas(lo: nat, hi: nat, i: nat)
    requires lo <= hi
    ensures i in Span(lo, hi) <==> lo <= i < hi
  {
    if lo <= i < hi { assert Span(lo, hi)[i - lo] == i; }
  }

  lemma TogetherBefore(groups: seq<Group>, rest: seq<Group>, i: nat)
    requires groups != [] && groups[..|groups| - 1] == rest && i !in groups[|groups| - 1].nodeIds
    ensures Together(groups, i) <==> Together(rest, i)
  {
    assert forall j :: 0 <= j < |rest| ==> groups[j] == rest[j];
  }

  lemma NotBeyond(g: Graph, k: nat, i: nat)
    requires k <= |g.nodes| && k == i + 1
    ensures !Together(Cut(g, k), i)
  {
    if j :| 0 <= j < |Cut(g, k)| && i + 1 in Cut(g, k)[j].nodeIds { CutIdsBelow(g, k, j, i + 1); }
  }

  /** Tensor t is read only by node h. */
  ghost predicate OnlyReader(nodes: seq<Node>, h: nat, t: TensorId) {
    forall j, b :: 0 <= j < |nodes| && 0 <= b < |nodes[j].inputs| && nodes[j].inputs[b] == t ==> j == h
  }

  lemma {:induction false} ReadsByOne(nodes: seq<Node>, h: nat, t: TensorId)
    requires OnlyReader(nodes, h, t)
    ensures Reads(nodes)[t] == if h < |nodes| then multiset(nodes[h].inputs)[t] else 0
  {
    if nodes != [] {
      var pre, last := nodes[..|nodes| - 1], nodes[|nodes| - 1];
      ReadsByOne(pre, h, t);
      assert h != |nodes| - 1 ==> t !in last.inputs;
    }
  }

  lemma FirstOnly(s: seq<TensorId>)
    requires s != [] && forall b :: 0 < b < |s| ==> s[b] != s[0]
    ensures multiset(s)[s[0]] == 1
  {
    assert s == [s[0]] + s[1..];
    assert s[0] !in s[1..];
  }

  /** The tensor that node h reads first is read nowhere else and not marked. */
  ghost predicate SoleUse(g: Graph, h: nat)
    requires h < |g.nodes| && g.nodes[h].inputs != []
  {
    var t := g.nodes[h].inputs[0];
    && t !in g.outputs
    && forall j, b :: 0 <= j < |g.nodes| && 0 <= b < |g.nodes[j].inputs| && g.nodes[j].inputs[b] == t ==>
         j == h && b == 0
  }

  lemma CountsOne(g: Graph, h: nat)
    requires h < |g.nodes| && g.nodes[h].inputs != []
    ensures Consumers(g)[g.nodes[h].inputs[0]] == 1 <==> SoleUse(g, h)
  {
    var ins := g.nodes[h].inputs;
    if Consumers(g)[ins[0]] == 1 {
      forall j, b | 0 <= j < |g.nodes| && 0 <= b < |g.nodes[j].inputs| && g.nodes[j].inputs[b] == ins[0]
        ensures j == h && b == 0
      {
        SoleConsumer(g, h, 0, j, b);
      }
      SoleConsumer(g, h, 0, h, 0);
    }
    if SoleUse(g, h) {
      ReadsByOne(g.nodes, h, ins[0]);
      FirstOnly(ins);
    }
  }

  /** Two adjacent nodes share a group exactly when the second is a supported op that reads the first's
      output as its first input, and that tensor is read nowhere else and not marked. */
  lemma SharedGroupIff(g: Graph, i: nat)
    requires i + 1 < |g.nodes|
    ensures Together(Cut(g, |g.nodes|), i) <==>
            var c := g.nodes[i + 1];
            && c.op != Conv2d && c.op != Cast && !c.op.Unknown?
            && c.inputs != [] && c.inputs[0] == g.nodes[i].output && SoleUse(g, i + 1)
  {
    TogetherIffFusable(g, |g.nodes|, i);
    if g.nodes[i + 1].inputs != [] { CountsOne(g, i + 1); }
  }
}
