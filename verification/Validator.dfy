/** Validation of a graph before compilation. */
module Validator {
  import opened Sequences
  import opened Graph
  import opened Fusion

  // ----- Kahn's algorithm on an arbitrary node list -----

  /** The node whose output is t; a later node overrides an earlier one. */
  function Producer(nodes: seq<Node>, t: TensorId): (r: Option<nat>)
    ensures r.Some? ==> r.value < |nodes| && nodes[r.value].output == t
  {
    if nodes == [] then None
    else if nodes[|nodes| - 1].output == t then Some(|nodes| - 1)
    else Producer(nodes[..|nodes| - 1], t)
  }

  /** The producers of the first k inputs of node i. */
  function PredsUpTo(nodes: seq<Node>, i: nat, k: nat): (s: set<nat>)
    requires i < |nodes| && k <= |nodes[i].inputs|
    ensures forall p <- s :: p < |nodes|
  {
    if k == 0 then {}
    else
      var p := Producer(nodes, nodes[i].inputs[k - 1]);
      PredsUpTo(nodes, i, k - 1) + if p.Some? then {p.value} else {}
  }

  function Preds(nodes: seq<Node>, i: nat): set<nat>
    requires i < |nodes|
  {
    PredsUpTo(nodes, i, |nodes[i].inputs|)
  }

  /** The distinct predecessors of every node. */
  function PredSets(nodes: seq<Node>): (preds: seq<set<nat>>)
    ensures |preds| == |nodes| && forall i :: 0 <= i < |preds| ==> preds[i] == Preds(nodes, i)
  {
    seq(|nodes|, i requires 0 <= i < |nodes| => Preds(nodes, i))
  }

  /** The producer of t is the last node that outputs it. */
  lemma {:induction false} ProducerIsLast(nodes: seq<Node>, t: TensorId, p: nat)
    ensures Producer(nodes, t) == Some(p) <==>
            p < |nodes| && nodes[p].output == t && forall q :: p < q < |nodes| ==> nodes[q].output != t
  {
    if nodes != [] {
      var m := |nodes| - 1;
      ProducerIsLast(nodes[..m], t, p);
      if p < m && nodes[m].output != t {
        assert forall q :: p < q < m ==> nodes[..m][q] == nodes[q];
        assert nodes[..m][p] == nodes[p];
      }
    }
  }

  lemma {:induction false} PredsAreProducers(nodes: seq<Node>, i: nat, k: nat, p: nat)
    requires i < |nodes| && k <= |nodes[i].inputs|
    ensures p in PredsUpTo(nodes, i, k) <==> exists b :: 0 <= b < k && Producer(nodes, nodes[i].inputs[b]) == Some(p)
  {
    if k > 0 { PredsAreProducers(nodes, i, k - 1, p); }
  }

  /** Node p precedes node i exactly when i reads the output of p and no later node outputs that tensor. */
  lemma PrecedesIff(nodes: seq<Node>, i: nat, p: nat)
    requires i < |nodes|
    ensures p in PredSets(nodes)[i] <==>
            && p < |nodes| && nodes[p].output in nodes[i].inputs
            && forall q :: p < q < |nodes| ==> nodes[q].output != nodes[p].output
  {
    var ins := nodes[i].inputs;
    PredsAreProducers(nodes, i, |ins|, p);
    forall t: TensorId ensures Producer(nodes, t) == Some(p) <==>
        p < |nodes| && nodes[p].output == t && forall q :: p < q < |nodes| ==> nodes[q].output != t
    {
      ProducerIsLast(nodes, t, p);
    }
  }

  /** A sequence of nodes in which each feeds the next. */
  ghost predicate Walk(preds: seq<set<nat>>, w: seq<nat>) {
    && (forall k :: 0 <= k < |w| ==> w[k] < |preds|)
    && (forall k :: 0 < k < |w| ==> Feeds(preds, w, k))
  }

  ghost predicate Feeds(preds: seq<set<nat>>, w: seq<nat>, k: nat)
    requires 0 < k < |w| && w[k] < |preds|
  {
    w[k - 1] in preds[w[k]]
  }

  /** Some node is reached from itself. */
  ghost predicate Cyclic(preds: seq<set<nat>>) {
    exists w :: |w| >= 2 && Walk(preds, w) && w[0] == w[|w| - 1]
  }

  ghost predicate InRange(preds: seq<set<nat>>) {
    forall i :: 0 <= i < |preds| ==> forall p <- preds[i] :: p < |preds|
  }

  ghost predicate IdsAreIndices(nodes: seq<Node>) {
    forall i :: 0 <= i < |nodes| ==> nodes[i].id == i
  }

  method BuildProducers(inputs: seq<TensorId>, nodes: seq<Node>) returns (m: map<TensorId, Option<nat>>)
    requires IdsAreIndices(nodes)
    ensures forall t: TensorId :: (if t in m then m[t] else None) == Producer(nodes, t)
  {
    m := map[];
    for k := 0 to |inputs|
      invariant forall t <- m :: m[t] == None
    {
      m := m[inputs[k] := None];
    }
    for i := 0 to |nodes|
      invariant forall t: TensorId :: (if t in m then m[t] else None) == Producer(nodes[..i], t)
    {
      assert nodes[..i + 1][..i] == nodes[..i];
      m := m[nodes[i].output := Some(nodes[i].id)];
    }
    assert nodes[..|nodes|] == nodes;
  }

  /** With every node p are listed, once each, the nodes below i that p precedes, and i itself if
      p is among the predecessors of i seen so far. */
  ghost predicate SuccessorsUpTo(preds: seq<set<nat>>, succ: seq<seq<nat>>, i: nat, seen: set<nat>) {
    && |succ| == |preds| && i <= |preds|
    && forall p :: 0 <= p < |preds| ==> SuccessorList(preds, succ[p], p, i, seen)
  }

  ghost predicate SuccessorList(preds: seq<set<nat>>, s: seq<nat>, p: nat, i: nat, seen: set<nat>)
    requires i <= |preds|
  {
    NoDuplicates(s) && forall j: nat :: j in s <==> (j < i && p in preds[j]) || (j == i && p in seen)
  }

  /** Counts the distinct predecessors of node i and lists it with each of them. */
  method CountPredecessors(nodes: seq<Node>, i: nat, producers: map<TensorId, Option<nat>>, succ0: seq<seq<nat>>)
    returns (d: int, succ: seq<seq<nat>>)
    requires IdsAreIndices(nodes) && i < |nodes|
    requires forall t: TensorId :: (if t in producers then producers[t] else None) == Producer(nodes, t)
    requires SuccessorsUpTo(PredSets(nodes), succ0, i, {})
    ensures d == |Preds(nodes, i)| && SuccessorsUpTo(PredSets(nodes), succ, i + 1, {})
  {
    var n := nodes[i];
    ghost var preds := PredSets(nodes);
    var seen: set<nat> := {};
    d, succ := 0, succ0;
    for k := 0 to |n.inputs|
      invariant seen == PredsUpTo(nodes, i, k) && d == |seen|
      invariant SuccessorsUpTo(preds, succ, i, seen)
    {
      var t := n.inputs[k];
      if t in producers && producers[t].Some? {
        var p := producers[t].value;
        if p !in seen {
          AddSuccessor(preds, succ, i, seen, p);
          seen := seen + {p};
          d := d + 1;
          succ := succ[p := succ[p] + [n.id]];
        }
      }
    }
    NextSuccessors(preds, succ, i, seen);
  }

  /** In-degrees count distinct predecessors; successor lists invert the relation. */
  method BuildDegrees(inputs: seq<TensorId>, nodes: seq<Node>) returns (deg: seq<int>, succ: seq<seq<nat>>)
    requires IdsAreIndices(nodes)
    ensures |deg| == |nodes| && forall i :: 0 <= i < |nodes| ==> deg[i] == |Preds(nodes, i)|
    ensures SuccessorsUpTo(PredSets(nodes), succ, |nodes|, {})
  {
    var producers := BuildProducers(inputs, nodes);
    deg := [];
    succ := seq(|nodes|, i => []);
    for i := 0 to |nodes|
      invariant |deg| == i && forall j :: 0 <= j < i ==> deg[j] == |Preds(nodes, j)|
      invariant SuccessorsUpTo(PredSets(nodes), succ, i, {})
    {
      var d;
      d, succ := CountPredecessors(nodes, i, producers, succ);
      deg := deg + [d];
    }
  }

  lemma AddSuccessor(preds: seq<set<nat>>, succ: seq<seq<nat>>, i: nat, seen: set<nat>, p: nat)
    requires SuccessorsUpTo(preds, succ, i, seen) && i < |preds| && p < |preds| && p !in seen
    ensures SuccessorsUpTo(preds, succ[p := succ[p] + [i]], i, seen + {p})
  {
    var next := succ[p := succ[p] + [i]];
    forall x | 0 <= x < |preds| ensures SuccessorList(preds, next[x], x, i, seen + {p}) {
      assert SuccessorList(preds, succ[x], x, i, seen);
      if x == p {
        assert i !in succ[p];
        assert forall j :: j in next[p] <==> j in succ[p] || j == i;
      }
    }
  }

  lemma NextSuccessors(preds: seq<set<nat>>, succ: seq<seq<nat>>, i: nat, seen: set<nat>)
    requires i < |preds| && SuccessorsUpTo(preds, succ, i, seen) && preds[i] == seen
    ensures SuccessorsUpTo(preds, succ, i + 1, {})
  {
    forall p | 0 <= p < |preds| ensures SuccessorList(preds, succ[p], p, i + 1, {}) {
      assert SuccessorList(preds, succ[p], p, i, seen);
    }
  }

  // ----- counting -----

  ghost function SetOf(s: seq<nat>): set<nat> {
    set x | x in s
  }

  lemma {:induction false} DistinctSize(s: seq<nat>)
    requires NoDuplicates(s)
    ensures |SetOf(s)| == |s|
  {
    if s != [] {
      var pre := s[..|s| - 1];
      DistinctSize(pre);
      assert SetOf(s) == SetOf(pre) + {s[|s| - 1]};
    }
  }

  lemma {:induction false} BelowSize(n: nat, s: set<nat>)
    requires forall x <- s :: x < n
    ensures |s| <= n
  {
    if n > 0 { BelowSize(n - 1, s - {n - 1}); }
  }

  lemma {:induction false} AllBelow(n: nat, s: set<nat>)
    requires forall x :: 0 <= x < n ==> x in s
    ensures |s| >= n
  {
    if n > 0 { AllBelow(n - 1, s - {n - 1}); }
  }

  /** Distinct entries below n: at most n of them, and fewer than n only if some value is missing. */
  lemma DistinctBelow(s: seq<nat>, n: nat)
    requires NoDuplicates(s) && forall k :: 0 <= k < |s| ==> s[k] < n
    ensures |s| <= n
    ensures |s| == n <==> forall x :: 0 <= x < n ==> x in s
  {
    DistinctSize(s);
    BelowSize(n, SetOf(s));
    if forall x :: 0 <= x < n ==> x in s { AllBelow(n, SetOf(s)); }
    if |s| == n {
      forall x | 0 <= x < n ensures x in s {
        if x !in s {
          var t := s + [x];
          DistinctSize(t);
          BelowSize(n, SetOf(t));
        }
      }
    }
  }

  // ----- the pass itself -----

  /** `order` lists the processed nodes, then the queued ones: all distinct, and exactly those with
      in-degree zero. */
  ghost predicate Listed(deg: seq<int>, order: seq<nat>) {
    && NoDuplicates(order) && (forall k :: 0 <= k < |order| ==> order[k] < |deg|)
    && forall i :: 0 <= i < |deg| ==> (i in order <==> deg[i] == 0)
  }

  /** Degrees count the predecessors not yet processed, except that the nodes in `left` have not
      yet been told about the last one. */
  ghost predicate Owed(preds: seq<set<nat>>, deg: seq<int>, done: set<nat>, left: seq<nat>) {
    && |deg| == |preds|
    && forall i :: 0 <= i < |preds| ==> deg[i] == |preds[i] - done| + if i in left then 1 else 0
  }

  /** Every node listed was preceded by all its predecessors. */
  ghost predicate Sorted(preds: seq<set<nat>>, done: seq<nat>) {
    && (forall k :: 0 <= k < |done| ==> done[k] < |preds|)
    && (forall k :: 0 <= k < |done| ==> Preceded(preds, done, k))
  }

  ghost predicate Preceded(preds: seq<set<nat>>, done: seq<nat>, k: nat)
    requires k < |done| && done[k] < |preds|
  {
    forall p <- preds[done[k]] :: p in done[..k]
  }

  /** Kahn's pass: it processes all nodes exactly when the node list has no cycle. */
  method ProcessAll(inputs: seq<TensorId>, nodes: seq<Node>) returns (processed: nat)
    requires IdsAreIndices(nodes)
    ensures processed == |nodes| <==> !Cyclic(PredSets(nodes))
  {
    var deg, succ := BuildDegrees(inputs, nodes);
    ghost var preds := PredSets(nodes);
    var q := FreeNodes(nodes, deg);
    assert forall i :: 0 <= i < |nodes| ==> preds[i] - SetOf([]) == preds[i];
    assert InRange(preds);
    processed := Drain(preds, succ, deg, q);
  }

  /** The main loop, started with the nodes that wait for nothing. */
  method Drain(ghost preds: seq<set<nat>>, succ: seq<seq<nat>>, deg0: seq<int>, q0: seq<nat>) returns (processed: nat)
    requires InRange(preds) && SuccessorsUpTo(preds, succ, |preds|, {})
    requires Listed(deg0, q0) && Owed(preds, deg0, SetOf([]), [])
    ensures processed == |preds| <==> !Cyclic(preds)
  {
    var deg, q := deg0, q0;
    ghost var order := q;
    processed := 0;
    assert order[..0] == [];
    while q != []
      invariant processed <= |order| && q == order[processed..]
      invariant Listed(deg, order) && Owed(preds, deg, SetOf(order[..processed]), [])
      invariant Sorted(preds, order[..processed])
      decreases |preds| - processed
    {
      var nid := q[0];
      q := q[1..];
      PopSorted(preds, deg, order, processed);
      StillOwed(preds, succ, deg, order, processed);
      DistinctBelow(order, |preds|);
      processed := processed + 1;
      deg, q, order := Release(preds, succ[nid], deg, q, order, processed);
    }
    assert order[..processed] == order;
    KahnVerdict(preds, deg, order);
  }

  /** The initial queue: the nodes that wait for nothing. */
  method FreeNodes(nodes: seq<Node>, deg: seq<int>) returns (q: seq<nat>)
    requires IdsAreIndices(nodes) && |deg| == |nodes|
    ensures Listed(deg, q)
  {
    q := [];
    for i := 0 to |nodes|
      invariant NoDuplicates(q) && forall k :: 0 <= k < |q| ==> q[k] < i
      invariant forall j :: 0 <= j < i ==> (j in q <==> deg[j] == 0)
    {
      if deg[nodes[i].id] == 0 { q := q + [nodes[i].id]; }
    }
  }

  /** The next queued node has all its predecessors processed. */
  lemma PopSorted(preds: seq<set<nat>>, deg: seq<int>, order: seq<nat>, k: nat)
    requires k < |order| && Listed(deg, order) && Owed(preds, deg, SetOf(order[..k]), [])
    requires Sorted(preds, order[..k])
    ensures Sorted(preds, order[..k + 1])
  {
    var d := order[..k + 1];
    assert order[k] in order && deg[order[k]] == 0;
    assert preds[order[k]] - SetOf(order[..k]) == {};
    forall j | 0 <= j < |d| ensures Preceded(preds, d, j) {
      if j < k {
        assert Preceded(preds, order[..k], j);
        assert d[..j] == order[..k][..j];
      } else {
        assert d[..j] == order[..k];
        forall p <- preds[order[k]] ensures p in order[..k] {
          assert p !in preds[order[k]] - SetOf(order[..k]);
        }
      }
    }
  }

  lemma StillOwed(preds: seq<set<nat>>, succ: seq<seq<nat>>, deg: seq<int>, order: seq<nat>, k: nat)
    requires k < |order| && Listed(deg, order) && Owed(preds, deg, SetOf(order[..k]), [])
    requires SuccessorsUpTo(preds, succ, |preds|, {})
    ensures order[k] < |succ| && Owed(preds, deg, SetOf(order[..k + 1]), succ[order[k]])
    ensures NoDuplicates(succ[order[k]]) && forall j <- succ[order[k]] :: j < |preds|
  {
    var nid := order[k];
    assert SuccessorList(preds, succ[nid], nid, |preds|, {});
    assert SetOf(order[..k + 1]) == SetOf(order[..k]) + {nid};
    assert nid !in order[..k];
    forall i | 0 <= i < |preds|
      ensures deg[i] == |preds[i] - SetOf(order[..k + 1])| + if i in succ[nid] then 1 else 0
    {
      assert SuccessorList(preds, succ[nid], nid, |preds|, {});
      assert preds[i] - SetOf(order[..k + 1]) == (preds[i] - SetOf(order[..k])) - {nid};
    }
  }

  lemma AppendKeeps(order: seq<nat>, k: nat, x: nat)
    requires k <= |order|
    ensures (order + [x])[..k] == order[..k] && (order + [x])[k..] == order[k..] + [x]
  {
  }

  lemma Decrement(preds: seq<set<nat>>, deg: seq<int>, order: seq<nat>, done: set<nat>, left: seq<nat>,
                  rest: seq<nat>, x: nat)
    requires Listed(deg, order) && Owed(preds, deg, done, left)
    requires x < |preds| && left == [x] + rest && x !in rest
    ensures x < |deg| && Owed(preds, deg[x := deg[x] - 1], done, rest) && x !in order
    ensures Listed(deg[x := deg[x] - 1], if deg[x] == 1 then order + [x] else order)
  {
    assert x in left && forall i :: i in left <==> i == x || i in rest;
    var deg', order' := deg[x := deg[x] - 1], if deg[x] == 1 then order + [x] else order;
    forall i | 0 <= i < |deg'| ensures i in order' <==> deg'[i] == 0 { assert i in order <==> deg[i] == 0; }
  }

  /** The inner loop: tells the successors of the node just processed and queues those that become
      free. */
  method Release(ghost preds: seq<set<nat>>, s: seq<nat>, deg0: seq<int>, q0: seq<nat>,
                 ghost order0: seq<nat>, ghost k: nat)
    returns (deg: seq<int>, q: seq<nat>, ghost order: seq<nat>)
    requires k <= |order0| && q0 == order0[k..] && Listed(deg0, order0)
    requires NoDuplicates(s) && forall j <- s :: j < |preds|
    requires Owed(preds, deg0, SetOf(order0[..k]), s)
    ensures k <= |order| && order[..k] == order0[..k] && q == order[k..]
    ensures Listed(deg, order) && Owed(preds, deg, SetOf(order[..k]), [])
  {
    deg, q, order := deg0, q0, order0;
    ghost var done := SetOf(order0[..k]);
    for j := 0 to |s|
      invariant k <= |order| && order[..k] == order0[..k] && q == order[k..]
      invariant Listed(deg, order) && Owed(preds, deg, done, s[j..])
    {
      var x := s[j];
      assert x in s && s[j..] == [x] + s[j + 1..] && x !in s[j + 1..];
      assert x in s[j..];
      Decrement(preds, deg, order, done, s[j..], s[j + 1..], x);
      AppendKeeps(order, k, x);
      deg := deg[x := deg[x] - 1];
      if deg[x] == 0 {
        q := q + [x];
        order := order + [x];
      }
    }
  }

  /** With the queue empty, all nodes were processed exactly when there is no cycle. */
  lemma KahnVerdict(preds: seq<set<nat>>, deg: seq<int>, order: seq<nat>)
    requires InRange(preds) && Listed(deg, order) && Owed(preds, deg, SetOf(order), []) && Sorted(preds, order)
    ensures |order| == |preds| <==> !Cyclic(preds)
  {
    DistinctBelow(order, |preds|);
    if |order| == |preds| {
      if Cyclic(preds) {
        var w :| |w| >= 2 && Walk(preds, w) && w[0] == w[|w| - 1];
        var a, b := WalkAdvances(preds, order, w);
      }
    } else {
      var start: nat :| start < |preds| && start !in order;
      var w := StuckWalk(preds, deg, order, start, |preds| + 1);
      var a, b := Repetition(w, |preds|);
      ClosedWalk(preds, w, a, b);
    }
  }

  lemma ClosedWalk(preds: seq<set<nat>>, w: seq<nat>, a: nat, b: nat)
    requires Walk(preds, w) && a < b < |w| && w[a] == w[b]
    ensures Cyclic(preds)
  {
    var c := w[a..b + 1];
    forall k | 0 < k < |c| ensures Feeds(preds, c, k) {
      assert Feeds(preds, w, a + k);
    }
    assert |c| >= 2 && Walk(preds, c) && c[0] == c[|c| - 1];
  }

  /** Along a walk, positions in the processing order increase. */
  lemma {:induction false} WalkAdvances(preds: seq<set<nat>>, order: seq<nat>, w: seq<nat>) returns (a: nat, b: nat)
    requires Sorted(preds, order) && NoDuplicates(order)
    requires forall x :: 0 <= x < |preds| ==> x in order
    requires |w| >= 2 && Walk(preds, w)
    ensures a < b < |order| && order[a] == w[0] && order[b] == w[|w| - 1]
  {
    var m := |w| - 1;
    assert w[m] in order;
    b :| 0 <= b < |order| && order[b] == w[m];
    assert Feeds(preds, w, m) && Preceded(preds, order, b);
    assert w[m - 1] in order[..b];
    var c :| 0 <= c < b && order[c] == w[m - 1];
    if m == 1 {
      a := c;
    } else {
      var c';
      forall k | 0 < k < m ensures Feeds(preds, w[..m], k) {
        assert Feeds(preds, w, k);
      }
      a, c' := WalkAdvances(preds, order, w[..m]);
      assert order[c'] == order[c];
    }
  }

  /** A node that was never freed waits for another such node, so walks of any length end in it. */
  lemma {:induction false} StuckWalk(preds: seq<set<nat>>, deg: seq<int>, order: seq<nat>, last: nat, len: nat)
    returns (w: seq<nat>)
    requires InRange(preds) && Listed(deg, order) && Owed(preds, deg, SetOf(order), [])
    requires last < |preds| && last !in order && len > 0
    ensures |w| == len && Walk(preds, w) && w[len - 1] == last
    decreases len
  {
    if len == 1 {
      w := [last];
    } else {
      var p := Blocker(preds, deg, order, last);
      var v := StuckWalk(preds, deg, order, p, len - 1);
      ExtendWalk(preds, v, last);
      w := v + [last];
    }
  }

  lemma ExtendWalk(preds: seq<set<nat>>, v: seq<nat>, last: nat)
    requires Walk(preds, v) && v != [] && last < |preds| && v[|v| - 1] in preds[last]
    ensures Walk(preds, v + [last])
  {
    var w := v + [last];
    forall k | 0 < k < |w| ensures Feeds(preds, w, k) {
      if k < |v| { assert Feeds(preds, v, k); }
    }
  }

  lemma Blocker(preds: seq<set<nat>>, deg: seq<int>, order: seq<nat>, i: nat) returns (p: nat)
    requires InRange(preds) && Listed(deg, order) && Owed(preds, deg, SetOf(order), [])
    requires i < |preds| && i !in order
    ensures p < |preds| && p in preds[i] && p !in order
  {
    assert deg[i] != 0;
    assert preds[i] - SetOf(order) != {};
    p :| p in preds[i] - SetOf(order);
  }

  /** More than n entries below n repeat one. */
  lemma Repetition(w: seq<nat>, n: nat) returns (a: nat, b: nat)
    requires |w| > n && forall k :: 0 <= k < |w| ==> w[k] < n
    ensures a < b < |w| && w[a] == w[b]
  {
    if NoDuplicates(w) { DistinctBelow(w, n); }
    a, b :| 0 <= a < b < |w| && w[a] == w[b];
  }

  // ----- edges and reachability -----

  /** What is defined before node k: the graph inputs and the outputs of earlier nodes. */
  function Defined(g: Graph, k: nat): set<TensorId>
    requires k <= |g.nodes|
  {
    if k == 0 then set t | t in g.inputs else Defined(g, k - 1) + {g.nodes[k - 1].output}
  }

  ghost predicate EdgesOk(g: Graph) {
    && (forall i :: 0 <= i < |g.nodes| ==> AllIn(g.nodes[i].inputs, Defined(g, i)))
    && (forall k :: 0 <= k < |g.outputs| ==> g.outputs[k] < |g.tensors| && g.outputs[k] in Defined(g, |g.nodes|))
  }

  ghost predicate AllIn(ts: seq<TensorId>, s: set<TensorId>) {
    forall k :: 0 <= k < |ts| ==> ts[k] in s
  }

  method CheckAllIn(ts: seq<TensorId>, s: set<TensorId>) returns (ok: bool)
    ensures ok <==> AllIn(ts, s)
  {
    ok := true;
    for k := 0 to |ts|
      invariant ok <==> forall b :: 0 <= b < k ==> ts[b] in s
    {
      if ts[k] !in s { ok := false; }
    }
  }

  method CheckEdges(g: Graph) returns (ok: bool)
    ensures ok <==> EdgesOk(g)
  {
    var nodesOk, defined := CheckNodeEdges(g);
    var outputsOk := CheckOutputs(g, defined);
    ok := nodesOk && outputsOk;
  }

  method CheckNodeEdges(g: Graph) returns (ok: bool, defined: set<TensorId>)
    ensures ok <==> forall j :: 0 <= j < |g.nodes| ==> AllIn(g.nodes[j].inputs, Defined(g, j))
    ensures defined == Defined(g, |g.nodes|)
  {
    ok := true;
    defined := set t | t in g.inputs;
    for i := 0 to |g.nodes|
      invariant defined == Defined(g, i)
      invariant ok <==> forall j :: 0 <= j < i ==> AllIn(g.nodes[j].inputs, Defined(g, j))
    {
      var here := CheckAllIn(g.nodes[i].inputs, defined);
      ok := ok && here;
      defined := defined + {g.nodes[i].output};
    }
  }

  method CheckOutputs(g: Graph, defined: set<TensorId>) returns (ok: bool)
    ensures ok <==> forall k :: 0 <= k < |g.outputs| ==> g.outputs[k] < |g.tensors| && g.outputs[k] in defined
  {
    ok := true;
    for k := 0 to |g.outputs|
      invariant ok <==> forall b :: 0 <= b < k ==> g.outputs[b] < |g.tensors| && g.outputs[b] in defined
    {
      if g.outputs[k] >= |g.tensors| || g.outputs[k] !in defined { ok := false; }
    }
  }

  /** What one forward pass finds reachable; a node without inputs counts as reachable. */
  function Reached(g: Graph, k: nat): set<TensorId>
    requires k <= |g.nodes|
  {
    if k == 0 then set t | t in g.inputs
    else
      var r, ins := Reached(g, k - 1), g.nodes[k - 1].inputs;
      if forall b :: 0 <= b < |ins| ==> ins[b] in r
      then r + {g.nodes[k - 1].output} else r
  }

  /** A tensor is defined before node k exactly when it is an input or an earlier node outputs it; */
  lemma {:induction false} DefinedIff(g: Graph, k: nat, t: TensorId)
    requires k <= |g.nodes|
    ensures t in Defined(g, k) <==> t in g.inputs || exists j :: 0 <= j < k && g.nodes[j].output == t
  {
    if k > 0 { DefinedIff(g, k - 1, t); }
  }

  /** it is reached exactly when the same holds of a node whose inputs were all reached before. */
  lemma {:induction false} ReachedIff(g: Graph, k: nat, t: TensorId)
    requires k <= |g.nodes|
    ensures t in Reached(g, k) <==>
            t in g.inputs || exists j :: 0 <= j < k && g.nodes[j].output == t && AllIn(g.nodes[j].inputs, Reached(g, j))
  {
    if k > 0 { ReachedIff(g, k - 1, t); }
  }

  ghost predicate OutputsReached(g: Graph) {
    forall t <- g.outputs :: t < |g.tensors| ==> t in Reached(g, |g.nodes|)
  }

  method CheckReachability(g: Graph) returns (ok: bool)
    ensures ok <==> OutputsReached(g)
  {
    var reached := set t | t in g.inputs;
    for i := 0 to |g.nodes|
      invariant reached == Reached(g, i)
    {
      var all := true;
      for k := 0 to |g.nodes[i].inputs|
        invariant all <==> forall b :: 0 <= b < k ==> g.nodes[i].inputs[b] in reached
      {
        if g.nodes[i].inputs[k] !in reached { all := false; break; }
      }
      if all { reached := reached + {g.nodes[i].output}; }
    }
    ok := true;
    for k := 0 to |g.outputs|
      invariant ok <==> forall b :: 0 <= b < k ==> g.outputs[b] < |g.tensors| ==> g.outputs[b] in reached
    {
      if g.outputs[k] < |g.tensors| && g.outputs[k] !in reached { ok := false; }
    }
  }

  lemma ReachedNext(g: Graph, k: nat, ins: seq<TensorId>)
    requires 0 < k <= |g.nodes| && ins == g.nodes[k - 1].inputs && AllIn(ins, Reached(g, k - 1))
    ensures g.nodes[k - 1].output in Reached(g, k)
  {
  }

  /** Everything older than the output of node k is defined, and reached, before node k. */
  lemma {:induction false} OlderIsDefined(g: Graph, k: nat, t: TensorId)
    requires WellFormed(g) && k <= |g.nodes| && t < |g.tensors|
    requires k < |g.nodes| ==> t < g.nodes[k].output
    ensures t in Defined(g, k) && t in Reached(g, k)
  {
    assert TensorOk(g, t);
    if k > 0 {
      assert NodeOk(g, k - 1);
      if t < g.nodes[k - 1].output {
        OlderIsDefined(g, k - 1, t);
      } else if t == g.nodes[k - 1].output {
        var ins := g.nodes[k - 1].inputs;
        forall b | 0 <= b < |ins| ensures ins[b] in Reached(g, k - 1) {
          OlderIsDefined(g, k - 1, ins[b]);
        }
        ReachedNext(g, k, ins);
      } else {
        NewerIsInput(g, k, t);
        InputsStay(g, k, t);
      }
    }
  }

  lemma NewerIsInput(g: Graph, k: nat, t: TensorId)
    requires WellFormed(g) && 0 < k <= |g.nodes| && g.nodes[k - 1].output < t < |g.tensors|
    requires k < |g.nodes| ==> t < g.nodes[k].output
    ensures t in g.inputs
  {
    assert TensorOk(g, t);
  }

  lemma {:induction false} InputsStay(g: Graph, k: nat, t: TensorId)
    requires k <= |g.nodes| && t in g.inputs
    ensures t in Defined(g, k) && t in Reached(g, k)
  {
    if k > 0 { InputsStay(g, k - 1, t); }
  }

  lemma {:induction false} PredIsProducer(nodes: seq<Node>, i: nat, k: nat, p: nat) returns (b: nat)
    requires i < |nodes| && k <= |nodes[i].inputs| && p in PredsUpTo(nodes, i, k)
    ensures b < k && Producer(nodes, nodes[i].inputs[b]) == Some(p)
  {
    if Producer(nodes, nodes[i].inputs[k - 1]) == Some(p) {
      b := k - 1;
    } else {
      b := PredIsProducer(nodes, i, k - 1, p);
    }
  }

  lemma {:induction false} WalkDescends(g: Graph, w: seq<nat>)
    requires WellFormed(g) && |w| >= 2 && Walk(PredSets(g.nodes), w)
    ensures w[0] < w[|w| - 1]
  {
    var m := |w| - 1;
    var preds := PredSets(g.nodes);
    assert Feeds(preds, w, m);
    var i, p := w[m], w[m - 1];
    var b := PredIsProducer(g.nodes, i, |g.nodes[i].inputs|, p);
    InputComesFromEarlierNode(g, i, b);
    assert NodeOk(g, p);
    assert p < i;
    if m > 1 {
      forall k | 0 < k < m ensures Feeds(preds, w[..m], k) { assert Feeds(preds, w, k); }
      WalkDescends(g, w[..m]);
    }
  }

  /** Graphs built through the API never fail the edge, cycle and reachability checks. */
  lemma ApiGraphsPass(calls: seq<Call>)
    ensures var g := Built(calls);
            EdgesOk(g) && !Cyclic(PredSets(g.nodes)) && OutputsReached(g)
  {
    BuiltIsWellFormed(calls);
    WellFormedPasses(Built(calls));
  }

  lemma WellFormedPasses(g: Graph)
    requires WellFormed(g)
    ensures EdgesOk(g) && !Cyclic(PredSets(g.nodes)) && OutputsReached(g)
  {
    forall i | 0 <= i < |g.nodes| ensures AllIn(g.nodes[i].inputs, Defined(g, i)) {
      assert NodeOk(g, i);
      forall t <- g.nodes[i].inputs ensures t in Defined(g, i) { OlderIsDefined(g, i, t); }
    }
    forall k | 0 <= k < |g.outputs|
      ensures g.outputs[k] < |g.tensors|
      ensures g.outputs[k] in Defined(g, |g.nodes|) && g.outputs[k] in Reached(g, |g.nodes|)
    {
      OlderIsDefined(g, |g.nodes|, g.outputs[k]);
    }
    if Cyclic(PredSets(g.nodes)) {
      var w :| |w| >= 2 && Walk(PredSets(g.nodes), w) && w[0] == w[|w| - 1];
      WalkDescends(g, w);
    }
  }

  // ----- per-node checks -----

  predicate Unary(op: Op) {
    || op.Gelu? || op.Softmax? || op.AvgPool? || op.MaxPool? || op.Neg? || op.Sinh? || op.Cosh? || op.Tan?
    || op.Asin? || op.Acos? || op.Silu? || op.Sqrt? || op.Log? || op.Rsqrt? || op.Transpose? || op.Cast?
    || op.Relu? || op.Tanh? || op.Sigmoid? || op.Hardswish? || op.LeakyRelu? || op.Elu?
  }

  predicate Binary(op: Op) {
    || op.Add? || op.Mul? || op.Mod? || op.Sub? || op.RealDiv? || op.LogicalAnd? || op.LogicalOr? || op.LogicalXor?
  }

  predicate Reduction(op: Op) {
    op.ReduceProd? || op.ReduceSum? || op.ReduceMean? || op.ReduceMax?
  }

  /** A little-endian signed 32-bit integer. */
  function Int32(b: seq<byte>): int
    requires |b| == 4
  {
    var u := b[0] as int + 256 * (b[1] as int) + 65536 * (b[2] as int) + 16777216 * (b[3] as int);
    if u < 0x8000_0000 then u else u - 0x1_0000_0000
  }

  predicate IdsKnown(g: Graph, n: Node) {
    n.output < |g.tensors| && forall k :: 0 <= k < |n.inputs| ==> n.inputs[k] < |g.tensors|
  }

  /** The weight, arity and shape checks report nothing about this node. */
  predicate NodePasses(g: Graph, n: Node)
    requires IdsKnown(g, n)
  {
    var out := g.tensors[n.output].shape;
    var nw := |n.weights|;
    if Unary(n.op) then nw == 0 && |n.inputs| == 1
    else if Binary(n.op) then nw == 0 && |n.inputs| == 2
    else if n.op.Scatter? || n.op.ScatterNd? || n.op.ScatterAlongAxis? then
      && |n.inputs| == 2 && nw > 0 && nw == out.Bytes()
      && g.tensors[n.inputs[0]].shape == g.tensors[n.inputs[1]].shape == out
    else if n.op.Select? then
      && nw == 0 && |n.inputs| == 3
      && forall k :: 0 <= k < 3 ==> SameSize(g.tensors[n.inputs[k]].shape, out)
    else if n.op.Gather? && |n.inputs| == 2 then
      nw == 0 && g.tensors[n.inputs[0]].shape == g.tensors[n.inputs[1]].shape == out
    else if n.op.Concat? then
      && nw == 0 && |n.inputs| == 2
      && var a, b := g.tensors[n.inputs[0]].shape, g.tensors[n.inputs[1]].shape;
      a.width == b.width == out.width && out.channels == a.channels + b.channels
    else
      && |n.inputs| == 1
      && OneInputPasses(n, g.tensors[n.inputs[0]].shape, out)
  }

  /** The same for the ops that take exactly one input beside the plain unary ones. */
  predicate OneInputPasses(n: Node, x: Shape, out: Shape) {
    var nw := |n.weights|;
    if n.op.Matmul? then nw == x.channels * out.channels * 2
    else if n.op.RmsNorm? then nw == out.channels * 2
    else if n.op.LayerNorm? || n.op.Layernorm? then nw == out.channels * 4
    else if n.op.PixelShuffle? then nw == 4 && Int32(n.weights) > 0 && x.channels % Int32(n.weights) == 0
    else if n.op.PwlActivation? then nw >= 16 && nw % 4 == 0
    else if n.op.Gather? then nw > 0 && x == out && nw == out.Bytes()
    else if n.op.Reshape? then nw == 0 && x.Numel() == out.Numel()
    else if n.op.SliceByIndex? then nw == 0 && out.channels <= x.channels && out.width <= x.width
    else Reduction(n.op) && nw == 0 && out.channels == 1 && out.width == x.width
  }

  predicate SameSize(a: Shape, b: Shape) {
    a.channels == b.channels && a.width == b.width
  }

  /** Arithmetic binary ops need inputs of identical shape. */
  predicate BinaryShapesMatch(g: Graph, n: Node)
    requires IdsKnown(g, n)
  {
    (n.op.Add? || n.op.Mul? || n.op.Sub? || n.op.RealDiv?) && |n.inputs| >= 2 ==>
      forall k :: 1 <= k < |n.inputs| ==> g.tensors[n.inputs[k]].shape == g.tensors[n.inputs[0]].shape
  }

  predicate Passes(g: Graph, n: Node) {
    IdsKnown(g, n) && NodePasses(g, n) && BinaryShapesMatch(g, n)
  }

  /** No check reports an error. */
  ghost predicate Validated(g: Graph) {
    && g.inputs != [] && g.outputs != []
    && EdgesOk(g) && !Cyclic(PredSets(g.nodes)) && OutputsReached(g)
    && forall i :: 0 <= i < |g.nodes| ==> Passes(g, g.nodes[i])
  }

  method Validate(g: Graph) returns (ok: bool)
    requires WellFormed(g)
    ensures ok <==> Validated(g)
    ensures ok <==> g.inputs != [] && g.outputs != [] && forall i :: 0 <= i < |g.nodes| ==> Passes(g, g.nodes[i])
  {
    WellFormedPasses(g);
    if g.inputs == [] || g.outputs == [] { return false; }
    var edges := CheckEdges(g);
    forall i | 0 <= i < |g.nodes| ensures g.nodes[i].id == i { assert NodeOk(g, i); }
    var processed := ProcessAll(g.inputs, g.nodes);
    var reach := CheckReachability(g);
    var nodes := CheckNodes(g);
    ok := edges && processed == |g.nodes| && reach && nodes;
  }

  method CheckNodes(g: Graph) returns (ok: bool)
    ensures ok <==> forall j :: 0 <= j < |g.nodes| ==> Passes(g, g.nodes[j])
  {
    ok := true;
    for i := 0 to |g.nodes|
      invariant ok <==> forall j :: 0 <= j < i ==> Passes(g, g.nodes[j])
    {
      if !Passes(g, g.nodes[i]) { ok := false; }
    }
  }

  /** Validation leaves no op that fusion or lowering does not know, except CAST; every node has a
      chain input, and every node lowered with a weight file has weights for it. */
  lemma ValidatedNodes(g: Graph, i: nat)
    requires WellFormed(g) && i < |g.nodes| && Passes(g, g.nodes[i])
    ensures Supported(g.nodes[i].op) || g.nodes[i].op.Cast?
    ensures 1 <= |g.nodes[i].inputs| <= 3
    ensures var op := g.nodes[i].op;
            (op.Matmul? || op.RmsNorm? || op.LayerNorm? || op.Layernorm? || op.Scatter? || op.ScatterNd?
             || op.ScatterAlongAxis? || (op.Gather? && |g.nodes[i].inputs| == 1)) ==> g.nodes[i].weights != []
  {
    var n := g.nodes[i];
    assert TensorOk(g, n.output);
    if n.inputs != [] {
      assert TensorOk(g, n.inputs[0]);
      var ic, oc := g.tensors[n.inputs[0]].shape.channels, g.tensors[n.output].shape.channels;
      assert ic * oc > 0;
    }
  }
}
