/** Straight-line programs over named variables, the emitters' templates, and the lowering of a
    fused run of nodes to one program. */
module Mil {
  import opened Names
  import opened Sequences
  import opened Graph
  import opened Fusion

  // ----- programs -----

  /** One statement.  N is the type of variable names, F of weight-file names, P of primitive
      operations (constants included). */
  datatype Stmt<N, F, P> =
    | Apply(dst: N, prim: P, args: seq<N>)
    | Load(dst: N, file: F)

  /** What the primitives and the weight blobs mean; V is the type of run-time values. */
  datatype Meaning<!P, !V> = Meaning(prim: (P, seq<V>) -> V, blob: Blob -> V)

  /** The contents of a weight file, by how it is made from a node's weights. */
  datatype Blob = Raw(bytes: seq<byte>) | Transposed(bytes: seq<byte>, rows: int, cols: int)

  /** Executes one statement.  It fails if it reads an unassigned variable, names a file that was
      not supplied, or assigns a variable a second time. */
  function Exec<N(==), F(==), P, V>(m: Meaning<P, V>, files: map<F, Blob>, s: Stmt<N, F, P>,
                                    env: map<N, V>): Option<map<N, V>>
  {
    if s.dst in env then None
    else
      match s
      case Apply(dst, prim, args) =>
        if forall k :: 0 <= k < |args| ==> args[k] in env
        then Some(env[dst := m.prim(prim, seq(|args|, k requires 0 <= k < |args| => env[args[k]]))])
        else None
      case Load(dst, file) =>
        if file in files then Some(env[dst := m.blob(files[file])]) else None
  }

  function Run<N(==), F(==), P, V>(m: Meaning<P, V>, files: map<F, Blob>, body: seq<Stmt<N, F, P>>,
                                   env: map<N, V>): Option<map<N, V>>
    decreases |body|
  {
    if body == [] then Some(env)
    else
      match Exec(m, files, body[0], env)
      case None => None
      case Some(env') => Run(m, files, body[1..], env')
  }

  lemma {:induction false} RunConcat<N, F, P, V>(m: Meaning<P, V>, files: map<F, Blob>,
                                                 a: seq<Stmt<N, F, P>>, b: seq<Stmt<N, F, P>>,
                                                 env: map<N, V>)
    ensures Run(m, files, a + b, env) ==
              match Run(m, files, a, env) case None => None case Some(e) => Run(m, files, b, e)
    decreases |a|
  {
    if a == [] {
      assert a + b == b;
    } else {
      assert (a + b)[0] == a[0] && (a + b)[1..] == a[1..] + b;
      var r := Exec(m, files, a[0], env);
      if r.Some? { RunConcat(m, files, a[1..], b, r.value); }
    }
  }

  // ----- emitters -----

  /** The variables of an emitter: the node's inputs, its own intermediates, its output. */
  datatype Var = In(k: nat) | Local(suffix: string) | Out

  /** The body an emitter produces before names are filled in. */
  type Template<P> = seq<Stmt<Var, nat, P>>

  /** Each variable is assigned once and after everything it is computed from, inputs are never
      assigned, and only the node's own weight files are read. */
  ghost predicate Sound<P>(body: Template<P>, defined: set<Var>, files: nat)
    decreases |body|
  {
    if body == [] then Out in defined
    else
      var s := body[0];
      && s.dst !in defined && !s.dst.In?
      && (s.Apply? ==> forall k :: 0 <= k < |s.args| ==> s.args[k] in defined)
      && (s.Load? ==> s.file < files)
      && Sound(body[1..], defined + {s.dst}, files)
  }

  /** The blobs made from a node's weights, first file first. */
  function Blobs(g: Graph, n: Node): seq<Blob> {
    if n.weightFile == "" || n.weights == [] then []
    else if n.op.Layernorm? || n.op.LayerNorm? then
      var half := |n.weights| / 2;
      [Raw(n.weights[..half]), Raw(n.weights[half..half + half])]
    else if n.op.Matmul? && n.inputs != [] && n.inputs[0] < |g.tensors| && n.output < |g.tensors| then
      [Transposed(n.weights, g.tensors[n.inputs[0]].shape.channels, g.tensors[n.output].shape.channels)]
    else
      [Raw(n.weights)]
  }

  function FileName(n: Node, k: nat): string {
    if k == 0 then n.weightFile else BetaFile(n.weightFile)
  }

  /** A backend: the table of emitters, None where it throws, and what the emitted code means. */
  datatype Backend<!P, !V> = Backend(emit: (Graph, Node) -> Option<Template<P>>, meaning: Meaning<P, V>)

  /** The emitter of node i can be used. */
  ghost predicate EmitsSound<P, V>(be: Backend<P, V>, g: Graph, i: nat)
    requires i < |g.nodes|
  {
    var n := g.nodes[i];
    && n.inputs != []
    && be.emit(g, n).Some?
    && Sound(be.emit(g, n).value, Inputs(|n.inputs|), |Blobs(g, n)|)
  }

  lemma InputIdsInRange(g: Graph, i: nat)
    requires WellFormed(g) && i < |g.nodes|
    ensures g.nodes[i].id == i && g.nodes[i].output < |g.tensors|
    ensures forall k :: 0 <= k < |g.nodes[i].inputs| ==>
              g.nodes[i].inputs[k] < g.nodes[i].output && g.nodes[i].inputs[k] < |g.tensors|
  {
    assert NodeOk(g, i);
  }

  function Inputs(n: nat): set<Var> {
    set k | 0 <= k < n :: In(k)
  }

  function InputEnv<V>(vals: seq<V>): map<Var, V> {
    map v: Var | v in Inputs(|vals|) :: vals[v.k]
  }

  /** The meaning of one node on its own: its emitter's body run on its input values. */
  function NodeValue<P, V>(be: Backend<P, V>, g: Graph, i: nat, vals: seq<V>): V
    requires i < |g.nodes| && EmitsSound(be, g, i)
    requires |vals| == |g.nodes[i].inputs|
  {
    var n := g.nodes[i];
    var files := OwnFiles(g, n);
    assert InputEnv(vals).Keys == Inputs(|n.inputs|);
    SoundRuns(be.meaning, files, be.emit(g, n).value, InputEnv(vals), |Blobs(g, n)|);
    Run(be.meaning, files, be.emit(g, n).value, InputEnv(vals)).value[Out]
  }

  /** A node's own weight files, by position. */
  function OwnFiles(g: Graph, n: Node): map<nat, Blob> {
    map k | 0 <= k < |Blobs(g, n)| :: Blobs(g, n)[k]
  }

  /** A sound body runs to completion and assigns the output. */
  lemma {:induction false} SoundRuns<P, V>(m: Meaning<P, V>, files: map<nat, Blob>, body: Template<P>,
                                           env: map<Var, V>, n: nat)
    requires Sound(body, env.Keys, n) && forall k :: 0 <= k < n ==> k in files
    ensures Run(m, files, body, env).Some? && Out in Run(m, files, body, env).value
    decreases |body|
  {
    if body != [] {
      var e := Exec(m, files, body[0], env);
      assert e.Some? && e.value.Keys == env.Keys + {body[0].dst};
      SoundRuns(m, files, body[1..], e.value, n);
    }
  }

  ghost predicate AllEmit<P, V>(be: Backend<P, V>, g: Graph) {
    forall i :: 0 <= i < |g.nodes| ==> EmitsSound(be, g, i)
  }

  /** The values at the given tensors. */
  function Pick<V>(vals: seq<V>, ts: seq<TensorId>): seq<V>
    requires forall k :: 0 <= k < |ts| ==> ts[k] < |vals|
  {
    seq(|ts|, k requires 0 <= k < |ts| => vals[ts[k]])
  }

  /** Node-by-node evaluation, the reference meaning of a graph: the values of the first k
      tensors, each either supplied by the caller or computed by its node alone. */
  function Values<P, V>(be: Backend<P, V>, g: Graph, ins: map<TensorId, V>, k: nat): (vals: seq<V>)
    requires WellFormed(g) && AllEmit(be, g) && k <= |g.tensors|
    requires forall x <- g.inputs :: x in ins
    ensures |vals| == k
  {
    if k == 0 then []
    else
      var vals := Values(be, g, ins, k - 1);
      assert TensorOk(g, k - 1);
      vals + [match g.tensors[k - 1].producer
              case None => ins[k - 1]
              case Some(i) =>
                InputIdsInRange(g, i);
                assert EmitsSound(be, g, i);
                NodeValue(be, g, i, Pick(vals, g.nodes[i].inputs))]
  }

  /** The value of node i's output is the meaning of node i on the values it reads. */
  ghost predicate NodeEquation<P, V>(be: Backend<P, V>, g: Graph, vals: seq<V>, i: nat)
    requires i < |g.nodes|
  {
    && InputIdsOk(g, i) && |vals| == |g.tensors|
    && EmitsSound(be, g, i) && vals[g.nodes[i].output] == NodeValue(be, g, i, Pick(vals, g.nodes[i].inputs))
  }

  lemma {:induction false} ValuesPrefix<P, V>(be: Backend<P, V>, g: Graph, ins: map<TensorId, V>, j: nat, k: nat)
    requires WellFormed(g) && AllEmit(be, g) && j <= k <= |g.tensors|
    requires forall x <- g.inputs :: x in ins
    ensures Values(be, g, ins, k)[..j] == Values(be, g, ins, j)
    decreases k
  {
    if j < k {
      ValuesPrefix(be, g, ins, j, k - 1);
      ValuesStep(be, g, ins, k - 1);
      PrefixTrans(Values(be, g, ins, k), Values(be, g, ins, k - 1), j);
    }
  }

  lemma ValuesStep<P, V>(be: Backend<P, V>, g: Graph, ins: map<TensorId, V>, k: nat)
    requires WellFormed(g) && AllEmit(be, g) && k < |g.tensors|
    requires forall x <- g.inputs :: x in ins
    ensures Values(be, g, ins, k + 1)[..k] == Values(be, g, ins, k)
  {
  }

  lemma PrefixTrans<V>(a: seq<V>, b: seq<V>, j: nat)
    requires |b| <= |a| && a[..|b|] == b && j <= |b|
    ensures a[..j] == b[..j]
  {
  }

  /** Reference evaluation satisfies every node's equation. */
  lemma ValuesSolveEquations<P, V>(be: Backend<P, V>, g: Graph, ins: map<TensorId, V>, i: nat)
    requires WellFormed(g) && AllEmit(be, g) && i < |g.nodes|
    requires forall x <- g.inputs :: x in ins
    ensures NodeEquation(be, g, Values(be, g, ins, |g.tensors|), i)
  {
    InputIdsInRange(g, i);
    var o, ts := g.nodes[i].output, g.nodes[i].inputs;
    var vals := Values(be, g, ins, |g.tensors|);
    ValueComputed(be, g, ins, i);
    ValuesPrefix(be, g, ins, o + 1, |g.tensors|);
    ValuesPrefix(be, g, ins, o, |g.tensors|);
    assert vals[o] == vals[..o + 1][o];
    PickPrefix(vals, o, ts);
  }

  /** The value computed for node i from those before it. */
  lemma ValueComputed<P, V>(be: Backend<P, V>, g: Graph, ins: map<TensorId, V>, i: nat)
    requires WellFormed(g) && AllEmit(be, g) && i < |g.nodes|
    requires forall x <- g.inputs :: x in ins
    ensures EmitsSound(be, g, i) && g.nodes[i].output < |g.tensors|
    ensures forall k :: 0 <= k < |g.nodes[i].inputs| ==> g.nodes[i].inputs[k] < g.nodes[i].output
    ensures Values(be, g, ins, g.nodes[i].output + 1)[g.nodes[i].output]
         == NodeValue(be, g, i, Pick(Values(be, g, ins, g.nodes[i].output), g.nodes[i].inputs))
  {
    InputIdsInRange(g, i);
    assert NodeOk(g, i) && EmitsSound(be, g, i);
  }

  lemma PickPrefix<V>(vals: seq<V>, n: nat, ts: seq<TensorId>)
    requires n <= |vals| && forall k :: 0 <= k < |ts| ==> ts[k] < n
    ensures Pick(vals[..n], ts) == Pick(vals, ts)
  {
  }

  lemma InputValue<P, V>(be: Backend<P, V>, g: Graph, ins: map<TensorId, V>, t: TensorId)
    requires WellFormed(g) && AllEmit(be, g) && t in g.inputs && t < |g.tensors|
    requires forall x <- g.inputs :: x in ins
    ensures Values(be, g, ins, |g.tensors|)[t] == ins[t]
  {
    ValuesPrefix(be, g, ins, t + 1, |g.tensors|);
    assert Values(be, g, ins, |g.tensors|)[..t + 1][t] == Values(be, g, ins, t + 1)[t];
    assert g.tensors[t].producer.None?;
  }

  // ----- filling in names -----

  /** The program name of an emitter variable, for a node reading `ins` and writing `out`. */
  function NameOf(v: Var, ins: seq<string>, out: string): string {
    match v
    case In(k) => if k < |ins| then ins[k] else ""
    case Local(suffix) => LocalVar(out, suffix)
    case Out => out
  }

  function Named<P>(s: Stmt<Var, nat, P>, n: Node, ins: seq<string>, out: string): Stmt<string, string, P> {
    match s
    case Apply(dst, prim, args) =>
      Apply(NameOf(dst, ins, out), prim, seq(|args|, k requires 0 <= k < |args| => NameOf(args[k], ins, out)))
    case Load(dst, k) => Load(NameOf(dst, ins, out), FileName(n, k))
  }

  /** A node's fragment. */
  function Fragment<P>(body: Template<P>, n: Node, ins: seq<string>, out: string): seq<Stmt<string, string, P>> {
    seq(|body|, k requires 0 <= k < |body| => Named(body[k], n, ins, out))
  }

  /** Program variables mirror the emitter variables assigned so far, and the names of those not
      yet assigned are still free. */
  ghost predicate Mirrors<V>(tenv: map<Var, V>, penv: map<string, V>, ins: seq<string>, out: string) {
    && (forall v <- tenv :: NameOf(v, ins, out) in penv && penv[NameOf(v, ins, out)] == tenv[v])
    && (forall v: Var :: !v.In? && v !in tenv ==> NameOf(v, ins, out) !in penv)
  }

  lemma NamesDiffer(v: Var, w: Var, ins: seq<string>, out: string)
    requires !v.In? && !w.In? && v != w
    ensures NameOf(v, ins, out) != NameOf(w, ins, out)
  {
    if v.Local? && w.Local? {
      var a, b := LocalVar(out, v.suffix), LocalVar(out, w.suffix);
      assert a[|out| + 1..] == v.suffix && b[|out| + 1..] == w.suffix;
    }
  }

  lemma StepMirrors<P, V>(m: Meaning<P, V>, tfiles: map<nat, Blob>, pfiles: map<string, Blob>, n: Node,
                          s: Stmt<Var, nat, P>, tenv: map<Var, V>, penv: map<string, V>,
                          ins: seq<string>, out: string)
    requires Mirrors(tenv, penv, ins, out) && !s.dst.In?
    requires Exec(m, tfiles, s, tenv).Some?
    requires s.Load? ==> s.file in tfiles && FileName(n, s.file) in pfiles
                         && pfiles[FileName(n, s.file)] == tfiles[s.file]
    ensures var e := Exec(m, pfiles, Named(s, n, ins, out), penv);
            && e.Some? && Mirrors(Exec(m, tfiles, s, tenv).value, e.value, ins, out)
            && penv.Keys <= e.value.Keys && (forall x <- penv :: e.value[x] == penv[x])
            && e.value.Keys == penv.Keys + {NameOf(s.dst, ins, out)}
  {
    var q := Named(s, n, ins, out);
    var t1 := Exec(m, tfiles, s, tenv).value;
    if s.Apply? {
      var x := seq(|s.args|, k requires 0 <= k < |s.args| => tenv[s.args[k]]);
      assert forall k :: 0 <= k < |s.args| ==> q.args[k] in penv;
      var y := seq(|q.args|, k requires 0 <= k < |q.args| => penv[q.args[k]]);
      assert x == y;
    }
    var p1 := Exec(m, pfiles, q, penv).value;
    forall v: Var | !v.In? && v !in t1 ensures NameOf(v, ins, out) !in p1 {
      NamesDiffer(v, s.dst, ins, out);
    }
  }

  /** Naming is hygienic: a fragment run in a program computes what its template computes, leaves
      the other variables alone and assigns only names of its own node. */
  lemma {:induction false} FragmentRuns<P, V>(
    m: Meaning<P, V>, tfiles: map<nat, Blob>, pfiles: map<string, Blob>, n: Node, body: Template<P>,
    tenv: map<Var, V>, penv: map<string, V>, ins: seq<string>, o: nat, files: nat)
    requires Sound(body, tenv.Keys, files) && Mirrors(tenv, penv, ins, TensorVar(o))
    requires forall k :: 0 <= k < files ==>
               k in tfiles && FileName(n, k) in pfiles && pfiles[FileName(n, k)] == tfiles[k]
    ensures var t := Run(m, tfiles, body, tenv);
            var p := Run(m, pfiles, Fragment(body, n, ins, TensorVar(o)), penv);
            && t.Some? && p.Some? && Out in t.value
            && TensorVar(o) in p.value && p.value[TensorVar(o)] == t.value[Out]
            && (forall x <- penv :: x in p.value && p.value[x] == penv[x])
            && (forall x <- p.value :: x in penv || Stem(x) == TensorVar(o))
    decreases |body|
  {
    var out := TensorVar(o);
    var frag := Fragment(body, n, ins, out);
    if body == [] {
      assert NameOf(Out, ins, out) == out;
    } else {
      var s := body[0];
      var t1 := Exec(m, tfiles, s, tenv);
      assert t1.Some? && t1.value.Keys == tenv.Keys + {s.dst};
      StepMirrors(m, tfiles, pfiles, n, s, tenv, penv, ins, out);
      var p1 := Exec(m, pfiles, Named(s, n, ins, out), penv);
      assert frag[0] == Named(s, n, ins, out) && frag[1..] == Fragment(body[1..], n, ins, out);
      FragmentRuns(m, tfiles, pfiles, n, body[1..], t1.value, p1.value, ins, o, files);
      VariableStems(o, if s.dst.Local? then s.dst.suffix else "");
      assert Stem(NameOf(s.dst, ins, out)) == out;
    }
  }

  // ----- lowering a run -----

  /** The variable holding the running result after the given nodes. */
  function ChainVar(g: Graph, ids: seq<nat>, first: string): string
    requires forall k :: 0 <= k < |ids| ==> ids[k] < |g.nodes|
  {
    if ids == [] then first else TensorVar(g.nodes[ids[|ids| - 1]].output)
  }

  /** The names a node's fragment reads: the running result, then its other inputs. */
  function ReadNames(chain: string, n: Node): seq<string>
    requires n.inputs != []
  {
    [chain] + seq(|n.inputs| - 1, k requires 0 <= k < |n.inputs| - 1 => TensorVar(n.inputs[k + 1]))
  }

  function Body<P, V>(be: Backend<P, V>, g: Graph, ids: seq<nat>, first: string): Option<seq<Stmt<string, string, P>>>
    requires forall k :: 0 <= k < |ids| ==> ids[k] < |g.nodes| && g.nodes[ids[k]].inputs != []
    decreases |ids|
  {
    if ids == [] then Some([])
    else
      var pre := ids[..|ids| - 1];
      var n := g.nodes[ids[|ids| - 1]];
      match (Body(be, g, pre, first), be.emit(g, n))
      case (Some(b), Some(t)) =>
        Some(b + Fragment(t, n, ReadNames(ChainVar(g, pre, first), n), TensorVar(n.output)))
      case _ => None
  }

  /** The weight files supplied with a program, in order. */
  function Entries(g: Graph, ids: seq<nat>): seq<(string, Blob)>
    requires forall k :: 0 <= k < |ids| ==> ids[k] < |g.nodes|
    decreases |ids|
  {
    if ids == [] then [] else Entries(g, ids[..|ids| - 1]) + NodeEntries(g, ids[|ids| - 1])
  }

  function NodeEntries(g: Graph, i: nat): seq<(string, Blob)>
    requires i < |g.nodes|
  {
    var n := g.nodes[i];
    seq(|Blobs(g, n)|, k requires 0 <= k < |Blobs(g, n)| => (FileName(n, k), Blobs(g, n)[k]))
  }

  /** A layer norm supplies the first half of its weights under its own file name and the second half
      under the derived one; nothing is lost unless the length is odd. */
  lemma NormWeightsSplit(g: Graph, i: nat)
    requires WellFormed(g) && i < |g.nodes|
    requires (g.nodes[i].op.Layernorm? || g.nodes[i].op.LayerNorm?) && g.nodes[i].weights != []
    ensures var w, e := g.nodes[i].weights, NodeEntries(g, i);
            && |e| == 2 && e[0].0 == WeightFile(i) && e[1].0 == BetaFile(WeightFile(i))
            && e[0].1.Raw? && e[1].1.Raw? && |e[0].1.bytes| == |e[1].1.bytes|
            && e[0].1.bytes + e[1].1.bytes <= w
            && (|w| % 2 == 0 <==> e[0].1.bytes + e[1].1.bytes == w)
  {
    assert NodeOk(g, i);
    NormEntries(g, i);
    Halves(g.nodes[i].weights);
  }

  lemma NormEntries(g: Graph, i: nat)
    requires i < |g.nodes| && g.nodes[i].weights != [] && g.nodes[i].weightFile != ""
    requires g.nodes[i].op.Layernorm? || g.nodes[i].op.LayerNorm?
    ensures var n := g.nodes[i];
            var half := |n.weights| / 2;
            NodeEntries(g, i) == [(FileName(n, 0), Raw(n.weights[..half])),
                                  (FileName(n, 1), Raw(n.weights[half..half + half]))]
  {
    assert |Blobs(g, g.nodes[i])| == 2;
  }

  lemma Halves(w: seq<byte>)
    ensures var half := |w| / 2;
            && w[..half] + w[half..half + half] == w[..half + half]
            && (|w| % 2 == 0 <==> w[..half] + w[half..half + half] == w)
  {
  }

  function FileMap(entries: seq<(string, Blob)>): map<string, Blob> {
    if entries == [] then map[]
    else FileMap(entries[..|entries| - 1])[entries[|entries| - 1].0 := entries[|entries| - 1].1]
  }

  function EntryNames(entries: seq<(string, Blob)>): seq<string> {
    seq(|entries|, k requires 0 <= k < |entries| => entries[k].0)
  }

  lemma {:induction false} FileMapFinds(entries: seq<(string, Blob)>, j: nat)
    requires NoDuplicates(EntryNames(entries)) && j < |entries|
    ensures entries[j].0 in FileMap(entries) && FileMap(entries)[entries[j].0] == entries[j].1
  {
    var m := |entries| - 1;
    if j < m {
      var names := EntryNames(entries);
      assert EntryNames(entries[..m]) == names[..m];
      assert names[j] != names[m];
      FileMapFinds(entries[..m], j);
    }
  }

  /** Files of different nodes, and the two files of one node, have different names. */
  lemma NodeFilesDiffer(g: Graph, i: nat, k: nat, j: nat, l: nat)
    requires WellFormed(g) && i < |g.nodes| && j < |g.nodes|
    requires k < |NodeEntries(g, i)| && l < |NodeEntries(g, j)| && (i != j || k != l)
    ensures NodeEntries(g, i)[k].0 != NodeEntries(g, j)[l].0
  {
    assert NodeOk(g, i) && NodeOk(g, j);
    WeightFilesDistinct(i, j);
    WeightFilesDistinct(j, i);
    assert FileName(g.nodes[i], k) == NodeEntries(g, i)[k].0;
    assert FileName(g.nodes[j], l) == NodeEntries(g, j)[l].0;
  }

  ghost predicate NodeIds(g: Graph, ids: seq<nat>) {
    forall k :: 0 <= k < |ids| ==> ids[k] < |g.nodes|
  }

  /** Every entry belongs to a node of the list. */
  lemma {:induction false} EntryOwner(g: Graph, ids: seq<nat>, x: nat) returns (a: nat, k: nat)
    requires NodeIds(g, ids) && x < |Entries(g, ids)|
    ensures a < |ids| && k < |NodeEntries(g, ids[a])| && NodeEntries(g, ids[a])[k] == Entries(g, ids)[x]
    decreases |ids|
  {
    var m := |ids| - 1;
    var pre := Entries(g, ids[..m]);
    if x < |pre| {
      a, k := EntryOwner(g, ids[..m], x);
    } else {
      a, k := m, x - |pre|;
    }
  }

  /** Every file of a listed node has an entry. */
  lemma {:induction false} EntryOf(g: Graph, ids: seq<nat>, a: nat, k: nat) returns (x: nat)
    requires NodeIds(g, ids) && a < |ids| && k < |NodeEntries(g, ids[a])|
    ensures x < |Entries(g, ids)| && Entries(g, ids)[x] == NodeEntries(g, ids[a])[k]
    decreases |ids|
  {
    var m := |ids| - 1;
    var pre := Entries(g, ids[..m]);
    assert Entries(g, ids) == pre + NodeEntries(g, ids[m]);
    if a < m {
      x := EntryOf(g, ids[..m], a, k);
      assert Entries(g, ids)[x] == pre[x];
    } else {
      x := |pre| + k;
    }
  }

  /** Each weight file of a run is supplied exactly once. */
  lemma {:induction false} EntriesDistinct(g: Graph, ids: seq<nat>)
    requires WellFormed(g) && NodeIds(g, ids) && NoDuplicates(ids)
    ensures NoDuplicates(EntryNames(Entries(g, ids)))
    decreases |ids|
  {
    if ids != [] {
      var m := |ids| - 1;
      var pre, own := Entries(g, ids[..m]), NodeEntries(g, ids[m]);
      EntriesDistinct(g, ids[..m]);
      forall x, y | 0 <= x < |pre| && 0 <= y < |own| ensures pre[x].0 != own[y].0 {
        var a, k := EntryOwner(g, ids[..m], x);
        NodeFilesDiffer(g, ids[a], k, ids[m], y);
      }
      forall x, y | 0 <= x < y < |own| ensures own[x].0 != own[y].0 { NodeFilesDiffer(g, ids[m], x, ids[m], y); }
      DistinctConcat(pre, own);
    }
  }

  lemma DistinctConcat(pre: seq<(string, Blob)>, own: seq<(string, Blob)>)
    requires NoDuplicates(EntryNames(pre))
    requires forall x, y :: 0 <= x < |pre| && 0 <= y < |own| ==> pre[x].0 != own[y].0
    requires forall x, y :: 0 <= x < y < |own| ==> own[x].0 != own[y].0
    ensures NoDuplicates(EntryNames(pre + own))
  {
    var names, n := EntryNames(pre + own), |pre|;
    forall x, y | 0 <= x < y < |names| ensures names[x] != names[y] {
      assert names[x] == if x < n then pre[x].0 else own[x - n].0;
      assert names[y] == if y < n then pre[y].0 else own[y - n].0;
      if y < n { assert EntryNames(pre)[x] != EntryNames(pre)[y]; }
    }
  }

  /** In the program of a run each node finds its own weights under its own file names. */
  lemma RunFiles(g: Graph, lo: nat, hi: nat, h: nat)
    requires WellFormed(g) && lo <= h < hi <= |g.nodes|
    ensures NodeIds(g, Span(lo, hi))
    ensures NoDuplicates(EntryNames(Entries(g, Span(lo, hi))))
    ensures FilesFor(g, FileMap(Entries(g, Span(lo, hi))), h)
  {
    var ids := Span(lo, hi);
    var n := g.nodes[h];
    EntriesDistinct(g, ids);
    var e := Entries(g, ids);
    forall k | 0 <= k < |Blobs(g, n)|
      ensures FileName(n, k) in FileMap(e) && FileMap(e)[FileName(n, k)] == Blobs(g, n)[k]
    {
      assert ids[h - lo] == h;
      var j := EntryOf(g, ids, h - lo, k);
      FileMapFinds(e, j);
    }
  }

  ghost predicate InputIdsOk(g: Graph, i: nat)
    requires i < |g.nodes|
  {
    && g.nodes[i].output < |g.tensors|
    && forall k :: 0 <= k < |g.nodes[i].inputs| ==> g.nodes[i].inputs[k] < |g.tensors|
  }

  // ----- the fused program computes the last node of its run -----

  /** The parameters of a run hold the values of its inputs, and nothing else is set. */
  ghost predicate ParamsHold<V>(vals: seq<V>, inputs: seq<TensorId>, env: map<string, V>) {
    && (forall t <- inputs :: t < |vals| && TensorVar(t) in env && env[TensorVar(t)] == vals[t])
    && (forall x <- env :: exists t :: t in inputs && x == TensorVar(t))
  }

  /** State of the program after the nodes lo, .., h - 1 of the run: parameters untouched, the
      running result in place, every other variable owned by one of those nodes. */
  ghost predicate Progress<V>(g: Graph, vals: seq<V>, lo: nat, h: nat, env0: map<string, V>, env: map<string, V>)
    requires lo <= h <= |g.nodes|
  {
    && (forall x <- env0 :: x in env && env[x] == env0[x])
    && (forall x <- env :: x in env0 || exists i :: lo <= i < h && Stem(x) == TensorVar(g.nodes[i].output))
    && (h > lo ==> var o := g.nodes[h - 1].output;
                   o < |vals| && TensorVar(o) in env && env[TensorVar(o)] == vals[o])
  }

  /** The variable that node h of a run takes as its chain input. */
  function ChainIn(g: Graph, lo: nat, h: nat): string
    requires lo <= h < |g.nodes| && g.nodes[lo].inputs != []
  {
    if h == lo then TensorVar(g.nodes[lo].inputs[0]) else TensorVar(g.nodes[h - 1].output)
  }

  function FragmentOf<P, V>(be: Backend<P, V>, g: Graph, lo: nat, h: nat): seq<Stmt<string, string, P>>
    requires lo <= h < |g.nodes| && g.nodes[lo].inputs != [] && g.nodes[h].inputs != [] && be.emit(g, g.nodes[h]).Some?
  {
    var n := g.nodes[h];
    Fragment(be.emit(g, n).value, n, ReadNames(ChainIn(g, lo, h), n), TensorVar(n.output))
  }

  /** A run that fusion may form: a chain that could not have started earlier. */
  ghost predicate MaximalRun(g: Graph, lo: nat, hi: nat) {
    WellFormed(g) && Chain(g, lo, hi) && (lo == 0 || !Fusable(g, lo - 1))
  }

  lemma ReadIsRunInput(g: Graph, lo: nat, hi: nat, h: nat, k: nat)
    requires lo <= h < hi <= |g.nodes| && (if h == lo then 0 else 1) <= k < |g.nodes[h].inputs|
    ensures g.nodes[h].inputs[k] in RunInputs(g, lo, hi)
  {
    RunInputsElements(g, lo, hi);
  }

  /** Each name that the fragment of node h reads holds the value of that input. */
  lemma ReadsBound<V>(g: Graph, vals: seq<V>, lo: nat, hi: nat, h: nat,
                      env0: map<string, V>, env: map<string, V>, k: nat)
    requires Chain(g, lo, hi) && lo <= h < hi && g.nodes[lo].inputs != [] && k < |g.nodes[h].inputs|
    requires ParamsHold(vals, RunInputs(g, lo, hi), env0) && Progress(g, vals, lo, h, env0, env)
    ensures var name := ReadNames(ChainIn(g, lo, h), g.nodes[h])[k];
            g.nodes[h].inputs[k] < |vals| && name in env && env[name] == vals[g.nodes[h].inputs[k]]
  {
    if h == lo || k > 0 {
      SideReadBound(g, vals, lo, hi, h, env0, env, k);
    } else {
      assert Fusable(g, h - 1);
    }
  }

  lemma SideReadBound<V>(g: Graph, vals: seq<V>, lo: nat, hi: nat, h: nat,
                         env0: map<string, V>, env: map<string, V>, k: nat)
    requires lo <= h < hi <= |g.nodes| && g.nodes[lo].inputs != []
    requires (if h == lo then 0 else 1) <= k < |g.nodes[h].inputs|
    requires ParamsHold(vals, RunInputs(g, lo, hi), env0)
    requires forall x <- env0 :: x in env && env[x] == env0[x]
    ensures var name := ReadNames(ChainIn(g, lo, h), g.nodes[h])[k];
            g.nodes[h].inputs[k] < |vals| && name in env && env[name] == vals[g.nodes[h].inputs[k]]
  {
    ReadIsRunInput(g, lo, hi, h, k);
    var t := g.nodes[h].inputs[k];
    assert TensorVar(t) in env0;
    assert ReadNames(ChainIn(g, lo, h), g.nodes[h])[k] == TensorVar(t);
  }

  /** Names that lead back to node h are not in use before node h runs. */
  lemma NameIsFree<V>(g: Graph, vals: seq<V>, lo: nat, hi: nat, h: nat,
                      env0: map<string, V>, env: map<string, V>, name: string)
    requires MaximalRun(g, lo, hi) && lo <= h < hi
    requires ParamsHold(vals, RunInputs(g, lo, hi), env0) && Progress(g, vals, lo, h, env0, env)
    requires Stem(name) == TensorVar(g.nodes[h].output)
    ensures name !in env
  {
    var o := g.nodes[h].output;
    if name in env0 {
      var t :| t in RunInputs(g, lo, hi) && name == TensorVar(t);
      VariableStems(t, "");
      TensorVarInjective(t, o);
      GroupInputsAvailable(g, lo, hi, t);
    } else if name in env {
      var i :| lo <= i < h && Stem(name) == TensorVar(g.nodes[i].output);
      TensorVarInjective(g.nodes[i].output, o);
    }
  }

  lemma MirrorAtStart<V>(g: Graph, vals: seq<V>, lo: nat, hi: nat, h: nat,
                         env0: map<string, V>, env: map<string, V>)
    requires MaximalRun(g, lo, hi) && lo <= h < hi
    requires g.nodes[lo].inputs != [] && g.nodes[h].inputs != []
    requires forall k :: 0 <= k < |g.nodes[h].inputs| ==> g.nodes[h].inputs[k] < |vals|
    requires ParamsHold(vals, RunInputs(g, lo, hi), env0) && Progress(g, vals, lo, h, env0, env)
    ensures Mirrors(InputEnv(Pick(vals, g.nodes[h].inputs)), env, ReadNames(ChainIn(g, lo, h), g.nodes[h]),
                    TensorVar(g.nodes[h].output))
  {
    var n := g.nodes[h];
    var out, names := TensorVar(n.output), ReadNames(ChainIn(g, lo, h), n);
    var tenv := InputEnv(Pick(vals, n.inputs));
    forall v <- tenv ensures NameOf(v, names, out) in env && env[NameOf(v, names, out)] == tenv[v] {
      ReadsBound(g, vals, lo, hi, h, env0, env, v.k);
    }
    forall v: Var | !v.In? ensures NameOf(v, names, out) !in env {
      VariableStems(n.output, if v.Local? then v.suffix else "");
      NameIsFree(g, vals, lo, hi, h, env0, env, NameOf(v, names, out));
    }
  }

  /** Each weight file of node i is supplied under its own name. */
  ghost predicate FilesFor(g: Graph, files: map<string, Blob>, i: nat)
    requires i < |g.nodes|
  {
    var n := g.nodes[i];
    forall k :: 0 <= k < |Blobs(g, n)| ==> FileName(n, k) in files && files[FileName(n, k)] == Blobs(g, n)[k]
  }

  /** Node h of a run, run after its predecessors, leaves its value. */
  lemma NodeInRun<P, V>(be: Backend<P, V>, g: Graph, vals: seq<V>, lo: nat, hi: nat, h: nat,
                        files: map<string, Blob>, env0: map<string, V>, env: map<string, V>)
    requires MaximalRun(g, lo, hi) && lo <= h < hi
    requires EmitsSound(be, g, lo) && NodeEquation(be, g, vals, h) && FilesFor(g, files, h)
    requires ParamsHold(vals, RunInputs(g, lo, hi), env0) && Progress(g, vals, lo, h, env0, env)
    ensures var r := Run(be.meaning, files, FragmentOf(be, g, lo, h), env);
            r.Some? && Progress(g, vals, lo, h + 1, env0, r.value)
  {
    var n := g.nodes[h];
    var names, args := ReadNames(ChainIn(g, lo, h), n), Pick(vals, n.inputs);
    MirrorAtStart(g, vals, lo, hi, h, env0, env);
    assert InputEnv(args).Keys == Inputs(|n.inputs|);
    FragmentRuns(be.meaning, OwnFiles(g, n), files, n, be.emit(g, n).value, InputEnv(args), env, names,
                 n.output, |Blobs(g, n)|);
  }

  ghost predicate Emits<P, V>(be: Backend<P, V>, g: Graph, lo: nat, hi: nat) {
    lo <= hi <= |g.nodes| && forall i :: lo <= i < hi ==> g.nodes[i].inputs != [] && be.emit(g, g.nodes[i]).Some?
  }

  /** The fragments of the nodes lo, .., h - 1, one after the other. */
  ghost function BodyUpTo<P, V>(be: Backend<P, V>, g: Graph, lo: nat, h: nat): seq<Stmt<string, string, P>>
    requires Emits(be, g, lo, h)
    decreases h
  {
    if h == lo then [] else BodyUpTo(be, g, lo, h - 1) + FragmentOf(be, g, lo, h - 1)
  }

  /** Running `body` on the parameters gets the run past the nodes lo, .., h - 1. */
  ghost predicate Reached<P, V>(be: Backend<P, V>, g: Graph, vals: seq<V>, lo: nat, h: nat,
                                files: map<string, Blob>, env0: map<string, V>, body: seq<Stmt<string, string, P>>)
    requires lo <= h <= |g.nodes|
  {
    var r := Run(be.meaning, files, body, env0);
    r.Some? && Progress(g, vals, lo, h, env0, r.value)
  }

  lemma NextReached<P, V>(be: Backend<P, V>, g: Graph, vals: seq<V>, lo: nat, hi: nat, h: nat,
                          files: map<string, Blob>, env0: map<string, V>, before: seq<Stmt<string, string, P>>)
    requires MaximalRun(g, lo, hi) && lo <= h < hi
    requires EmitsSound(be, g, lo) && NodeEquation(be, g, vals, h) && FilesFor(g, files, h)
    requires ParamsHold(vals, RunInputs(g, lo, hi), env0)
    requires Reached(be, g, vals, lo, h, files, env0, before)
    ensures Reached(be, g, vals, lo, h + 1, files, env0, before + FragmentOf(be, g, lo, h))
  {
    NodeInRun(be, g, vals, lo, hi, h, files, env0, Run(be.meaning, files, before, env0).value);
    RunConcat(be.meaning, files, before, FragmentOf(be, g, lo, h), env0);
  }

  /** Node i can be lowered to its value, given its weight files. */
  ghost predicate Ready<P, V>(be: Backend<P, V>, g: Graph, vals: seq<V>, files: map<string, Blob>, i: nat)
    requires i < |g.nodes|
  {
    NodeEquation(be, g, vals, i) && FilesFor(g, files, i)
  }

  /** If the fragments below h get the run past those nodes, adding h's fragment gets it past h. */
  ghost predicate Continues<P, V>(be: Backend<P, V>, g: Graph, vals: seq<V>, lo: nat, h: nat,
                                  files: map<string, Blob>, env0: map<string, V>)
    requires lo <= h && Emits(be, g, lo, h + 1)
  {
    var before := BodyUpTo(be, g, lo, h);
    Reached(be, g, vals, lo, h, files, env0, before) ==>
      Reached(be, g, vals, lo, h + 1, files, env0, before + FragmentOf(be, g, lo, h))
  }

  lemma {:induction false} PrefixFromSteps<P, V>(be: Backend<P, V>, g: Graph, vals: seq<V>, lo: nat, h: nat,
                                                 files: map<string, Blob>, env0: map<string, V>)
    requires Emits(be, g, lo, h)
    requires forall i :: lo <= i < h ==> Continues(be, g, vals, lo, i, files, env0)
    ensures Reached(be, g, vals, lo, h, files, env0, BodyUpTo(be, g, lo, h))
    decreases h
  {
    if h > lo {
      PrefixFromSteps(be, g, vals, lo, h - 1, files, env0);
      assert Continues(be, g, vals, lo, h - 1, files, env0);
    }
  }

  /** Running the fragments of a run leaves the value of the last node in its variable. */
  lemma PrefixReached<P, V>(be: Backend<P, V>, g: Graph, vals: seq<V>, lo: nat, hi: nat,
                            files: map<string, Blob>, env0: map<string, V>)
    requires MaximalRun(g, lo, hi) && Emits(be, g, lo, hi) && EmitsSound(be, g, lo)
    requires forall i :: lo <= i < hi ==> Ready(be, g, vals, files, i)
    requires ParamsHold(vals, RunInputs(g, lo, hi), env0)
    ensures Reached(be, g, vals, lo, hi, files, env0, BodyUpTo(be, g, lo, hi))
  {
    forall i | lo <= i < hi ensures Continues(be, g, vals, lo, i, files, env0) {
      assert Ready(be, g, vals, files, i);
      var before := BodyUpTo(be, g, lo, i);
      if Reached(be, g, vals, lo, i, files, env0, before) { NextReached(be, g, vals, lo, hi, i, files, env0, before); }
    }
    PrefixFromSteps(be, g, vals, lo, hi, files, env0);
  }

  lemma SpanEmits<P, V>(be: Backend<P, V>, g: Graph, lo: nat, h: nat)
    requires Emits(be, g, lo, h)
    ensures ListEmits(be, g, Span(lo, h))
  {
  }

  /** The nodes listed for a run are lowered to exactly those fragments. */
  lemma BodyOfRun<P, V>(be: Backend<P, V>, g: Graph, lo: nat, h: nat)
    requires lo < h && Emits(be, g, lo, h)
    ensures ListEmits(be, g, Span(lo, h))
    ensures Body(be, g, Span(lo, h), TensorVar(g.nodes[lo].inputs[0])) == Some(BodyUpTo(be, g, lo, h))
  {
    AllAgree(be, g, lo, h, TensorVar(g.nodes[lo].inputs[0]));
  }

  lemma AllAgree<P, V>(be: Backend<P, V>, g: Graph, lo: nat, h: nat, first: string)
    requires lo < h && Emits(be, g, lo, h) && first == TensorVar(g.nodes[lo].inputs[0])
    ensures BodyAgrees(be, g, lo, h, first)
  {
    var agrees := (k: nat) => BodyAgrees(be, g, lo, k, first);
    BodyOfNone(be, g, lo, first);
    forall k: nat | lo <= k < h && agrees(k) ensures agrees(k + 1) { AgreeStep(be, g, lo, h, k, first); }
    StepByStep(agrees, lo, h);
  }

  lemma AgreeStep<P, V>(be: Backend<P, V>, g: Graph, lo: nat, h: nat, k: nat, first: string)
    requires lo <= k < h && Emits(be, g, lo, h) && first == TensorVar(g.nodes[lo].inputs[0])
    requires BodyAgrees(be, g, lo, k, first)
    ensures BodyAgrees(be, g, lo, k + 1, first)
  {
    EmitsPrefix(be, g, lo, k + 1, h);
    BodyStep(be, g, lo, k, first);
  }

  ghost predicate BodyAgrees<P, V>(be: Backend<P, V>, g: Graph, lo: nat, k: nat, first: string) {
    && lo <= k && Emits(be, g, lo, k) && ListEmits(be, g, Span(lo, k))
    && Body(be, g, Span(lo, k), first) == Some(BodyUpTo(be, g, lo, k))
  }

  lemma EmitsPrefix<P, V>(be: Backend<P, V>, g: Graph, lo: nat, k: nat, h: nat)
    requires lo <= k <= h && Emits(be, g, lo, h)
    ensures Emits(be, g, lo, k)
  {
  }

  lemma BodyOfNone<P, V>(be: Backend<P, V>, g: Graph, lo: nat, first: string)
    requires lo <= |g.nodes|
    ensures BodyAgrees(be, g, lo, lo, first)
  {
    assert Span(lo, lo) == [];
  }

  lemma BodyStep<P, V>(be: Backend<P, V>, g: Graph, lo: nat, h: nat, first: string)
    requires BodyAgrees(be, g, lo, h, first) && Emits(be, g, lo, h + 1) && first == TensorVar(g.nodes[lo].inputs[0])
    ensures BodyAgrees(be, g, lo, h + 1, first)
  {
    SpanEmits(be, g, lo, h + 1);
    ChainOfRun(g, lo, h);
    assert Span(lo, h + 1) == Span(lo, h) + [h];
    LowerNextNode(be, g, Span(lo, h), h, first);
  }

  lemma ChainOfRun(g: Graph, lo: nat, h: nat)
    requires lo <= h < |g.nodes| && g.nodes[lo].inputs != []
    ensures ChainVar(g, Span(lo, h), TensorVar(g.nodes[lo].inputs[0])) == ChainIn(g, lo, h)
  {
  }

  ghost predicate ListEmits<P, V>(be: Backend<P, V>, g: Graph, ids: seq<nat>) {
    forall k :: 0 <= k < |ids| ==>
      ids[k] < |g.nodes| && g.nodes[ids[k]].inputs != [] && be.emit(g, g.nodes[ids[k]]).Some?
  }

  // ----- whole programs -----

  /** A fused program: its parameters in signature order, its body, the variable it returns, and
      the weight files supplied with it. */
  datatype Program<P> = Program(params: seq<string>, body: seq<Stmt<string, string, P>>, result: string,
                                weights: seq<(string, Blob)>)

  /** Runs a program on arguments bound by parameter name. */
  function RunProgram<P, V>(m: Meaning<P, V>, prog: Program<P>, args: map<string, V>): Option<V> {
    if !(forall x <- prog.params :: x in args) then None
    else
      match Run(m, FileMap(prog.weights), prog.body, map x | x in prog.params :: args[x])
      case None => None
      case Some(env) => if prog.result in env then Some(env[prog.result]) else None
  }

  function TensorVars(ts: seq<TensorId>): seq<string> {
    seq(|ts|, k requires 0 <= k < |ts| => TensorVar(ts[k]))
  }

  /** What lowering makes of a group; None where an emitter throws. */
  function Compiled<P, V>(be: Backend<P, V>, g: Graph, group: Group): Option<Program<P>>
    requires group.inputs != []
    requires forall k :: 0 <= k < |group.nodeIds| ==>
               group.nodeIds[k] < |g.nodes| && g.nodes[group.nodeIds[k]].inputs != []
  {
    var first := TensorVar(group.inputs[0]);
    match Body(be, g, group.nodeIds, first)
    case None => None
    case Some(b) =>
      Some(Program(SortNames(TensorVars(group.inputs)), b, ChainVar(g, group.nodeIds, first),
                   Entries(g, group.nodeIds)))
  }

  /** The lowering loop: chain variable, fragments and weight entries advance together. */
  method CompileGroup<P, V>(be: Backend<P, V>, g: Graph, group: Group) returns (r: Option<Program<P>>)
    requires group.inputs != []
    requires forall k :: 0 <= k < |group.nodeIds| ==>
               group.nodeIds[k] < |g.nodes| && g.nodes[group.nodeIds[k]].inputs != []
    ensures r == Compiled(be, g, group)
  {
    var first := TensorVar(group.inputs[0]);
    var chain := first;
    var body: seq<Stmt<string, string, P>> := [];
    var entries: seq<(string, Blob)> := [];
    var ids := group.nodeIds;
    for k := 0 to |ids|
      invariant LoweredSoFar(be, g, ids[..k], first, chain, body, entries)
    {
      assert ids[..k + 1] == ids[..k] + [ids[k]];
      var ok;
      ok, chain, body, entries := LowerNode(be, g, ids[..k], ids[k], first, chain, body, entries);
      if !ok {
        BodyStopsAt(be, g, ids, k + 1, first);
        return None;
      }
    }
    assert ids[..|ids|] == ids;
    r := Some(Program(SortNames(TensorVars(group.inputs)), body, chain, entries));
  }

  /** Chain variable, fragments and weight entries after the nodes of `pre`. */
  ghost predicate LoweredSoFar<P, V>(be: Backend<P, V>, g: Graph, pre: seq<nat>, first: string, chain: string,
                                     body: seq<Stmt<string, string, P>>, entries: seq<(string, Blob)>)
  {
    && (forall k :: 0 <= k < |pre| ==> pre[k] < |g.nodes| && g.nodes[pre[k]].inputs != [])
    && chain == ChainVar(g, pre, first) && Body(be, g, pre, first) == Some(body) && entries == Entries(g, pre)
  }

  /** One turn of the loop; not ok if the emitter throws. */
  method LowerNode<P, V>(be: Backend<P, V>, g: Graph, ghost pre: seq<nat>, i: nat, ghost first: string, chain0: string,
                         body0: seq<Stmt<string, string, P>>, entries0: seq<(string, Blob)>)
    returns (ok: bool, chain: string, body: seq<Stmt<string, string, P>>, entries: seq<(string, Blob)>)
    requires LoweredSoFar(be, g, pre, first, chain0, body0, entries0) && i < |g.nodes| && g.nodes[i].inputs != []
    ensures ok ==> LoweredSoFar(be, g, pre + [i], first, chain, body, entries)
    ensures !ok ==> Body(be, g, pre + [i], first).None?
  {
    LowerNextNode(be, g, pre, i, first);
    ok, chain, body, entries := false, chain0, body0, entries0;
    var node := g.nodes[i];
    var t := be.emit(g, node);
    if t.Some? {
      ok, chain := true, TensorVar(node.output);
      body := body0 + Fragment(t.value, node, ReadNames(chain0, node), chain);
      entries := entries0 + NodeEntries(g, i);
    }
  }

  lemma LowerNextNode<P, V>(be: Backend<P, V>, g: Graph, pre: seq<nat>, i: nat, first: string)
    requires i < |g.nodes| && g.nodes[i].inputs != []
    requires forall k :: 0 <= k < |pre| ==> pre[k] < |g.nodes| && g.nodes[pre[k]].inputs != []
    requires Body(be, g, pre, first).Some?
    ensures var n, t := g.nodes[i], be.emit(g, g.nodes[i]);
            && Body(be, g, pre + [i], first) ==
                 (if t.None? then None
                  else Some(Body(be, g, pre, first).value
                            + Fragment(t.value, n, ReadNames(ChainVar(g, pre, first), n), TensorVar(n.output))))
            && ChainVar(g, pre + [i], first) == TensorVar(n.output)
            && Entries(g, pre + [i]) == Entries(g, pre) + NodeEntries(g, i)
  {
    assert (pre + [i])[|pre|] == i && (pre + [i])[..|pre|] == pre;
  }

  lemma {:induction false} BodyStopsAt<P, V>(be: Backend<P, V>, g: Graph, ids: seq<nat>, k: nat, first: string)
    requires k <= |ids|
    requires forall j :: 0 <= j < |ids| ==> ids[j] < |g.nodes| && g.nodes[ids[j]].inputs != []
    requires Body(be, g, ids[..k], first).None?
    ensures Body(be, g, ids, first).None?
    decreases |ids|
  {
    if k == |ids| {
      assert ids[..k] == ids;
    } else {
      var m := |ids| - 1;
      assert ids[..m][..k] == ids[..k];
      BodyStopsAt(be, g, ids[..m], k, first);
    }
  }

  /** The program of a group supplies each weight file once and, given its inputs' values by
      name, returns the value of the group's last node.  Succeeding at all means that each
      variable of the body was assigned once, after everything it reads, and each file was supplied;
      the signature declares each parameter once exactly when the group's head reads no tensor twice. */
  lemma GroupComputes<P, V>(be: Backend<P, V>, g: Graph, vals: seq<V>, lo: nat, hi: nat, args: map<string, V>)
    requires MaximalRun(g, lo, hi) && |vals| == |g.tensors|
    requires forall i :: lo <= i < hi ==> NodeEquation(be, g, vals, i)
    requires forall t <- RunInputs(g, lo, hi) :: t < |vals| && TensorVar(t) in args && args[TensorVar(t)] == vals[t]
    ensures GroupLowers(be, g, lo, hi)
    ensures var prog := Compiled(be, g, GroupOf(g, lo, hi)).value;
            && NoDuplicates(EntryNames(prog.weights))
            && (NoDuplicates(prog.params) <==> NoDuplicates(g.nodes[lo].inputs))
            && GroupOf(g, lo, hi).output < |vals|
            && RunProgram(be.meaning, prog, args) == Some(vals[GroupOf(g, lo, hi).output])
  {
    EquationsEmit(be, g, vals, lo, hi);
    RunLowers(be, g, lo, hi);
    AllReady(be, g, vals, lo, hi);
    ProgramComputes(be, g, vals, lo, hi, args);
    RunFiles(g, lo, hi, lo);
    ParamsDistinct(g, lo, hi);
  }

  /** The program of a run. */
  ghost function ProgramOf<P, V>(be: Backend<P, V>, g: Graph, lo: nat, hi: nat): Program<P>
    requires lo < hi && Emits(be, g, lo, hi)
  {
    Program(SortNames(TensorVars(RunInputs(g, lo, hi))), BodyUpTo(be, g, lo, hi),
            TensorVar(g.nodes[hi - 1].output), Entries(g, Span(lo, hi)))
  }

  lemma ProgramComputes<P, V>(be: Backend<P, V>, g: Graph, vals: seq<V>, lo: nat, hi: nat, args: map<string, V>)
    requires MaximalRun(g, lo, hi) && Emits(be, g, lo, hi) && EmitsSound(be, g, lo)
    requires NodeIds(g, Span(lo, hi))
    requires forall i :: lo <= i < hi ==> Ready(be, g, vals, FileMap(Entries(g, Span(lo, hi))), i)
    requires forall t <- RunInputs(g, lo, hi) :: t < |vals| && TensorVar(t) in args && args[TensorVar(t)] == vals[t]
    ensures g.nodes[hi - 1].output < |vals|
    ensures RunProgram(be.meaning, ProgramOf(be, g, lo, hi), args) == Some(vals[g.nodes[hi - 1].output])
  {
    var prog := ProgramOf(be, g, lo, hi);
    ParamsAreInputs(vals, RunInputs(g, lo, hi), args);
    var env0 := map x | x in prog.params :: args[x];
    PrefixReached(be, g, vals, lo, hi, FileMap(prog.weights), env0);
  }

  lemma AllReady<P, V>(be: Backend<P, V>, g: Graph, vals: seq<V>, lo: nat, hi: nat)
    requires WellFormed(g) && lo < hi <= |g.nodes|
    requires forall i :: lo <= i < hi ==> NodeEquation(be, g, vals, i)
    ensures NodeIds(g, Span(lo, hi))
    ensures forall i :: lo <= i < hi ==> Ready(be, g, vals, FileMap(Entries(g, Span(lo, hi))), i)
  {
    forall i | lo <= i < hi ensures Ready(be, g, vals, FileMap(Entries(g, Span(lo, hi))), i) {
      RunFiles(g, lo, hi, i);
      assert NodeEquation(be, g, vals, i);
    }
  }

  ghost predicate GroupLowers<P, V>(be: Backend<P, V>, g: Graph, lo: nat, hi: nat) {
    && Emits(be, g, lo, hi) && lo < hi && RunInputs(g, lo, hi) != []
    && ListEmits(be, g, Span(lo, hi))
    && Compiled(be, g, GroupOf(g, lo, hi)).Some?
  }

  lemma EquationsEmit<P, V>(be: Backend<P, V>, g: Graph, vals: seq<V>, lo: nat, hi: nat)
    requires lo < hi <= |g.nodes|
    requires forall i :: lo <= i < hi ==> NodeEquation(be, g, vals, i)
    ensures Emits(be, g, lo, hi) && EmitsSound(be, g, lo)
  {
    forall i | lo <= i < hi ensures g.nodes[i].inputs != [] && be.emit(g, g.nodes[i]).Some? {
      assert NodeEquation(be, g, vals, i);
    }
    assert NodeEquation(be, g, vals, lo);
  }

  lemma RunLowers<P, V>(be: Backend<P, V>, g: Graph, lo: nat, hi: nat)
    requires lo < hi && Emits(be, g, lo, hi)
    ensures GroupLowers(be, g, lo, hi)
    ensures Compiled(be, g, GroupOf(g, lo, hi)) == Some(ProgramOf(be, g, lo, hi))
  {
    SpanEmits(be, g, lo, hi);
    HeadInput(g, lo, hi);
    BodyOfRun(be, g, lo, hi);
    GroupCompiles(be, g, lo, hi, GroupOf(g, lo, hi), BodyUpTo(be, g, lo, hi));
  }

  lemma GroupCompiles<P, V>(be: Backend<P, V>, g: Graph, lo: nat, hi: nat, group: Group, body: seq<Stmt<string,
                            string, P>>)
    requires lo < hi <= |g.nodes| && group.nodeIds == Span(lo, hi)
    requires group.inputs != [] && ListEmits(be, g, group.nodeIds)
    requires Body(be, g, group.nodeIds, TensorVar(group.inputs[0])) == Some(body)
    ensures Compiled(be, g, group) == Some(Program(SortNames(TensorVars(group.inputs)), body,
                                                   TensorVar(g.nodes[hi - 1].output), Entries(g, group.nodeIds)))
  {
    CompiledIs(be, g, group, body, hi - 1);
  }

  lemma CompiledIs<P, V>(be: Backend<P, V>, g: Graph, group: Group, body: seq<Stmt<string, string, P>>, last: nat)
    requires group.inputs != [] && group.nodeIds != [] && ListEmits(be, g, group.nodeIds)
    requires group.nodeIds[|group.nodeIds| - 1] == last
    requires Body(be, g, group.nodeIds, TensorVar(group.inputs[0])) == Some(body)
    ensures Compiled(be, g, group) == Some(Program(SortNames(TensorVars(group.inputs)), body,
                                                   TensorVar(g.nodes[last].output), Entries(g, group.nodeIds)))
  {
  }

  lemma HeadInput(g: Graph, lo: nat, hi: nat)
    requires lo < hi <= |g.nodes| && g.nodes[lo].inputs != []
    ensures RunInputs(g, lo, hi) != [] && RunInputs(g, lo, hi)[0] == g.nodes[lo].inputs[0]
  {
    RunInputsElements(g, lo, hi);
    assert RunInputs(g, lo, hi)[..|g.nodes[lo].inputs|][0] == g.nodes[lo].inputs[0];
  }

  lemma ParamsAreInputs<V>(vals: seq<V>, inputs: seq<TensorId>, args: map<string, V>)
    requires forall t <- inputs :: t < |vals| && TensorVar(t) in args && args[TensorVar(t)] == vals[t]
    ensures forall x <- SortNames(TensorVars(inputs)) :: x in args
    ensures ParamsHold(vals, inputs, map x | x in SortNames(TensorVars(inputs)) :: args[x])
  {
    var names := TensorVars(inputs);
    SortNamesPermutes(names);
    forall x ensures x in SortNames(names) <==> x in names {
      assert x in multiset(SortNames(names)) <==> x in multiset(names);
    }
    ParamsOf(vals, inputs, names, SortNames(names), args);
  }

  lemma ParamsOf<V>(vals: seq<V>, inputs: seq<TensorId>, names: seq<string>, params: seq<string>, args: map<string, V>)
    requires names == TensorVars(inputs) && forall x :: x in params <==> x in names
    requires forall t <- inputs :: t < |vals| && TensorVar(t) in args && args[TensorVar(t)] == vals[t]
    ensures forall x <- params :: x in args
    ensures ParamsHold(vals, inputs, map x | x in params :: args[x])
  {
    forall t <- inputs ensures TensorVar(t) in names {
      var k :| 0 <= k < |inputs| && inputs[k] == t;
      assert names[k] == TensorVar(t);
    }
    forall x <- names ensures exists t :: t in inputs && x == TensorVar(t) {
      var k :| 0 <= k < |names| && names[k] == x;
      assert inputs[k] in inputs;
    }
  }

  // ----- signature order -----

  /** Alphabetical order. */
  predicate AtMost(a: string, b: string) {
    a == [] || (b != [] && (a[0] < b[0] || (a[0] == b[0] && AtMost(a[1..], b[1..]))))
  }

  function InsertName(s: seq<string>, x: string): seq<string> {
    if s == [] || AtMost(s[|s| - 1], x) then s + [x] else InsertName(s[..|s| - 1], x) + [s[|s| - 1]]
  }

  /** Parameters sorted alphabetically. */
  function SortNames(s: seq<string>): seq<string> {
    if s == [] then [] else InsertName(SortNames(s[..|s| - 1]), s[|s| - 1])
  }

  ghost predicate Alphabetical(s: seq<string>) {
    forall i :: 0 < i < |s| ==> AtMost(s[i - 1], s[i])
  }

  lemma {:induction false} InsertNamePermutes(s: seq<string>, x: string)
    ensures multiset(InsertName(s, x)) == multiset(s) + multiset{x}
  {
    if s != [] && !AtMost(s[|s| - 1], x) {
      InsertNamePermutes(s[..|s| - 1], x);
      assert s == s[..|s| - 1] + [s[|s| - 1]];
    }
  }

  lemma {:induction false} SortNamesPermutes(s: seq<string>)
    ensures multiset(SortNames(s)) == multiset(s)
  {
    if s != [] {
      SortNamesPermutes(s[..|s| - 1]);
      InsertNamePermutes(SortNames(s[..|s| - 1]), s[|s| - 1]);
      assert s == s[..|s| - 1] + [s[|s| - 1]];
    }
  }

  lemma {:induction false} AtMostTotal(a: string, b: string)
    ensures AtMost(a, b) || AtMost(b, a)
  {
    if a != [] && b != [] && a[0] == b[0] { AtMostTotal(a[1..], b[1..]); }
  }

  lemma {:induction false} InsertNameSorts(s: seq<string>, x: string)
    requires Alphabetical(s)
    ensures Alphabetical(InsertName(s, x))
    ensures var r := InsertName(s, x);
            r != [] && (r[|r| - 1] == x || (s != [] && r[|r| - 1] == s[|s| - 1] && AtMost(x, s[|s| - 1])))
  {
    if s != [] && !AtMost(s[|s| - 1], x) {
      var pre := s[..|s| - 1];
      InsertNameSorts(pre, x);
      AtMostTotal(s[|s| - 1], x);
    }
  }

  lemma {:induction false} SortNamesSorts(s: seq<string>)
    ensures Alphabetical(SortNames(s))
  {
    if s != [] {
      SortNamesSorts(s[..|s| - 1]);
      InsertNameSorts(SortNames(s[..|s| - 1]), s[|s| - 1]);
    }
  }

  /** Sorting leaves a list alone exactly when it is in order. */
  lemma {:induction false} SortedFixpoint(names: seq<string>)
    ensures SortNames(names) == names <==> Alphabetical(names)
  {
    SortNamesSorts(names);
    if names != [] && Alphabetical(names) {
      var pre := names[..|names| - 1];
      SortedFixpoint(pre);
      assert names == pre + [names[|names| - 1]];
    }
  }

  // ----- repeated parameters -----

  lemma {:induction false} DistinctByCount(s: seq<string>)
    ensures NoDuplicates(s) <==> forall x: string :: multiset(s)[x] <= 1
  {
    if s != [] {
      var pre, last := s[..|s| - 1], s[|s| - 1];
      assert s == pre + [last];
      DistinctByCount(pre);
      assert NoDuplicates(s) <==> NoDuplicates(pre) && last !in pre;
      assert last in pre <==> multiset(pre)[last] > 0;
      forall x: string ensures multiset(s)[x] == multiset(pre)[x] + if x == last then 1 else 0 {}
      if forall x: string :: multiset(s)[x] <= 1 {
        forall x: string ensures multiset(pre)[x] <= 1 { assert multiset(s)[x] <= 1; }
        assert multiset(s)[last] <= 1;
      }
    }
  }

  lemma VarsDistinct(ts: seq<TensorId>)
    ensures NoDuplicates(TensorVars(ts)) <==> NoDuplicates(ts)
  {
    var names := TensorVars(ts);
    forall i, j | 0 <= i < j < |ts| ensures names[i] == names[j] <==> ts[i] == ts[j] {
      if names[i] == names[j] { TensorVarInjective(ts[i], ts[j]); }
    }
  }

  /** The signature declares each parameter once exactly when the head of the run reads no tensor twice. */
  lemma ParamsDistinct(g: Graph, lo: nat, hi: nat)
    requires lo < hi <= |g.nodes|
    ensures NoDuplicates(SortNames(TensorVars(RunInputs(g, lo, hi)))) <==> NoDuplicates(g.nodes[lo].inputs)
  {
    var names := TensorVars(RunInputs(g, lo, hi));
    SortNamesPermutes(names);
    DistinctByCount(names);
    DistinctByCount(SortNames(names));
    VarsDistinct(RunInputs(g, lo, hi));
    DuplicatedInputs(g, lo, hi);
  }
}
