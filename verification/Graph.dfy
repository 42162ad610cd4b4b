/** The graph builder: tensors and nodes with contiguous ids, appended one call at a time. */
module Graph {
  import opened Names

  datatype Option<+T> = None | Some(value: T)

  type byte = x: int | 0 <= x < 256

  /** The operation codes.  A code outside the enumeration is `Unknown`. */
  datatype Op =
    | Matmul | Conv2d | LayerNorm | Gelu | Softmax | Add | Mul | Transpose | Cast | Silu
    | RmsNorm | Layernorm | AvgPool | MaxPool | LogicalAnd | LogicalOr | LogicalXor
    | ReduceProd | Scatter | Gather | ScatterNd | ScatterAlongAxis | Neg | Mod | Sinh | Cosh
    | Tan | Asin | Acos | Reshape | Concat | SliceByIndex | ReduceSum | ReduceMean | ReduceMax
    | Sub | RealDiv | Sqrt | Log | Rsqrt | Select | Relu | Tanh | Sigmoid | Hardswish
    | LeakyRelu | Elu | PixelShuffle | PwlActivation | Unknown(code: int)

  datatype Shape = Shape(batch: int, channels: int, height: int, width: int) {
    /** The hardware constraints on a tensor shape; `width` is the sequence dimension. */
    predicate Ok() {
      && batch == 1 && height == 1
      && 0 < width <= 65536 && width % 16 == 0
      && 0 < channels <= 16384
    }
    function Numel(): int { batch * channels * height * width }
    function Bytes(): int { Numel() * 2 }
  }

  type TensorId = nat

  /** `producer` is the id of the node whose output the tensor is, None for a graph input. */
  datatype Tensor = Tensor(id: TensorId, name: string, shape: Shape, producer: Option<nat>)

  datatype Node = Node(id: nat, op: Op, inputs: seq<TensorId>, output: TensorId,
                       weights: seq<byte>, weightFile: string)

  datatype Graph = Graph(tensors: seq<Tensor>, nodes: seq<Node>,
                         inputs: seq<TensorId>, outputs: seq<TensorId>)

  const EmptyGraph := Graph([], [], [], [])

  /** What every graph built through the API satisfies. */
  ghost predicate WellFormed(g: Graph) {
    && (forall t :: 0 <= t < |g.tensors| ==> TensorOk(g, t))
    && (forall i :: 0 <= i < |g.nodes| ==> NodeOk(g, i))
    && (forall i, j :: 0 <= i < j < |g.nodes| ==> g.nodes[i].output < g.nodes[j].output)
    && (forall i :: 0 <= i < |g.inputs| ==>
          g.inputs[i] < |g.tensors| && g.tensors[g.inputs[i]].producer.None?)
    && (forall i, j :: 0 <= i < j < |g.inputs| ==> g.inputs[i] < g.inputs[j])
    && (forall i :: 0 <= i < |g.outputs| ==> g.outputs[i] < |g.tensors|)
  }

  /** A tensor is a declared graph input or the output of exactly the node it names. */
  ghost predicate TensorOk(g: Graph, t: nat)
    requires t < |g.tensors|
  {
    var x := g.tensors[t];
    && x.id == t
    && x.shape.Ok()
    && (x.producer.None? ==> t in g.inputs)
    && (x.producer.Some? ==> x.producer.value < |g.nodes| && g.nodes[x.producer.value].output == t)
  }

  /** A node reads only tensors older than its output, and its weight file is its own. */
  ghost predicate NodeOk(g: Graph, i: nat)
    requires i < |g.nodes|
  {
    var n := g.nodes[i];
    && n.id == i
    && n.output < |g.tensors|
    && g.tensors[n.output].producer == Some(i)
    && (forall k :: 0 <= k < |n.inputs| ==> n.inputs[k] < n.output)
    && n.weightFile == (if n.weights == [] then "" else WeightFile(i))
  }

  datatype Call =
    | AddInput(name: string, shape: Shape)
    | AddOp(op: Op, inputs: seq<TensorId>, shape: Shape, weights: seq<byte>)
    | MarkOutput(tensor: TensorId, name: string)

  /** Whether a builder call returns rather than throws. */
  predicate Accepts(g: Graph, c: Call) {
    match c
    case AddInput(_, shape) => shape.Ok()
    case AddOp(_, inputs, shape, _) => shape.Ok() && forall k :: 0 <= k < |inputs| ==> inputs[k] < |g.tensors|
    case MarkOutput(t, _) => t < |g.tensors|
  }

  /** The graph after a builder call; a call that throws leaves it alone. */
  function After(g: Graph, c: Call): Graph {
    if !Accepts(g, c) then g else
    var t := |g.tensors|;
    match c
    case AddInput(name, shape) =>
      g.(tensors := g.tensors + [Tensor(t, name, shape, None)], inputs := g.inputs + [t])
    case AddOp(op, inputs, shape, weights) =>
      var i := |g.nodes|;
      var file := if weights == [] then "" else WeightFile(i);
      g.(tensors := g.tensors + [Tensor(t, TensorVar(t), shape, Some(i))],
         nodes := g.nodes + [Node(i, op, inputs, t, weights, file)])
    case MarkOutput(o, name) =>
      g.(tensors := if name == "" then g.tensors
                    else g.tensors[o := g.tensors[o].(name := name)],
         outputs := g.outputs + [o])
  }

  /** The graph a whole client session builds. */
  function Built(calls: seq<Call>): Graph {
    if calls == [] then EmptyGraph else After(Built(calls[..|calls| - 1]), calls[|calls| - 1])
  }

  lemma AfterKeepsWellFormed(g: Graph, c: Call)
    requires WellFormed(g)
    ensures WellFormed(After(g, c))
  {
    var h := After(g, c);
    if Accepts(g, c) {
      forall t | 0 <= t < |h.tensors| ensures TensorOk(h, t) {
        if t < |g.tensors| {
          assert TensorOk(g, t);
        } else if c.AddInput? {
          assert h.inputs[|h.inputs| - 1] == t;
        }
      }
      forall i | 0 <= i < |h.nodes| ensures NodeOk(h, i) {
        if i < |g.nodes| { assert NodeOk(g, i); }
      }
      forall i, j | 0 <= i < j < |h.nodes| ensures h.nodes[i].output < h.nodes[j].output {
        assert NodeOk(g, i);
      }
    }
  }

  /** Every graph a client can build, by any sequence of calls, is well formed. */
  lemma {:induction false} BuiltIsWellFormed(calls: seq<Call>)
    ensures WellFormed(Built(calls))
  {
    if calls != [] {
      BuiltIsWellFormed(calls[..|calls| - 1]);
      AfterKeepsWellFormed(Built(calls[..|calls| - 1]), calls[|calls| - 1]);
    }
  }

  /** Producers come earlier in insertion order. */
  lemma InputComesFromEarlierNode(g: Graph, i: nat, k: nat)
    requires WellFormed(g) && i < |g.nodes| && k < |g.nodes[i].inputs|
    ensures g.nodes[i].inputs[k] < |g.tensors|
    ensures var p := g.tensors[g.nodes[i].inputs[k]].producer;
            p.None? || (p.value < i && g.nodes[p.value].output == g.nodes[i].inputs[k])
  {
    assert NodeOk(g, i);
    var t := g.nodes[i].inputs[k];
    assert TensorOk(g, t);
  }

  // ----- what a session leaves -----

  /** The calls of a session that did not throw. */
  function Accepted(calls: seq<Call>): seq<Call> {
    if calls == [] then []
    else
      var pre, c := calls[..|calls| - 1], calls[|calls| - 1];
      Accepted(pre) + if Accepts(Built(pre), c) then [c] else []
  }

  /** The marks among the calls, in call order. */
  function Marks(calls: seq<Call>): seq<TensorId> {
    if calls == [] then []
    else
      var c := calls[|calls| - 1];
      Marks(calls[..|calls| - 1]) + if c.MarkOutput? then [c.tensor] else []
  }

  /** The calls that append a node, in call order. */
  function Appends(calls: seq<Call>): (r: seq<Call>)
    ensures forall i :: 0 <= i < |r| ==> r[i].AddOp?
  {
    if calls == [] then []
    else
      var c := calls[|calls| - 1];
      Appends(calls[..|calls| - 1]) + if c.AddOp? then [c] else []
  }

  /** The shapes that the calls declare, in call order. */
  function Shapes(calls: seq<Call>): seq<Shape> {
    if calls == [] then []
    else
      var c := calls[|calls| - 1];
      Shapes(calls[..|calls| - 1]) + if c.MarkOutput? then [] else [c.shape]
  }

  /** The ids of the tensors that the calls declare as inputs: their positions among the declared shapes. */
  function InputsOf(calls: seq<Call>): seq<TensorId> {
    if calls == [] then []
    else
      var pre, c := calls[..|calls| - 1], calls[|calls| - 1];
      InputsOf(pre) + if c.AddInput? then [|Shapes(pre)|] else []
  }

  ghost predicate NodeIs(n: Node, c: Call) {
    c.AddOp? && n.op == c.op && n.inputs == c.inputs && n.weights == c.weights
  }

  /** The graph records exactly these calls: tensors, nodes, inputs and outputs in call order. */
  ghost predicate Records(g: Graph, calls: seq<Call>) {
    && g.outputs == Marks(calls) && g.inputs == InputsOf(calls)
    && |g.tensors| == |Shapes(calls)| && (forall t :: 0 <= t < |g.tensors| ==> g.tensors[t].shape == Shapes(calls)[t])
    && |g.nodes| == |Appends(calls)| && (forall i :: 0 <= i < |g.nodes| ==> NodeIs(g.nodes[i], Appends(calls)[i]))
  }

  lemma RecordsOneMore(g: Graph, calls: seq<Call>, c: Call)
    requires Records(g, calls) && Accepts(g, c)
    ensures Records(After(g, c), calls + [c])
  {
    assert (calls + [c])[..|calls|] == calls;
  }

  /** The graph of a session records its accepted calls, each as given and in call order. */
  lemma {:induction false} SessionRecorded(calls: seq<Call>)
    ensures Records(Built(calls), Accepted(calls))
  {
    if calls != [] {
      var pre, c := calls[..|calls| - 1], calls[|calls| - 1];
      SessionRecorded(pre);
      if Accepts(Built(pre), c) {
        RecordsOneMore(Built(pre), Accepted(pre), c);
      } else {
        assert Accepted(pre) + [] == Accepted(pre);
      }
    }
  }

  /** The mutable builder. */
  class AneGraph {
    var tensors: seq<Tensor>
    var nodes: seq<Node>
    var graphInputs: seq<TensorId>
    var graphOutputs: seq<TensorId>
    var nextTensorId: nat
    var nextNodeId: nat

    ghost predicate Valid()
      reads this
    {
      WellFormed(Value()) && nextTensorId == |tensors| && nextNodeId == |nodes|
    }

    function Value(): Graph
      reads this
    {
      Graph(tensors, nodes, graphInputs, graphOutputs)
    }

    constructor ()
      ensures Valid() && Value() == EmptyGraph
    {
      tensors, nodes, graphInputs, graphOutputs := [], [], [], [];
      nextTensorId, nextNodeId := 0, 0;
    }

    method AllocTensor(name: string, shape: Shape, producer: Option<nat>) returns (id: TensorId)
      requires nextTensorId == |tensors|
      modifies this`tensors, this`nextTensorId
      ensures id == old(|tensors|) && nextTensorId == |tensors|
      ensures tensors == old(tensors) + [Tensor(id, name, shape, producer)]
    {
      id := nextTensorId;
      nextTensorId := nextTensorId + 1;
      tensors := tensors + [Tensor(id, name, shape, producer)];
    }

    method DeclareInput(name: string, shape: Shape) returns (r: Option<TensorId>)
      requires Valid()
      modifies this
      ensures Valid()
      ensures Value() == After(old(Value()), AddInput(name, shape))
      ensures r == if shape.Ok() then Some(old(|tensors|)) else None
    {
      AfterKeepsWellFormed(Value(), AddInput(name, shape));
      if !shape.Ok() { return None; }
      var id := AllocTensor(name, shape, None);
      graphInputs := graphInputs + [id];
      return Some(id);
    }

    method AppendOp(op: Op, inputs: seq<TensorId>, shape: Shape, weights: seq<byte>)
      returns (r: Option<TensorId>)
      requires Valid()
      modifies this
      ensures Valid()
      ensures Value() == After(old(Value()), AddOp(op, inputs, shape, weights))
      ensures r == if Accepts(old(Value()), AddOp(op, inputs, shape, weights))
                   then Some(old(|tensors|)) else None
    {
      AfterKeepsWellFormed(Value(), AddOp(op, inputs, shape, weights));
      if !shape.Ok() { return None; }
      for k := 0 to |inputs|
        invariant forall j :: 0 <= j < k ==> inputs[j] < |tensors|
      {
        if inputs[k] >= |tensors| { return None; }
      }
      var nodeId := nextNodeId;
      nextNodeId := nextNodeId + 1;
      var file := "";
      if weights != [] { file := WeightFile(nodeId); }
      var out := AllocTensor(TensorVar(nextTensorId), shape, Some(nodeId));
      nodes := nodes + [Node(nodeId, op, inputs, out, weights, file)];
      return Some(out);
    }

    method Mark(tensor: TensorId, name: string) returns (ok: bool)
      requires Valid()
      modifies this
      ensures Valid()
      ensures Value() == After(old(Value()), MarkOutput(tensor, name))
      ensures ok == (tensor < old(|tensors|))
    {
      AfterKeepsWellFormed(Value(), MarkOutput(tensor, name));
      if tensor >= |tensors| { return false; }
      if name != "" {
        tensors := tensors[tensor := tensors[tensor].(name := name)];
      }
      graphOutputs := graphOutputs + [tensor];
      return true;
    }
  }
}
