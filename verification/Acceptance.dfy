/** Which graphs validate, op by op: arity, weight length in bytes and shapes, written out as a table. */
module Acceptance {
  import opened Names
  import opened Graph
  import opened Validator
  import opened Mil
  import opened Weights
  import opened Witnesses

  // ----- the table -----

  /** The number in four little-endian bytes. */
  function Unsigned(w: seq<byte>): int
    requires |w| == 4
  {
    w[0] as int + 256 * (w[1] as int + 256 * (w[2] as int + 256 * (w[3] as int)))
  }

  predicate OnlyInputs(xs: seq<Shape>, weights: seq<byte>, arity: nat) {
    |xs| == arity && weights == []
  }

  /** An op on tensors of shapes xs with an output of shape `out` is accepted. */
  ghost predicate Rule(op: Op, xs: seq<Shape>, out: Shape, weights: seq<byte>) {
    match op
    case Matmul => |xs| == 1 && |weights| == 2 * (xs[0].channels * out.channels)
    case RmsNorm => |xs| == 1 && |weights| == 2 * out.channels
    case LayerNorm | Layernorm => |xs| == 1 && |weights| == 4 * out.channels
    case PwlActivation => |xs| == 1 && exists floats: nat :: floats >= 4 && |weights| == 4 * floats
    case PixelShuffle => |xs| == 1 && |weights| == 4 && IsFactor(weights, xs[0].channels)
    case Scatter | ScatterNd | ScatterAlongAxis =>
      |xs| == 2 && xs[0] == xs[1] == out && |weights| == 2 * (out.channels * out.width)
    case Gather =>
      || (|xs| == 1 && xs[0] == out && |weights| == 2 * (out.channels * out.width))
      || (OnlyInputs(xs, weights, 2) && xs[0] == xs[1] == out)
    case Add | Mul | Sub | RealDiv => OnlyInputs(xs, weights, 2) && xs[0] == xs[1]
    case Mod | LogicalAnd | LogicalOr | LogicalXor => OnlyInputs(xs, weights, 2)
    case Concat =>
      && OnlyInputs(xs, weights, 2)
      && xs[0].width == xs[1].width == out.width && xs[0].channels + xs[1].channels == out.channels
    case Select =>
      && OnlyInputs(xs, weights, 3)
      && forall k :: 0 <= k < 3 ==> xs[k].channels == out.channels && xs[k].width == out.width
    case Reshape => OnlyInputs(xs, weights, 1) && xs[0].channels * xs[0].width == out.channels * out.width
    case SliceByIndex => OnlyInputs(xs, weights, 1) && out.channels <= xs[0].channels && out.width <= xs[0].width
    case ReduceProd | ReduceSum | ReduceMean | ReduceMax =>
      OnlyInputs(xs, weights, 1) && out.channels == 1 && out.width == xs[0].width
    case Gelu | Softmax | AvgPool | MaxPool | Neg | Sinh | Cosh | Tan | Asin | Acos | Silu | Sqrt | Log | Rsqrt
       | Transpose | Cast | Relu | Tanh | Sigmoid | Hardswish | LeakyRelu | Elu => OnlyInputs(xs, weights, 1)
    case Conv2d | Unknown(_) => false
  }

  /** The bytes are a positive signed number that divides the channels. */
  predicate IsFactor(w: seq<byte>, channels: int)
    requires |w| == 4
  {
    w[3] < 128 && Unsigned(w) > 0 && channels % Unsigned(w) == 0
  }

  // ----- the checks follow the table -----

  ghost predicate Sees(h: Graph, n: Node, xs: seq<Shape>) {
    && IdsKnown(h, n) && |xs| == |n.inputs| && h.tensors[n.output].shape.Ok()
    && forall k :: 0 <= k < |xs| ==> xs[k].Ok() && h.tensors[n.inputs[k]].shape == xs[k]
  }

  lemma FactorBytes(w: seq<byte>, channels: int)
    requires |w| == 4
    ensures IsFactor(w, channels) <==> Int32(w) > 0 && channels % Int32(w) == 0
  {
    var u := w[0] as int + 256 * (w[1] as int) + 65536 * (w[2] as int) + 16777216 * (w[3] as int);
    assert u == Unsigned(w);
    assert u < 0x8000_0000 <==> w[3] < 128;
  }

  lemma ShapeNumbers(s: Shape)
    requires s.Ok()
    ensures s.Numel() == s.channels * s.width && s.Bytes() == 2 * (s.channels * s.width) > 0
  {
  }

  lemma MatmulRule(h: Graph, n: Node, xs: seq<Shape>)
    requires Sees(h, n, xs) && |xs| == 1 && n.op.Matmul?
    ensures Passes(h, n) <==> Rule(n.op, xs, h.tensors[n.output].shape, n.weights)
  {
    var ic, oc := xs[0].channels, h.tensors[n.output].shape.channels;
    assert ic * oc * 2 == 2 * (ic * oc);
  }

  lemma NumberRule(h: Graph, n: Node, xs: seq<Shape>)
    requires Sees(h, n, xs) && |xs| == 1 && (n.op.PixelShuffle? || n.op.PwlActivation?)
    ensures Passes(h, n) <==> Rule(n.op, xs, h.tensors[n.output].shape, n.weights)
  {
    var nw := |n.weights|;
    if nw == 4 { FactorBytes(n.weights, xs[0].channels); }
    if nw % 4 == 0 { assert nw == 4 * (nw / 4); }
  }

  lemma OneInputRule(h: Graph, n: Node, xs: seq<Shape>)
    requires Sees(h, n, xs) && |xs| == 1
    ensures Passes(h, n) <==> Rule(n.op, xs, h.tensors[n.output].shape, n.weights)
  {
    if n.op.Matmul? {
      MatmulRule(h, n, xs);
    } else if n.op.PixelShuffle? || n.op.PwlActivation? {
      NumberRule(h, n, xs);
    } else {
      ShapeNumbers(h.tensors[n.output].shape);
      ShapeNumbers(xs[0]);
    }
  }

  lemma TwoInputRule(h: Graph, n: Node, xs: seq<Shape>)
    requires Sees(h, n, xs) && |xs| == 2
    ensures Passes(h, n) <==> Rule(n.op, xs, h.tensors[n.output].shape, n.weights)
  {
    ShapeNumbers(h.tensors[n.output].shape);
    assert BinaryShapesMatch(h, n) <==> (n.op in {Add, Mul, Sub, RealDiv} ==> xs[1] == xs[0]);
  }

  lemma OtherArityRule(h: Graph, n: Node, xs: seq<Shape>)
    requires Sees(h, n, xs) && |xs| != 1 && |xs| != 2
    ensures Passes(h, n) <==> Rule(n.op, xs, h.tensors[n.output].shape, n.weights)
  {
  }

  lemma PassesIsRule(h: Graph, n: Node, xs: seq<Shape>)
    requires Sees(h, n, xs)
    ensures Passes(h, n) <==> Rule(n.op, xs, h.tensors[n.output].shape, n.weights)
  {
    if |xs| == 1 {
      OneInputRule(h, n, xs);
    } else if |xs| == 2 {
      TwoInputRule(h, n, xs);
    } else {
      OtherArityRule(h, n, xs);
    }
  }

  /** The shapes a node reads. */
  function ShapesOf(g: Graph, n: Node): (xs: seq<Shape>)
    requires IdsKnown(g, n)
    ensures |xs| == |n.inputs|
  {
    seq(|n.inputs|, k requires 0 <= k < |n.inputs| => g.tensors[n.inputs[k]].shape)
  }

  lemma NodeSees(g: Graph, i: nat)
    requires WellFormed(g) && i < |g.nodes|
    ensures IdsKnown(g, g.nodes[i]) && Sees(g, g.nodes[i], ShapesOf(g, g.nodes[i]))
  {
    var n := g.nodes[i];
    InputIdsInRange(g, i);
    assert TensorOk(g, n.output);
    forall k | 0 <= k < |n.inputs| ensures g.tensors[n.inputs[k]].shape.Ok() { assert TensorOk(g, n.inputs[k]); }
  }

  ghost predicate FollowsRule(g: Graph, i: nat)
    requires i < |g.nodes|
  {
    var n := g.nodes[i];
    IdsKnown(g, n) && Rule(n.op, ShapesOf(g, n), g.tensors[n.output].shape, n.weights)
  }

  /** Every graph built through the API validates exactly when it has inputs and outputs and each of its nodes
      follows the table. */
  lemma ValidatedIff(calls: seq<Call>)
    ensures var g := Built(calls);
            Validated(g) <==> g.inputs != [] && g.outputs != [] && forall i :: 0 <= i < |g.nodes| ==> FollowsRule(g, i)
  {
    BuiltIsWellFormed(calls);
    var g := Built(calls);
    WellFormedPasses(g);
    forall i | 0 <= i < |g.nodes| ensures Passes(g, g.nodes[i]) <==> FollowsRule(g, i) {
      NodeSees(g, i);
      PassesIsRule(g, g.nodes[i], ShapesOf(g, g.nodes[i]));
    }
  }

  // ----- a norm whose file is too short -----

  /** An RMSNORM from more to fewer channels validates, and its file does not fill the declared scale. */
  lemma NormFileTooShort(x: Shape, out: Shape, weights: seq<byte>)
    requires x.Ok() && out.Ok() && out.channels < x.channels && |weights| == 2 * out.channels
    ensures var g := Built(UnaryCalls(RmsNorm, x, out, [0], weights));
            && WellFormed(g) && Validated(g) && |g.nodes| == 1 && IdsKnown(g, g.nodes[0]) && g.nodes[0].inputs != []
            && Declared(g, g.nodes[0]) == [2 * x.channels] && !FilesFill(g, g.nodes[0])
  {
    var calls := UnaryCalls(RmsNorm, x, out, [0], weights);
    UnaryGraph(RmsNorm, x, out, [0], weights);
    NormNode(Built(calls), x, out, weights);
    PassesValidation(calls);
    FilesFillIff(Built(calls), 0);
  }

  lemma NormNode(g: Graph, x: Shape, out: Shape, weights: seq<byte>)
    requires IsUnary(g, RmsNorm, x, out, [0], weights) && |weights| == 2 * out.channels
    ensures Passes(g, g.nodes[0]) && Declared(g, g.nodes[0]) == [2 * x.channels]
  {
  }
}
