/** When an op's emitter throws: the shape checks the emitters make, and what is left of them after
    validation. */
module Emitters {
  import opened Graph
  import opened Validator

  /** The shape an emitter rebuilds from a channel count and a width. */
  function Plane(channels: int, width: int): Shape {
    Shape(1, channels, 1, width)
  }

  /** The upscale factor of a pixel shuffle; 0 if its weights are not one 32-bit integer. */
  function Factor(n: Node): int {
    if |n.weights| == 4 then Int32(n.weights) else 0
  }

  /** The emitter of the node's op returns: there is one, and its own shape checks pass. */
  predicate EmitterAccepts(g: Graph, n: Node)
    requires IdsKnown(g, n) && n.inputs != []
  {
    var x, out := g.tensors[n.inputs[0]].shape, g.tensors[n.output].shape;
    match n.op
    case Cast | Conv2d | Unknown(_) => false
    case Matmul => Plane(x.channels, out.width).Ok() && Plane(out.channels, out.width).Ok()
    case RmsNorm | LayerNorm | Layernorm => Plane(x.channels, x.width).Ok()
    case Transpose => Plane(x.channels, x.width).Ok() && Plane(x.width, x.channels).Ok()
    case Reshape =>
      && Plane(x.channels, x.width).Ok() && Plane(out.channels, out.width).Ok()
      && Plane(x.channels, x.width).Numel() == Plane(out.channels, out.width).Numel()
    case ReduceProd => Plane(x.channels, x.width).Ok() && Plane(1, x.width).Ok()
    case ReduceSum | ReduceMean | ReduceMax => Plane(1, x.width).Ok()
    case Concat => Plane(x.channels + out.channels, out.width).Ok()
    case SliceByIndex =>
      Plane(out.channels, out.width).Ok() && out.channels <= x.channels && out.width <= x.width
    case PixelShuffle =>
      && Factor(n) > 0
      && Plane(out.channels * Factor(n), x.width).Ok() && Plane(out.channels, x.width * Factor(n)).Ok()
    case PwlActivation => |n.weights| / 4 - 2 >= 2 && Plane(out.channels, out.width).Ok()
    case _ => Plane(out.channels, out.width).Ok()
  }

  /** What a caller must look at beyond validation. */
  predicate LoweringThrows(g: Graph, n: Node)
    requires IdsKnown(g, n) && n.inputs != []
  {
    var x, out := g.tensors[n.inputs[0]].shape, g.tensors[n.output].shape;
    || n.op.Cast?
    || (n.op.Transpose? && (x.channels % 16 != 0 || x.width > 16384))
    || (n.op.Concat? && x.channels + out.channels > 16384)
    || (n.op.PixelShuffle? && (out.channels * Factor(n) > 16384 || x.width * Factor(n) > 65536))
  }

  /** Validation leaves exactly these cases in which an emitter throws. */
  lemma ThrowsExactly(g: Graph, i: nat)
    requires WellFormed(g) && i < |g.nodes| && Passes(g, g.nodes[i])
    ensures g.nodes[i].inputs != []
    ensures EmitterAccepts(g, g.nodes[i]) <==> !LoweringThrows(g, g.nodes[i])
  {
    var n := g.nodes[i];
    ValidatedNodes(g, i);
    var x, out := g.tensors[n.inputs[0]].shape, g.tensors[n.output].shape;
    assert TensorOk(g, n.inputs[0]) && TensorOk(g, n.output);
    if n.op.PixelShuffle? { ShuffleShapes(x, out, Factor(n)); }
  }

  lemma ShuffleShapes(x: Shape, out: Shape, r: int)
    requires x.Ok() && out.Ok() && r > 0
    ensures Plane(out.channels * r, x.width).Ok() <==> out.channels * r <= 16384
    ensures Plane(out.channels, x.width * r).Ok() <==> x.width * r <= 65536
  {
    assert out.channels * r > 0 && x.width * r > 0;
    var k := x.width / 16;
    assert x.width * r == 16 * (k * r);
  }
}
