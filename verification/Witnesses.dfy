/** Graphs that a client can build and that pass validation, but on which the pipeline does not do what
    one would expect of a validated graph. */
module Witnesses {
  import opened Names
  import opened Sequences
  import opened Graph
  import opened Fusion
  import opened Mil
  import opened Validator
  import opened Emitters
  import opened Compiler
  import opened Binding
  import opened Evaluation

  /** What the last call adds. */
  lemma BuiltLast(calls: seq<Call>, c: Call)
    ensures Built(calls + [c]) == After(Built(calls), c)
  {
    assert (calls + [c])[..|calls|] == calls;
  }

  /** For API-built graphs validation comes down to the per-node checks. */
  lemma PassesValidation(calls: seq<Call>)
    requires var g := Built(calls);
             g.inputs != [] && g.outputs != [] && forall i :: 0 <= i < |g.nodes| ==> Passes(g, g.nodes[i])
    ensures WellFormed(Built(calls)) && Validated(Built(calls))
  {
    BuiltIsWellFormed(calls);
    WellFormedPasses(Built(calls));
  }

  // ----- one op on one input -----

  function UnaryCalls(op: Op, x: Shape, out: Shape, ins: seq<TensorId>, weights: seq<byte>): seq<Call> {
    [AddInput("x", x), AddOp(op, ins, out, weights), MarkOutput(1, "")]
  }

  /** g has one input x, one node reading it and its output marked. */
  predicate IsUnary(g: Graph, op: Op, x: Shape, out: Shape, ins: seq<TensorId>, weights: seq<byte>) {
    && g.inputs == [0] && g.outputs == [1] && |g.tensors| == 2 && |g.nodes| == 1
    && g.tensors[0].shape == x && g.tensors[1].shape == out
    && g.nodes[0].op == op && g.nodes[0].inputs == ins && g.nodes[0].output == 1 && g.nodes[0].weights == weights
  }

  function InputGraph(x: Shape): Graph {
    Graph([Tensor(0, "x", x, None)], [], [0], [])
  }

  function OpGraph(op: Op, x: Shape, out: Shape, ins: seq<TensorId>, weights: seq<byte>): Graph {
    Graph([Tensor(0, "x", x, None), Tensor(1, TensorVar(1), out, Some(0))],
          [Node(0, op, ins, 1, weights, if weights == [] then "" else WeightFile(0))], [0], [])
  }

  lemma UnaryInput(x: Shape)
    requires x.Ok()
    ensures Built([AddInput("x", x)]) == InputGraph(x)
  {
    BuiltLast([], AddInput("x", x));
    assert [] + [AddInput("x", x)] == [AddInput("x", x)];
  }

  lemma UnaryOp(op: Op, x: Shape, out: Shape, ins: seq<TensorId>, weights: seq<byte>)
    requires out.Ok() && forall k :: 0 <= k < |ins| ==> ins[k] == 0
    ensures After(InputGraph(x), AddOp(op, ins, out, weights)) == OpGraph(op, x, out, ins, weights)
  {
  }

  lemma UnaryMark(op: Op, x: Shape, out: Shape, ins: seq<TensorId>, weights: seq<byte>)
    ensures IsUnary(After(OpGraph(op, x, out, ins, weights), MarkOutput(1, "")), op, x, out, ins, weights)
  {
  }

  lemma UnaryGraph(op: Op, x: Shape, out: Shape, ins: seq<TensorId>, weights: seq<byte>)
    requires x.Ok() && out.Ok() && forall k :: 0 <= k < |ins| ==> ins[k] == 0
    ensures IsUnary(Built(UnaryCalls(op, x, out, ins, weights)), op, x, out, ins, weights)
  {
    var a, b, c := AddInput("x", x), AddOp(op, ins, out, weights), MarkOutput(1, "");
    UnaryInput(x);
    UnaryOp(op, x, out, ins, weights);
    UnaryMark(op, x, out, ins, weights);
    BuiltLast([a], b);
    BuiltLast([a, b], c);
    assert [a] + [b] == [a, b] && [a, b] + [c] == UnaryCalls(op, x, out, ins, weights);
  }

  /** The graph validates and lowering its only node throws. */
  ghost predicate ValidButThrows(g: Graph) {
    WellFormed(g) && Validated(g) && |g.nodes| == 1 && NodeThrows(g, 0)
  }

  lemma UnaryThrows(calls: seq<Call>, op: Op, x: Shape, out: Shape, weights: seq<byte>)
    requires IsUnary(Built(calls), op, x, out, [0], weights)
    requires Passes(Built(calls), Built(calls).nodes[0]) && NodeThrows(Built(calls), 0)
    ensures ValidButThrows(Built(calls))
  {
    PassesValidation(calls);
  }

  /** A CAST passes validation and throws. */
  lemma CastThrows(x: Shape)
    requires x.Ok()
    ensures ValidButThrows(Built(UnaryCalls(Cast, x, x, [0], [])))
  {
    var calls := UnaryCalls(Cast, x, x, [0], []);
    UnaryGraph(Cast, x, x, [0], []);
    CastNode(Built(calls), x);
    UnaryThrows(calls, Cast, x, x, []);
  }

  lemma CastNode(g: Graph, x: Shape)
    requires IsUnary(g, Cast, x, x, [0], [])
    ensures Passes(g, g.nodes[0]) && NodeThrows(g, 0)
  {
  }

  /** So does a TRANSPOSE whose channel count is no multiple of 16, such as 8, or whose width exceeds 16384. */
  lemma TransposeThrows(x: Shape, out: Shape)
    requires x.Ok() && out.Ok() && (x.channels % 16 != 0 || x.width > 16384)
    ensures ValidButThrows(Built(UnaryCalls(Transpose, x, out, [0], [])))
  {
    var calls := UnaryCalls(Transpose, x, out, [0], []);
    UnaryGraph(Transpose, x, out, [0], []);
    TransposeNode(Built(calls), x, out);
    UnaryThrows(calls, Transpose, x, out, []);
  }

  lemma TransposeNode(g: Graph, x: Shape, out: Shape)
    requires IsUnary(g, Transpose, x, out, [0], []) && (x.channels % 16 != 0 || x.width > 16384)
    ensures Passes(g, g.nodes[0]) && NodeThrows(g, 0)
  {
  }

  /** So does a PIXEL_SHUFFLE by 2 that declares more than 8192 output channels. */
  lemma PixelShuffleThrows(x: Shape, out: Shape, weights: seq<byte>)
    requires x.Ok() && out.Ok() && x.channels % 2 == 0 && out.channels > 8192 && weights == [2, 0, 0, 0]
    ensures ValidButThrows(Built(UnaryCalls(PixelShuffle, x, out, [0], weights)))
  {
    var calls := UnaryCalls(PixelShuffle, x, out, [0], weights);
    UnaryGraph(PixelShuffle, x, out, [0], weights);
    PixelShuffleNode(Built(calls), x, out, weights);
    UnaryThrows(calls, PixelShuffle, x, out, weights);
  }

  lemma PixelShuffleNode(g: Graph, x: Shape, out: Shape, weights: seq<byte>)
    requires IsUnary(g, PixelShuffle, x, out, [0], weights)
    requires x.channels % 2 == 0 && out.channels > 8192 && weights == [2, 0, 0, 0]
    ensures Passes(g, g.nodes[0]) && NodeThrows(g, 0)
  {
    assert Int32(weights) == 2;
  }

  /** ADD(x, x) passes validation, and its group lists x twice. */
  lemma AddTwiceDuplicates(x: Shape)
    requires x.Ok()
    ensures var g := Built(UnaryCalls(Add, x, x, [0, 0], []));
            && WellFormed(g) && Validated(g)
            && |Cut(g, |g.nodes|)| == 1 && Cut(g, |g.nodes|)[0].inputs == [0, 0]
            && !NoDuplicates(Cut(g, |g.nodes|)[0].inputs)
  {
    var calls := UnaryCalls(Add, x, x, [0, 0], []);
    UnaryGraph(Add, x, x, [0, 0], []);
    AddNode(Built(calls), x);
    PassesValidation(calls);
    OneNodeCut(Built(calls), 1);
  }

  lemma AddNode(g: Graph, x: Shape)
    requires IsUnary(g, Add, x, x, [0, 0], [])
    ensures Passes(g, g.nodes[0])
  {
  }

  /** A graph of one node has one group. */
  lemma OneNodeCut(g: Graph, n: nat)
    requires |g.nodes| == n == 1
    ensures |Cut(g, n)| == 1 && Cut(g, n)[0] == Group([0], g.nodes[0].inputs, g.nodes[0].output)
    ensures |g.nodes[0].inputs| >= 2 && g.nodes[0].inputs[0] == g.nodes[0].inputs[1] ==>
              !NoDuplicates(Cut(g, n)[0].inputs)
  {
    var k := n - 1;
    CutOpens(g, k);
  }

  // ----- an input as output -----

  /** A graph input marked as output passes validation; no node produces it, so execution fails. */
  lemma InputAsOutput(x: Shape)
    requires x.Ok()
    ensures var g := Built([AddInput("x", x), MarkOutput(0, "")]);
            WellFormed(g) && Validated(g) && g.outputs == [0] && |g.tensors| == 1 && g.tensors[0].producer.None?
  {
    var a, c := AddInput("x", x), MarkOutput(0, "");
    BuiltLast([], a);
    BuiltLast([a], c);
    assert [] + [a] == [a] && [a] + [c] == [a, c];
    PassesValidation([a, c]);
  }

  // ----- one op on two inputs -----

  function BinaryCalls(op: Op, x: Shape, y: Shape, out: Shape, ins: seq<TensorId>): seq<Call> {
    [AddInput("x", x), AddInput("y", y), AddOp(op, ins, out, []), MarkOutput(2, "")]
  }

  /** g has two inputs, one node reading them and its output marked. */
  predicate IsBinary(g: Graph, op: Op, x: Shape, y: Shape, out: Shape, ins: seq<TensorId>) {
    && g.inputs == [0, 1] && g.outputs == [2] && |g.tensors| == 3 && |g.nodes| == 1
    && g.tensors[0].shape == x && g.tensors[1].shape == y && g.tensors[2].shape == out
    && g.nodes[0].op == op && g.nodes[0].inputs == ins && g.nodes[0].output == 2 && g.nodes[0].weights == []
  }

  function TwoInputGraph(x: Shape, y: Shape): Graph {
    Graph([Tensor(0, "x", x, None), Tensor(1, "y", y, None)], [], [0, 1], [])
  }

  function TwoInputOp(op: Op, x: Shape, y: Shape, out: Shape, ins: seq<TensorId>): Graph {
    Graph([Tensor(0, "x", x, None), Tensor(1, "y", y, None), Tensor(2, TensorVar(2), out, Some(0))],
          [Node(0, op, ins, 2, [], "")], [0, 1], [])
  }

  lemma BinaryInput(x: Shape, y: Shape)
    requires y.Ok()
    ensures After(InputGraph(x), AddInput("y", y)) == TwoInputGraph(x, y)
  {
  }

  lemma BinaryOp(op: Op, x: Shape, y: Shape, out: Shape, ins: seq<TensorId>)
    requires out.Ok() && forall k :: 0 <= k < |ins| ==> ins[k] < 2
    ensures After(TwoInputGraph(x, y), AddOp(op, ins, out, [])) == TwoInputOp(op, x, y, out, ins)
  {
  }

  lemma BinaryMark(op: Op, x: Shape, y: Shape, out: Shape, ins: seq<TensorId>)
    ensures IsBinary(After(TwoInputOp(op, x, y, out, ins), MarkOutput(2, "")), op, x, y, out, ins)
  {
  }

  lemma BinaryGraph(op: Op, x: Shape, y: Shape, out: Shape, ins: seq<TensorId>)
    requires x.Ok() && y.Ok() && out.Ok() && forall k :: 0 <= k < |ins| ==> ins[k] < 2
    ensures IsBinary(Built(BinaryCalls(op, x, y, out, ins)), op, x, y, out, ins)
  {
    var a, b, c, d := AddInput("x", x), AddInput("y", y), AddOp(op, ins, out, []), MarkOutput(2, "");
    UnaryInput(x);
    BinaryInput(x, y);
    BinaryOp(op, x, y, out, ins);
    BinaryMark(op, x, y, out, ins);
    BuiltLast([a], b);
    BuiltLast([a, b], c);
    BuiltLast([a, b, c], d);
    assert [a] + [b] == [a, b] && [a, b] + [c] == [a, b, c];
    assert [a, b, c] + [d] == BinaryCalls(op, x, y, out, ins);
  }

  /** A CONCAT passes validation and throws when twice the first input's channels and the second's exceed
      16384 together, as with 8192 and 4096: the emitter adds the output's channels, not the second input's,
      to the first's. */
  lemma ConcatThrows(x: Shape, y: Shape, out: Shape)
    requires x.Ok() && y.Ok() && out.Ok() && x.width == y.width == out.width
    requires out.channels == x.channels + y.channels && x.channels + out.channels > 16384
    ensures ValidButThrows(Built(BinaryCalls(Concat, x, y, out, [0, 1])))
  {
    var calls := BinaryCalls(Concat, x, y, out, [0, 1]);
    BinaryGraph(Concat, x, y, out, [0, 1]);
    ConcatNode(Built(calls), x, y, out);
    PassesValidation(calls);
  }

  lemma ConcatNode(g: Graph, x: Shape, y: Shape, out: Shape)
    requires IsBinary(g, Concat, x, y, out, [0, 1]) && x.width == y.width == out.width
    requires out.channels == x.channels + y.channels && x.channels + out.channels > 16384
    ensures Passes(g, g.nodes[0]) && NodeThrows(g, 0)
  {
  }
}
