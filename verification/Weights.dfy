/** What a node's weight files hold: the weights in the layout that the emitted code declares. */
module Weights {
  import opened Arith
  import opened Names
  import opened Sequences
  import opened Graph
  import opened Fusion
  import opened Mil
  import opened Validator
  import Layout

  // ----- contents -----

  /** A half-precision number, as its two bytes. */
  type Cell = (byte, byte)

  /** The whole cells of a buffer. */
  function Cells(b: seq<byte>): (s: seq<Cell>)
    ensures |s| == |b| / 2 && forall k :: 0 <= k < |s| ==> s[k] == (b[2 * k], b[2 * k + 1])
  {
    seq(|b| / 2, k requires 0 <= k < |b| / 2 => (b[2 * k], b[2 * k + 1]))
  }

  function Flat(s: seq<Cell>): (b: seq<byte>)
    ensures |b| == 2 * |s| && forall k :: 0 <= k < |s| ==> s[k] == (b[2 * k], b[2 * k + 1])
  {
    seq(2 * |s|, p requires 0 <= p < 2 * |s| => if p % 2 == 0 then s[p / 2].0 else s[p / 2].1)
  }

  /** The data of a weight file; None where making it would read past the weights. */
  function Contents(blob: Blob): Option<seq<byte>> {
    match blob
    case Raw(bytes) => Some(bytes)
    case Transposed(bytes, rows, cols) =>
      if 0 <= rows && 0 <= cols && |Cells(bytes)| == rows * cols
      then Some(Flat(Layout.Transposed(Cells(bytes), rows, cols))) else None
  }

  /** Cell p of the file data is cell q of the weights. */
  predicate SameCell(data: seq<byte>, p: nat, weights: seq<byte>, q: nat) {
    2 * p + 1 < |data| && 2 * q + 1 < |weights|
    && data[2 * p] == weights[2 * q] && data[2 * p + 1] == weights[2 * q + 1]
  }

  /** The data are the weights [rows][cols] with rows and columns exchanged. */
  ghost predicate HoldsTransposed(d: seq<byte>, w: seq<byte>, rows: nat, cols: nat) {
    && |d| == |w| == 2 * (rows * cols)
    && Cells(d) == Layout.Transposed(Cells(w), rows, cols)
    && forall r: nat, c: nat :: r < rows && c < cols ==> SameCell(d, c * rows + r, w, r * cols + c)
  }

  lemma TransposedContents(w: seq<byte>, rows: nat, cols: nat)
    requires |w| == 2 * (rows * cols)
    ensures Contents(Transposed(w, rows, cols)).Some?
    ensures HoldsTransposed(Contents(Transposed(w, rows, cols)).value, w, rows, cols)
  {
    var cells := Layout.Transposed(Cells(w), rows, cols);
    var d := Flat(cells);
    assert cols * rows == rows * cols;
    assert Cells(d) == cells;
    forall r: nat, c: nat | r < rows && c < cols ensures SameCell(d, c * rows + r, w, r * cols + c) {
      Layout.TransposedAt(Cells(w), rows, cols, r, c);
      IndexBound(r, rows, c, cols);
      IndexBound(c, cols, r, rows);
      CellAt(d, cells, c * rows + r, w, r * cols + c);
    }
  }

  lemma CellAt(d: seq<byte>, cells: seq<Cell>, p: nat, w: seq<byte>, q: nat)
    requires p < |cells| && d == Flat(cells) && q < |Cells(w)| && cells[p] == Cells(w)[q]
    ensures SameCell(d, p, w, q)
  {
  }

  /** The loops that make a transposed file. */
  method TransposedFile(w: seq<byte>, rows: nat, cols: nat) returns (d: seq<byte>)
    requires |w| == 2 * (rows * cols)
    ensures Contents(Transposed(w, rows, cols)) == Some(d)
  {
    var cells := Cells(w);
    var dst := new Cell[cols * rows](_ => (0, 0));
    var same := (x: Cell) => x;
    Layout.ConvertedBySame(cells, same);
    ghost var log := Layout.TransposeInto(cells, dst, rows, cols, same);
    d := Flat(dst[..]);
  }

  // ----- the files of a program -----

  /** The data supplied under a name with the program of the run lo, .., hi - 1. */
  function Supplied(g: Graph, lo: nat, hi: nat, name: string): Option<seq<byte>>
    requires lo <= hi <= |g.nodes|
  {
    var files := FileMap(Entries(g, Span(lo, hi)));
    if name in files then Contents(files[name]) else None
  }

  /** Each node's blobs are supplied under its own names. */
  lemma SuppliedIs(g: Graph, lo: nat, hi: nat, i: nat, k: nat)
    requires WellFormed(g) && lo <= i < hi <= |g.nodes| && k < |Blobs(g, g.nodes[i])|
    ensures Supplied(g, lo, hi, FileName(g.nodes[i], k)) == Contents(Blobs(g, g.nodes[i])[k])
  {
    RunFiles(g, lo, hi, i);
  }

  lemma OwnName(g: Graph, i: nat)
    requires WellFormed(g) && i < |g.nodes| && g.nodes[i].weights != []
    ensures g.nodes[i].weightFile == WeightFile(i) != ""
    ensures FileName(g.nodes[i], 0) == WeightFile(i) && FileName(g.nodes[i], 1) == BetaFile(WeightFile(i))
  {
    assert NodeOk(g, i);
    assert WeightFile(i)[0] == 'w';
  }

  lemma MatmulBlob(g: Graph, i: nat)
    requires WellFormed(g) && i < |g.nodes| && g.nodes[i].op.Matmul? && Passes(g, g.nodes[i])
    ensures var n := g.nodes[i];
            var ic, oc := g.tensors[n.inputs[0]].shape.channels, g.tensors[n.output].shape.channels;
            ic > 0 && oc > 0 && |n.weights| == 2 * (ic * oc) && Blobs(g, n) == [Transposed(n.weights, ic, oc)]
  {
    ValidatedNodes(g, i);
    OwnName(g, i);
    var n := g.nodes[i];
    assert TensorOk(g, n.inputs[0]) && TensorOk(g, n.output);
    var ic, oc := g.tensors[n.inputs[0]].shape.channels, g.tensors[n.output].shape.channels;
    assert ic * oc * 2 == 2 * (ic * oc);
  }

  /** The one file of a validated MATMUL from IC to OC channels, in every program that contains the node,
      holds its weights [IC][OC] transposed: cell c * IC + r of the file is weight cell r * OC + c. */
  lemma MatmulFile(g: Graph, lo: nat, hi: nat, i: nat)
    requires WellFormed(g) && lo <= i < hi <= |g.nodes| && g.nodes[i].op.Matmul? && Passes(g, g.nodes[i])
    ensures |Blobs(g, g.nodes[i])| == 1 && Supplied(g, lo, hi, WeightFile(i)).Some?
    ensures var n, d := g.nodes[i], Supplied(g, lo, hi, WeightFile(i)).value;
            var ic, oc := g.tensors[n.inputs[0]].shape.channels, g.tensors[n.output].shape.channels;
            ic > 0 && oc > 0 && HoldsTransposed(d, n.weights, ic, oc)
  {
    MatmulBlob(g, i);
    OwnName(g, i);
    SuppliedIs(g, lo, hi, i, 0);
    var n := g.nodes[i];
    TransposedContents(n.weights, g.tensors[n.inputs[0]].shape.channels, g.tensors[n.output].shape.channels);
  }

  /** So the 1x1 convolution of channel-major activations with that file is the product of the activations
      a [M][IC] with the weights. */
  lemma MatmulFileConvolves(g: Graph, lo: nat, hi: nat, i: nat, decode: Cell -> real, a: seq<real>, M: nat)
    requires WellFormed(g) && lo <= i < hi <= |g.nodes| && g.nodes[i].op.Matmul? && Passes(g, g.nodes[i])
    requires |a| == M * g.tensors[g.nodes[i].inputs[0]].shape.channels
    ensures Supplied(g, lo, hi, WeightFile(i)).Some?
    ensures var n, d := g.nodes[i], Supplied(g, lo, hi, WeightFile(i)).value;
            var ic, oc := g.tensors[n.inputs[0]].shape.channels, g.tensors[n.output].shape.channels;
            var w, b := Layout.Converted(Cells(d), decode), Layout.Converted(Cells(n.weights), decode);
            && ic > 0 && oc > 0 && |w| == oc * ic && |b| == ic * oc
            && Layout.Transposed(Layout.Conv1x1(Layout.Transposed(a, M, ic), w, ic, oc, M), oc, M)
               == Layout.MatMul(a, b, M, ic, oc)
  {
    MatmulFile(g, lo, hi, i);
    var n := g.nodes[i];
    var ic, oc := g.tensors[n.inputs[0]].shape.channels, g.tensors[n.output].shape.channels;
    ConvertTransposed(Cells(n.weights), ic, oc, decode);
    Layout.MatmulAsConv(a, Layout.Converted(Cells(n.weights), decode), M, ic, oc);
  }

  lemma ConvertTransposed(s: seq<Cell>, rows: nat, cols: nat, decode: Cell -> real)
    requires |s| == rows * cols
    ensures Layout.Converted(Layout.Transposed(s, rows, cols), decode)
         == Layout.Transposed(Layout.Converted(s, decode), rows, cols)
  {
    var t, u := Layout.Converted(Layout.Transposed(s, rows, cols), decode), Layout.Converted(s, decode);
    forall c: nat, r: nat | c < cols && r < rows
      ensures Layout.At(t, cols, rows, c, r) == Layout.At(Layout.Transposed(u, rows, cols), cols, rows, c, r)
    {
      Layout.TransposedAt(s, rows, cols, r, c);
      Layout.TransposedAt(u, rows, cols, r, c);
      IndexBound(r, rows, c, cols);
      IndexBound(c, cols, r, rows);
    }
    Layout.SameCells(t, Layout.Transposed(u, rows, cols), cols, rows);
  }

  /** Every other op but the layer norms supplies its weights unchanged, in one file, if it has any. */
  lemma OtherFile(g: Graph, lo: nat, hi: nat, i: nat)
    requires WellFormed(g) && lo <= i < hi <= |g.nodes|
    requires var op := g.nodes[i].op; !op.Matmul? && !op.LayerNorm? && !op.Layernorm?
    ensures |Blobs(g, g.nodes[i])| == if g.nodes[i].weights == [] then 0 else 1
    ensures g.nodes[i].weights != [] ==> Supplied(g, lo, hi, WeightFile(i)) == Some(g.nodes[i].weights)
  {
    if g.nodes[i].weights != [] {
      OwnName(g, i);
      SuppliedIs(g, lo, hi, i, 0);
    }
  }

  lemma NormLength(g: Graph, i: nat)
    requires WellFormed(g) && i < |g.nodes| && Passes(g, g.nodes[i])
    requires g.nodes[i].op.LayerNorm? || g.nodes[i].op.Layernorm?
    ensures var w, c := g.nodes[i].weights, g.tensors[g.nodes[i].output].shape.channels; c > 0 && |w| == 4 * c
  {
    assert TensorOk(g, g.nodes[i].output);
  }

  lemma NormBlobs(g: Graph, i: nat)
    requires WellFormed(g) && i < |g.nodes| && Passes(g, g.nodes[i])
    requires g.nodes[i].op.LayerNorm? || g.nodes[i].op.Layernorm?
    ensures var w, c := g.nodes[i].weights, g.tensors[g.nodes[i].output].shape.channels;
            && c > 0 && |w| == 4 * c && Blobs(g, g.nodes[i]) == [Raw(w[..2 * c]), Raw(w[2 * c..])]
  {
    NormLength(g, i);
    OwnName(g, i);
    SplitBlobs(g, g.nodes[i], g.tensors[g.nodes[i].output].shape.channels);
  }

  lemma SplitBlobs(g: Graph, n: Node, c: int)
    requires (n.op.LayerNorm? || n.op.Layernorm?) && n.weightFile != "" && c > 0 && |n.weights| == 4 * c
    ensures Blobs(g, n) == [Raw(n.weights[..2 * c]), Raw(n.weights[2 * c..])]
  {
    TwoHalves(n.weights, c);
  }

  lemma TwoHalves(w: seq<byte>, c: nat)
    requires |w| == 4 * c
    ensures |w| / 2 == 2 * c && w[2 * c..2 * c + 2 * c] == w[2 * c..]
  {
  }

  /** A layer norm supplies the first half as gamma and the second as beta. */
  lemma NormFiles(g: Graph, lo: nat, hi: nat, i: nat)
    requires WellFormed(g) && lo <= i < hi <= |g.nodes| && Passes(g, g.nodes[i])
    requires g.nodes[i].op.LayerNorm? || g.nodes[i].op.Layernorm?
    ensures var w, c := g.nodes[i].weights, g.tensors[g.nodes[i].output].shape.channels;
            && c > 0 && |w| == 4 * c && |Blobs(g, g.nodes[i])| == 2
            && Supplied(g, lo, hi, WeightFile(i)) == Some(w[..2 * c])
            && Supplied(g, lo, hi, BetaFile(WeightFile(i))) == Some(w[2 * c..])
  {
    NormBlobs(g, i);
    OwnName(g, i);
    SuppliedIs(g, lo, hi, i, 0);
    SuppliedIs(g, lo, hi, i, 1);
  }

  // ----- files and declarations -----

  predicate IsMask(n: Node) {
    n.op.Scatter? || n.op.ScatterNd? || n.op.ScatterAlongAxis? || (n.op.Gather? && |n.inputs| == 1)
  }

  /** The bytes of the weight constants that the emitted code declares, first file first: kernels
      [OC, IC, 1, 1], norm scales [1, C, 1, 1] with the channels of the input, masks like the output. */
  function Declared(g: Graph, n: Node): seq<int>
    requires IdsKnown(g, n) && n.inputs != []
  {
    var x, out := g.tensors[n.inputs[0]].shape, g.tensors[n.output].shape;
    if n.op.Matmul? then [2 * (out.channels * x.channels)]
    else if n.op.RmsNorm? then [2 * x.channels]
    else if n.op.LayerNorm? || n.op.Layernorm? then [2 * x.channels, 2 * x.channels]
    else if IsMask(n) then [2 * (out.channels * out.width)]
    else []
  }

  /** Every declared constant finds a file of exactly its size. */
  predicate FilesFill(g: Graph, n: Node)
    requires IdsKnown(g, n) && n.inputs != []
  {
    && |Declared(g, n)| <= |Blobs(g, n)|
    && forall k :: 0 <= k < |Declared(g, n)| ==>
         Contents(Blobs(g, n)[k]).Some? && |Contents(Blobs(g, n)[k]).value| == Declared(g, n)[k]
  }

  predicate IsNorm(op: Op) {
    op.RmsNorm? || op.LayerNorm? || op.Layernorm?
  }

  /** The files of a validated node have the declared sizes exactly when it is no norm that changes the
      number of channels: validation measures the scales of a norm by its output, the emitter by its input. */
  lemma FilesFillIff(g: Graph, i: nat)
    requires WellFormed(g) && i < |g.nodes| && Passes(g, g.nodes[i])
    ensures g.nodes[i].inputs != []
    ensures var n := g.nodes[i];
            FilesFill(g, n) <==>
              (IsNorm(n.op) ==> g.tensors[n.inputs[0]].shape.channels == g.tensors[n.output].shape.channels)
  {
    ValidatedNodes(g, i);
    var n := g.nodes[i];
    assert TensorOk(g, n.output);
    if n.op.Matmul? {
      MatmulFill(g, i);
    } else if n.op.LayerNorm? || n.op.Layernorm? {
      NormFill(g, i);
    } else {
      OtherFile(g, i, i + 1, i);
      if IsMask(n) { MaskFill(g, i); }
    }
  }

  lemma MatmulFill(g: Graph, i: nat)
    requires WellFormed(g) && i < |g.nodes| && g.nodes[i].op.Matmul? && Passes(g, g.nodes[i])
    ensures FilesFill(g, g.nodes[i])
  {
    MatmulBlob(g, i);
    var n := g.nodes[i];
    var ic, oc := g.tensors[n.inputs[0]].shape.channels, g.tensors[n.output].shape.channels;
    TransposedContents(n.weights, ic, oc);
    assert ic * oc == oc * ic;
  }

  lemma NormFill(g: Graph, i: nat)
    requires WellFormed(g) && i < |g.nodes| && Passes(g, g.nodes[i]) && g.nodes[i].inputs != []
    requires g.nodes[i].op.LayerNorm? || g.nodes[i].op.Layernorm?
    ensures var n := g.nodes[i];
            FilesFill(g, n) <==> g.tensors[n.inputs[0]].shape.channels == g.tensors[n.output].shape.channels
  {
    NormBlobs(g, i);
    var n := g.nodes[i];
    assert |Contents(Blobs(g, n)[0]).value| == 2 * g.tensors[n.output].shape.channels;
    assert Declared(g, n)[0] == 2 * g.tensors[n.inputs[0]].shape.channels;
  }

  lemma MaskFill(g: Graph, i: nat)
    requires WellFormed(g) && i < |g.nodes| && Passes(g, g.nodes[i]) && g.nodes[i].inputs != [] && IsMask(g.nodes[i])
    ensures FilesFill(g, g.nodes[i])
  {
    ValidatedNodes(g, i);
    OwnName(g, i);
    var n := g.nodes[i];
    var out := g.tensors[n.output].shape;
    assert TensorOk(g, n.output);
    assert Blobs(g, n) == [Raw(n.weights)];
    assert out.Bytes() == 2 * (out.channels * out.width);
  }
}
