/** Row-major layouts, matrix products as 1x1 convolutions, and the column-slice dispatch. */
module Layout {
  import opened Arith

  // ----- two-dimensional views of flat buffers -----

  function At<T>(s: seq<T>, rows: nat, cols: nat, r: nat, c: nat): T
    requires |s| == rows * cols && r < rows && c < cols
  {
    IndexBound(r, rows, c, cols);
    s[r * cols + c]
  }

  /** The flat buffer whose cell (r, c) is f(r, c). */
  function Build<T>(rows: nat, cols: nat, f: (nat, nat) --> T): (s: seq<T>)
    requires forall r: nat, c: nat :: r < rows && c < cols ==> f.requires(r, c)
    ensures |s| == rows * cols
    ensures forall r: nat, c: nat :: r < rows && c < cols ==> At(s, rows, cols, r, c) == f(r, c)
  {
    var s := seq(rows * cols, p requires 0 <= p < rows * cols => (IndexSplit(p, rows, cols); f(p / cols, p % cols)));
    assert forall r: nat, c: nat :: r < rows && c < cols ==> At(s, rows, cols, r, c) == f(r, c) by {
      forall r: nat, c: nat | r < rows && c < cols ensures At(s, rows, cols, r, c) == f(r, c) {
        IndexBound(r, rows, c, cols);
        DivModUnique(r * cols + c, cols, r, c);
      }
    }
    s
  }

  /** A buffer is determined by its cells. */
  lemma SameCells<T>(s: seq<T>, t: seq<T>, rows: nat, cols: nat)
    requires |s| == |t| == rows * cols
    requires forall r: nat, c: nat :: r < rows && c < cols ==> At(s, rows, cols, r, c) == At(t, rows, cols, r, c)
    ensures s == t
  {
    forall p | 0 <= p < |s| ensures s[p] == t[p] {
      IndexSplit(p, rows, cols);
      var r, c := p / cols, p % cols;
      assert At(s, rows, cols, r, c) == At(t, rows, cols, r, c);
    }
  }

  // ----- transposition -----

  /** The cols by rows buffer with rows and columns exchanged. */
  function Transposed<T>(s: seq<T>, rows: nat, cols: nat): (t: seq<T>)
    requires |s| == rows * cols
    ensures |t| == cols * rows
  {
    Build(cols, rows, (c: nat, r: nat) requires c < cols && r < rows => At(s, rows, cols, r, c))
  }

  lemma TransposedAt<T>(s: seq<T>, rows: nat, cols: nat, r: nat, c: nat)
    requires |s| == rows * cols && r < rows && c < cols
    ensures At(Transposed(s, rows, cols), cols, rows, c, r) == At(s, rows, cols, r, c)
  {
  }

  lemma TransposeInvolutive<T>(s: seq<T>, rows: nat, cols: nat)
    requires |s| == rows * cols
    ensures Transposed(Transposed(s, rows, cols), cols, rows) == s
  {
    SameCells(Transposed(Transposed(s, rows, cols), cols, rows), s, rows, cols);
  }

  /** The cell written by step k of the transposing loops. */
  function Target(k: nat, rows: nat, cols: nat): nat
    requires cols > 0
  {
    (k % cols) * rows + k / cols
  }

  lemma TargetBound(k: nat, rows: nat, cols: nat)
    requires k < rows * cols
    ensures cols > 0 && rows > 0 && Target(k, rows, cols) < rows * cols
    ensures Target(k, rows, cols) / rows == k % cols && Target(k, rows, cols) % rows == k / cols
  {
    IndexSplit(k, rows, cols);
    IndexBound(k % cols, cols, k / cols, rows);
    DivModUnique(Target(k, rows, cols), rows, k % cols, k / cols);
  }

  /** The loops write every cell, and no cell twice. */
  lemma EachCellOnce(rows: nat, cols: nat, p: nat)
    requires p < rows * cols
    ensures cols > 0
    ensures exists k: nat :: k < rows * cols && Target(k, rows, cols) == p
    ensures forall k: nat, k': nat :: k < rows * cols && k' < rows * cols ==>
              Target(k, rows, cols) == p ==> Target(k', rows, cols) == p ==> k == k'
  {
    assert cols * rows == rows * cols;
    TargetBound(p, cols, rows);
    var k := Target(p, cols, rows);
    IndexSplit(p, cols, rows);
    assert Target(k, rows, cols) == p;
    forall k: nat, k': nat
      | k < rows * cols && k' < rows * cols && Target(k, rows, cols) == p && Target(k', rows, cols) == p
      ensures k == k'
    {
      TargetBound(k, rows, cols);
      TargetBound(k', rows, cols);
      IndexSplit(k, rows, cols);
      IndexSplit(k', rows, cols);
    }
  }

  /** Cells done when the loops stand before (r, c): earlier rows, and the start of row r. */
  ghost predicate Done(r': nat, c': nat, r: nat, c: nat) {
    r' < r || (r' == r && c' < c)
  }

  function Converted<S, T>(src: seq<S>, convert: S -> T): (t: seq<T>)
    ensures |t| == |src| && forall i :: 0 <= i < |t| ==> t[i] == convert(src[i])
  {
    seq(|src|, i requires 0 <= i < |src| => convert(src[i]))
  }

  lemma ConvertedBySame<T>(s: seq<T>, same: T -> T)
    requires forall x :: same(x) == x
    ensures Converted(s, same) == s
  {
  }

  /** Writes src, rows by cols, transposed into dst; every element passes through a conversion.
      The log records the order of the writes. */
  method TransposeInto<S, T>(src: seq<S>, dst: array<T>, rows: nat, cols: nat, convert: S -> T)
    returns (ghost log: seq<nat>)
    requires |src| == rows * cols && dst.Length == cols * rows
    modifies dst
    ensures dst[..] == Transposed(Converted(src, convert), rows, cols)
    ensures |log| == rows * cols && forall k :: 0 <= k < |log| ==> cols > 0 && log[k] == Target(k, rows, cols)
  {
    ghost var conv := Converted(src, convert);
    log := [];
    for r := 0 to rows
      invariant |log| == r * cols
      invariant forall k :: 0 <= k < |log| ==> cols > 0 && log[k] == Target(k, rows, cols)
      invariant forall r': nat, c': nat :: r' < r && c' < cols ==>
                  At(dst[..], cols, rows, c', r') == At(conv, rows, cols, r', c')
    {
      for c := 0 to cols
        invariant |log| == r * cols + c
        invariant forall k :: 0 <= k < |log| ==> cols > 0 && log[k] == Target(k, rows, cols)
        invariant forall r': nat, c': nat :: r' < rows && c' < cols && Done(r', c', r, c) ==>
                    At(dst[..], cols, rows, c', r') == At(conv, rows, cols, r', c')
      {
        IndexBound(c, cols, r, rows);
        IndexBound(r, rows, c, cols);
        ghost var before := dst[..];
        dst[c * rows + r] := convert(src[r * cols + c]);
        forall r': nat, c': nat | r' < rows && c' < cols && Done(r', c', r, c + 1)
          ensures At(dst[..], cols, rows, c', r') == At(conv, rows, cols, r', c')
        {
          CellWritten(before, dst[..], conv, rows, cols, r, c, r', c');
        }
        DivModUnique(r * cols + c, cols, r, c);
        log := log + [c * rows + r];
      }
      assert r * cols + cols == (r + 1) * cols;
    }
    SameCells(dst[..], Transposed(conv, rows, cols), cols, rows);
  }

  lemma CellWritten<T>(before: seq<T>, after: seq<T>, conv: seq<T>, rows: nat, cols: nat, r: nat, c: nat, r': nat,
                       c': nat)
    requires r < rows && c < cols && r' < rows && c' < cols && Done(r', c', r, c + 1)
    requires |before| == cols * rows && |conv| == rows * cols && c * rows + r < |before|
    requires after == before[c * rows + r := At(conv, rows, cols, r, c)]
    requires Done(r', c', r, c) ==> At(before, cols, rows, c', r') == At(conv, rows, cols, r', c')
    ensures At(after, cols, rows, c', r') == At(conv, rows, cols, r', c')
  {
    IndexBound(c', cols, r', rows);
    if c' * rows + r' == c * rows + r { RemainderUnique(rows, c', r', c, r); }
  }

  /** The log of a loop that writes the cells 0, .., n - 1 once each, in order. */
  ghost predicate Counting(log: seq<nat>, n: nat) {
    |log| == n && forall k :: 0 <= k < n ==> log[k] == k
  }

  /** Unpacks the [n][m] buffer y into row-major [m][n] order, writing the target front to back. */
  method UnpackInto<T>(y: seq<T>, dst: array<T>, m: nat, n: nat) returns (ghost log: seq<nat>)
    requires |y| == n * m && dst.Length == m * n
    modifies dst
    ensures dst[..] == Transposed(y, n, m)
    ensures |log| == m * n && forall k :: 0 <= k < |log| ==> log[k] == k
  {
    var base := 0;
    log := [];
    for i := 0 to m
      invariant base == i * n && Counting(log, base)
      invariant forall q :: 0 <= q < base && q < dst.Length ==> dst[q] == Transposed(y, n, m)[q]
    {
      log := UnpackRow(y, dst, m, n, i, base, log);
      base := base + n;
    }
  }

  method UnpackRow<T>(y: seq<T>, dst: array<T>, m: nat, n: nat, i: nat, base: nat, ghost log0: seq<nat>)
    returns (ghost log: seq<nat>)
    requires |y| == n * m && dst.Length == m * n && i < m && base == i * n && Counting(log0, base)
    requires forall q :: 0 <= q < base && q < dst.Length ==> dst[q] == Transposed(y, n, m)[q]
    modifies dst
    ensures forall q :: 0 <= q < base + n && q < dst.Length ==> dst[q] == Transposed(y, n, m)[q]
    ensures Counting(log, base + n)
  {
    log := log0;
    for j := 0 to n
      invariant forall q :: 0 <= q < base + j && q < dst.Length ==> dst[q] == Transposed(y, n, m)[q]
      invariant Counting(log, base + j)
    {
      log := UnpackCell(y, dst, m, n, i, j, base, base + j, log);
    }
  }

  method UnpackCell<T>(y: seq<T>, dst: array<T>, m: nat, n: nat, i: nat, j: nat, ghost base: nat, p: nat,
                       ghost log0: seq<nat>)
    returns (ghost log: seq<nat>)
    requires |y| == n * m && dst.Length == m * n && i < m && j < n && base == i * n && p == base + j
    requires Counting(log0, p) && forall q :: 0 <= q < p && q < dst.Length ==> dst[q] == Transposed(y, n, m)[q]
    modifies dst
    ensures forall q :: 0 <= q < p + 1 && q < dst.Length ==> dst[q] == Transposed(y, n, m)[q]
    ensures Counting(log, p + 1)
  {
    UnpackedCell(y, m, n, i, j, base);
    dst[p] := y[j * m + i];
    CountingMore(log0, p);
    log := log0 + [p];
  }

  lemma CountingMore(log: seq<nat>, n: nat)
    requires Counting(log, n)
    ensures Counting(log + [n], n + 1)
  {
  }

  lemma UnpackedCell<T>(y: seq<T>, m: nat, n: nat, i: nat, j: nat, base: nat)
    requires |y| == n * m && i < m && j < n && base == i * n
    ensures base + j < m * n && j * m + i < |y| && Transposed(y, n, m)[base + j] == y[j * m + i]
  {
    IndexBound(j, n, i, m);
    IndexBound(i, m, j, n);
    TransposedAt(y, n, m, j, i);
  }

  lemma RowFits(i: nat, m: nat, n: nat)
    requires i < m
    ensures i * n + n <= m * n
  {
    assert (m - i - 1) * n >= 0;
    assert m * n == i * n + n + (m - i - 1) * n;
  }

  // ----- matrix product as a 1x1 convolution -----

  function Product(x: real, y: real): real {
    x * y
  }

  /** The first k terms of output channel n at position m: weights w [N][K], input x [K][M]. */
  function ConvSum(x: seq<real>, w: seq<real>, K: nat, N: nat, M: nat, n: nat, m: nat, k: nat): real
    requires |x| == K * M && |w| == N * K && n < N && m < M && k <= K
  {
    if k == 0 then 0.0
    else ConvSum(x, w, K, N, M, n, m, k - 1) + Product(At(x, K, M, k - 1, m), At(w, N, K, n, k - 1))
  }

  /** The 1x1 convolution: output channel by position. */
  function Conv1x1(x: seq<real>, w: seq<real>, K: nat, N: nat, M: nat): (y: seq<real>)
    requires |x| == K * M && |w| == N * K
    ensures |y| == N * M
  {
    Build(N, M, (n: nat, m: nat) requires n < N && m < M => ConvSum(x, w, K, N, M, n, m, K))
  }

  function DotSum(a: seq<real>, b: seq<real>, M: nat, K: nat, N: nat, m: nat, n: nat, k: nat): real
    requires |a| == M * K && |b| == K * N && m < M && n < N && k <= K
  {
    if k == 0 then 0.0
    else DotSum(a, b, M, K, N, m, n, k - 1) + Product(At(a, M, K, m, k - 1), At(b, K, N, k - 1, n))
  }

  /** The row-major product of a [M][K] and b [K][N]. */
  function MatMul(a: seq<real>, b: seq<real>, M: nat, K: nat, N: nat): (c: seq<real>)
    requires |a| == M * K && |b| == K * N
    ensures |c| == M * N
  {
    Build(M, N, (m: nat, n: nat) requires m < M && n < N => DotSum(a, b, M, K, N, m, n, K))
  }

  /** t is s with rows and columns exchanged. */
  ghost predicate TransposeOf<T>(t: seq<T>, s: seq<T>, rows: nat, cols: nat) {
    && |s| == rows * cols && |t| == cols * rows
    && forall r: nat, c: nat :: r < rows && c < cols ==> At(t, cols, rows, c, r) == At(s, rows, cols, r, c)
  }

  lemma {:induction false} ConvIsDot(a: seq<real>, b: seq<real>, x: seq<real>, w: seq<real>, M: nat, K: nat, N: nat,
                                     m: nat, n: nat, k: nat)
    requires TransposeOf(x, a, M, K) && TransposeOf(w, b, K, N) && m < M && n < N && k <= K
    ensures ConvSum(x, w, K, N, M, n, m, k) == DotSum(a, b, M, K, N, m, n, k)
    decreases k
  {
    if k > 0 {
      ConvIsDot(a, b, x, w, M, K, N, m, n, k - 1);
      assert At(x, K, M, k - 1, m) == At(a, M, K, m, k - 1);
      assert At(w, N, K, n, k - 1) == At(b, K, N, k - 1, n);
    }
  }

  /** Pack, convolve with the transposed weights and unpack: the matrix product. */
  lemma MatmulAsConv(a: seq<real>, b: seq<real>, M: nat, K: nat, N: nat)
    requires |a| == M * K && |b| == K * N
    ensures Transposed(Conv1x1(Transposed(a, M, K), Transposed(b, K, N), K, N, M), N, M) == MatMul(a, b, M, K, N)
  {
    var x, w := Transposed(a, M, K), Transposed(b, K, N);
    var y := Conv1x1(x, w, K, N, M);
    forall m: nat, n: nat | m < M && n < N
      ensures At(Transposed(y, N, M), M, N, m, n) == At(MatMul(a, b, M, K, N), M, N, m, n)
    {
      TransposedAt(y, N, M, n, m);
      ConvIsDot(a, b, x, w, M, K, N, m, n, K);
    }
    SameCells(Transposed(y, N, M), MatMul(a, b, M, K, N), M, N);
  }

  /** A transposed copy. */
  method TransposedCopy(s: seq<real>, rows: nat, cols: nat) returns (t: seq<real>)
    requires |s| == rows * cols
    ensures t == Transposed(s, rows, cols)
  {
    var same: real -> real := x => x;
    var buffer := new real[cols * rows];
    ghost var log := TransposeInto(s, buffer, rows, cols, same);
    ConvertedBySame(s, same);
    t := buffer[..];
  }

  /** The matmul entry point's layout path; the compiled program is a 1x1 convolution. */
  method MatmulF16(a: seq<real>, b: seq<real>, M: nat, K: nat, N: nat, c: array<real>)
    requires |a| == M * K && |b| == K * N && c.Length == M * N
    modifies c
    ensures c[..] == MatMul(a, b, M, K, N)
  {
    var w := TransposedCopy(b, K, N);
    var x := TransposedCopy(a, M, K);
    var y := Conv1x1(x, w, K, N, M);
    ghost var log := UnpackInto(y, c, M, N);
    MatmulAsConv(a, b, M, K, N);
  }

  // ----- the column-slice dispatch -----

  /** The first few columns. */
  function Slice(x: seq<real>, rows: nat, cols: nat, few: nat): (s: seq<real>)
    requires |x| == rows * cols && few <= cols
    ensures |s| == rows * few
  {
    Build(rows, few, (r: nat, c: nat) requires r < rows && c < few => At(x, rows, cols, r, c))
  }

  /** A buffer with the given first columns and zeros behind them. */
  function Widened(s: seq<real>, rows: nat, few: nat, cols: nat): (x: seq<real>)
    requires |s| == rows * few && few <= cols
    ensures |x| == rows * cols
  {
    Build(rows, cols, (r: nat, c: nat) requires r < rows && c < cols => if c < few then At(s, rows, few, r, c) else 0.0)
  }

  ghost predicate ZeroBeyond(x: seq<real>, rows: nat, cols: nat, few: nat)
    requires |x| == rows * cols
  {
    forall r: nat, c: nat :: r < rows && few <= c < cols ==> At(x, rows, cols, r, c) == 0.0
  }

  ghost predicate SliceOf(s: seq<real>, x: seq<real>, rows: nat, cols: nat, few: nat) {
    && |x| == rows * cols && few <= cols && |s| == rows * few
    && forall r: nat, c: nat :: r < rows && c < few ==> At(s, rows, few, r, c) == At(x, rows, cols, r, c)
  }

  lemma {:induction false} SliceSum(s: seq<real>, x: seq<real>, w: seq<real>, K: nat, N: nat, M: nat, few: nat,
                                    n: nat, m: nat, k: nat)
    requires SliceOf(s, x, K, M, few) && |w| == N * K && n < N && m < few && k <= K
    ensures ConvSum(s, w, K, N, few, n, m, k) == ConvSum(x, w, K, N, M, n, m, k)
    decreases k
  {
    if k > 0 {
      SliceSum(s, x, w, K, N, M, few, n, m, k - 1);
      assert At(s, K, few, k - 1, m) == At(x, K, M, k - 1, m);
    }
  }

  /** Running on the slice and widening again gives the first columns of the full result and zeros. */
  lemma SliceDispatch(x: seq<real>, w: seq<real>, K: nat, N: nat, M: nat, few: nat, n: nat, m: nat)
    requires |x| == K * M && |w| == N * K && few <= M && n < N && m < M
    ensures At(Widened(Conv1x1(Slice(x, K, M, few), w, K, N, few), N, few, M), N, M, n, m)
         == if m < few then At(Conv1x1(x, w, K, N, M), N, M, n, m) else 0.0
  {
    if m < few { SliceSum(Slice(x, K, M, few), x, w, K, N, M, few, n, m, K); }
  }

  lemma {:induction false} ZeroSum(x: seq<real>, w: seq<real>, K: nat, N: nat, M: nat, n: nat, m: nat, k: nat)
    requires |x| == K * M && |w| == N * K && n < N && m < M && k <= K
    requires forall r: nat :: r < K ==> At(x, K, M, r, m) == 0.0
    ensures ConvSum(x, w, K, N, M, n, m, k) == 0.0
    decreases k
  {
    if k > 0 { ZeroSum(x, w, K, N, M, n, m, k - 1); }
  }

  /** The weights that copy input channel r to every output channel. */
  function Selector(N: nat, K: nat, r: nat): (w: seq<real>)
    ensures |w| == N * K
  {
    Build(N, K, (n: nat, k: nat) => if k == r then 1.0 else 0.0)
  }

  lemma {:induction false} SelectorSum(x: seq<real>, K: nat, N: nat, M: nat, r: nat, n: nat, m: nat, k: nat)
    requires |x| == K * M && n < N && m < M && k <= K && r < K
    ensures ConvSum(x, Selector(N, K, r), K, N, M, n, m, k) == if r < k then At(x, K, M, r, m) else 0.0
    decreases k
  {
    if k > 0 { SelectorSum(x, K, N, M, r, n, m, k - 1); }
  }

  /** The slice dispatch is the full convolution for these weights. */
  ghost predicate SliceIsFull(x: seq<real>, w: seq<real>, K: nat, N: nat, M: nat, few: nat)
    requires |x| == K * M && few <= M
  {
    |w| == N * K && Widened(Conv1x1(Slice(x, K, M, few), w, K, N, few), N, few, M) == Conv1x1(x, w, K, N, M)
  }

  /** For an input the slice dispatch agrees with the full convolution under all weights exactly when the
      columns it leaves out are zero. */
  lemma SliceIsFullIffPadded(x: seq<real>, K: nat, N: nat, M: nat, few: nat)
    requires |x| == K * M && few <= M && N > 0
    ensures ZeroBeyond(x, K, M, few) <==> forall w: seq<real> :: |w| == N * K ==> SliceIsFull(x, w, K, N, M, few)
  {
    if ZeroBeyond(x, K, M, few) {
      forall w: seq<real> | |w| == N * K ensures SliceIsFull(x, w, K, N, M, few) { PaddedIsFull(x, w, K, N, M, few); }
    }
    if forall w: seq<real> :: |w| == N * K ==> SliceIsFull(x, w, K, N, M, few) {
      forall r: nat, c: nat | r < K && few <= c < M ensures At(x, K, M, r, c) == 0.0 {
        var w := Selector(N, K, r);
        assert SliceIsFull(x, w, K, N, M, few);
        SliceDispatch(x, w, K, N, M, few, 0, c);
        SelectorSum(x, K, N, M, r, 0, c, K);
      }
    }
  }

  lemma PaddedIsFull(x: seq<real>, w: seq<real>, K: nat, N: nat, M: nat, few: nat)
    requires |x| == K * M && |w| == N * K && few <= M && ZeroBeyond(x, K, M, few)
    ensures SliceIsFull(x, w, K, N, M, few)
  {
    var sliced := Widened(Conv1x1(Slice(x, K, M, few), w, K, N, few), N, few, M);
    var full := Conv1x1(x, w, K, N, M);
    forall n: nat, m: nat | n < N && m < M ensures At(sliced, N, M, n, m) == At(full, N, M, n, m) {
      SliceDispatch(x, w, K, N, M, few, n, m);
      if m >= few { ZeroSum(x, w, K, N, M, n, m, K); }
    }
    SameCells(sliced, full, N, M);
  }

  /** A single channel of 16 columns with a value in the second: the dispatch of the first column drops it. */
  lemma SliceDropsColumn(x: seq<real>, n: nat)
    requires n == 16 && |x| == 1 * n && At(x, 1, n, 0, 1) != 0.0
    ensures |Selector(1, 1, 0)| == 1 * 1 && !SliceIsFull(x, Selector(1, 1, 0), 1, 1, n, 1)
    ensures !ZeroBeyond(x, 1, n, 1)
  {
    var w := Selector(1, 1, 0);
    SliceDispatch(x, w, 1, 1, n, 1, 0, 1);
    SelectorSum(x, 1, 1, n, 0, 0, 1, 1);
  }

  /** The dispatch itself: extract, run, insert; weights b are [K][N] and are transposed at compile time. */
  method SliceRun(x: seq<real>, b: seq<real>, K: nat, N: nat, M: nat, few: nat, out: array<real>)
    requires |x| == K * M && |b| == K * N && few <= M && out.Length == N * M
    modifies out
    ensures out[..] == Widened(Conv1x1(Slice(x, K, M, few), Transposed(b, K, N), K, N, few), N, few, M)
  {
    var w := TransposedCopy(b, K, N);
    var clIn := StrideExtract(x, K, M, few);
    var clOut := Conv1x1(clIn, w, K, N, few);
    StrideInsert(clOut, N, few, M, out);
  }

  method StrideExtract(x: seq<real>, rows: nat, cols: nat, few: nat) returns (s: seq<real>)
    requires |x| == rows * cols && few <= cols
    ensures s == Slice(x, rows, cols, few)
  {
    s := [];
    for r := 0 to rows
      invariant |s| == r * few && SlicePrefix(s, x, rows, cols, few)
    {
      RowFits(r, rows, cols);
      ExtractRow(s, x, rows, cols, few, r, r * cols);
      s := s + x[r * cols..r * cols + few];
    }
  }

  ghost predicate SlicePrefix(s: seq<real>, x: seq<real>, rows: nat, cols: nat, few: nat) {
    && |x| == rows * cols && few <= cols && |s| <= rows * few
    && forall q :: 0 <= q < |s| ==> s[q] == Slice(x, rows, cols, few)[q]
  }

  lemma ExtractRow(s: seq<real>, x: seq<real>, rows: nat, cols: nat, few: nat, r: nat, base: nat)
    requires SlicePrefix(s, x, rows, cols, few) && r < rows && |s| == r * few && base == r * cols && base + few <= |x|
    ensures SlicePrefix(s + x[base..base + few], x, rows, cols, few) && |s| + few == (r + 1) * few
  {
    RowFits(r, rows, few);
    var n, goal := |s|, Slice(x, rows, cols, few);
    forall q | n <= q < n + few ensures goal[q] == x[base + (q - n)] {
      ExtractedCell(x, rows, cols, few, r, q - n);
    }
  }

  lemma ExtractedCell(x: seq<real>, rows: nat, cols: nat, few: nat, r: nat, c: nat)
    requires |x| == rows * cols && few <= cols && r < rows && c < few
    ensures r * few + c < rows * few && r * cols + c < |x| && Slice(x, rows, cols, few)[r * few + c] == x[r * cols + c]
  {
    IndexBound(r, rows, c, few);
    IndexBound(r, rows, c, cols);
    var s := Slice(x, rows, cols, few);
    assert At(s, rows, few, r, c) == At(x, rows, cols, r, c);
  }

  method ZeroFill(out: array<real>)
    modifies out
    ensures forall q :: 0 <= q < out.Length ==> out[q] == 0.0
  {
    for p := 0 to out.Length
      invariant forall q :: 0 <= q < p ==> out[q] == 0.0
    {
      out[p] := 0.0;
    }
  }

  /** Rows below r hold the given columns, all other cells are zero. */
  ghost predicate InsertedTo(x: seq<real>, s: seq<real>, rows: nat, few: nat, cols: nat, r: nat) {
    && |s| == rows * few && few <= cols && |x| == rows * cols
    && forall r': nat, c: nat :: r' < rows && c < cols ==>
         At(x, rows, cols, r', c) == if r' < r && c < few then At(s, rows, few, r', c) else 0.0
  }

  method StrideInsert(s: seq<real>, rows: nat, few: nat, cols: nat, out: array<real>)
    requires |s| == rows * few && few <= cols && out.Length == rows * cols
    modifies out
    ensures out[..] == Widened(s, rows, few, cols)
  {
    ZeroFill(out);
    NothingInserted(out[..], s, rows, few, cols);
    for r := 0 to rows
      invariant InsertedTo(out[..], s, rows, few, cols, r)
    {
      RowFits(r, rows, few);
      RowFits(r, rows, cols);
      ghost var before := out[..];
      CopyRow(s, r * few, few, out, r * cols);
      InsertedNext(before, out[..], s, rows, few, cols, r);
    }
    AllInserted(out[..], s, rows, few, cols);
  }

  lemma NothingInserted(x: seq<real>, s: seq<real>, rows: nat, few: nat, cols: nat)
    requires |s| == rows * few && few <= cols && |x| == rows * cols && forall q :: 0 <= q < |x| ==> x[q] == 0.0
    ensures InsertedTo(x, s, rows, few, cols, 0)
  {
    forall r': nat, c: nat | r' < rows && c < cols ensures At(x, rows, cols, r', c) == 0.0 {
      IndexBound(r', rows, c, cols);
    }
  }

  lemma AllInserted(x: seq<real>, s: seq<real>, rows: nat, few: nat, cols: nat)
    requires InsertedTo(x, s, rows, few, cols, rows)
    ensures x == Widened(s, rows, few, cols)
  {
    SameCells(x, Widened(s, rows, few, cols), rows, cols);
  }

  /** One memcpy. */
  method CopyRow(s: seq<real>, from: nat, n: nat, out: array<real>, to: nat)
    requires from + n <= |s| && to + n <= out.Length
    modifies out
    ensures forall q :: 0 <= q < out.Length ==> out[q] == if to <= q < to + n then s[from + (q - to)] else old(out[q])
  {
    forall c: nat | c < n { out[to + c] := s[from + c]; }
  }

  lemma InsertedNext(before: seq<real>, after: seq<real>, s: seq<real>, rows: nat, few: nat, cols: nat, r: nat)
    requires InsertedTo(before, s, rows, few, cols, r) && r < rows && |after| == |before|
    requires r * cols + cols <= |before| && r * few + few <= |s|
    requires forall q :: 0 <= q < |after| ==>
               after[q] == if r * cols <= q < r * cols + few then s[r * few + (q - r * cols)] else before[q]
    ensures InsertedTo(after, s, rows, few, cols, r + 1)
  {
    forall r': nat, c: nat | r' < rows && c < cols
      ensures At(after, rows, cols, r', c) == if r' < r + 1 && c < few then At(s, rows, few, r', c) else 0.0
    {
      InsertedRow(before, after, s, rows, few, cols, r, r', c);
    }
  }

  lemma InsertedRow(before: seq<real>, after: seq<real>, s: seq<real>, rows: nat, few: nat, cols: nat, r: nat,
                    r': nat, c: nat)
    requires |before| == |after| == rows * cols && |s| == rows * few && few <= cols && r < rows && r' < rows && c < cols
    requires r * cols + cols <= |before| && r * few + few <= |s|
    requires forall q :: 0 <= q < |after| ==>
               after[q] == if r * cols <= q < r * cols + few then s[r * few + (q - r * cols)] else before[q]
    requires At(before, rows, cols, r', c) == if r' < r && c < few then At(s, rows, few, r', c) else 0.0
    ensures At(after, rows, cols, r', c) == if r' < r + 1 && c < few then At(s, rows, few, r', c) else 0.0
  {
    IndexBound(r', rows, c, cols);
    var q := r' * cols + c;
    if r * cols <= q < r * cols + few { RemainderUnique(cols, r, q - r * cols, r', c); }
  }
}
