/** The generic four-dimensional transposition and the pixel shuffle built from it. */
module Transpose {
  import opened Arith
  import opened Layout

  /** Four extents, or four coordinates. */
  type Four = s: seq<nat> | |s| == 4 witness [0, 0, 0, 0]

  predicate Inside(dims: Four, idx: Four) {
    idx[0] < dims[0] && idx[1] < dims[1] && idx[2] < dims[2] && idx[3] < dims[3]
  }

  function Size(dims: Four): nat {
    dims[0] * dims[1] * dims[2] * dims[3]
  }

  /** The row-major position of a cell, by Horner's rule. */
  function Flat(dims: Four, idx: Four): nat {
    ((idx[0] * dims[1] + idx[1]) * dims[2] + idx[2]) * dims[3] + idx[3]
  }

  /** The coordinates of a position. */
  function Unflat(dims: Four, p: nat): Four
    requires p < Size(dims)
  {
    SizePositive(dims);
    Coordinates(p, dims[1], dims[2], dims[3])
  }

  function Coordinates(p: nat, d1: nat, d2: nat, d3: nat): Four
    requires d1 > 0 && d2 > 0 && d3 > 0
  {
    var a: nat := p / d3;
    var b: nat := a / d2;
    [b / d1, b % d1, a % d2, p % d3]
  }

  lemma SizePositive(dims: Four)
    requires Size(dims) > 0
    ensures dims[0] > 0 && dims[1] > 0 && dims[2] > 0 && dims[3] > 0
  {
    assert Size(dims) == (dims[0] * dims[1] * dims[2]) * dims[3];
    assert dims[0] * dims[1] * dims[2] > 0;
    assert dims[0] * dims[1] > 0;
  }

  /** One stage of Horner's rule. */
  lemma Digit(hi: nat, hiBound: nat, lo: nat, d: nat)
    requires hi < hiBound && lo < d
    ensures hi * d + lo < hiBound * d && (hi * d + lo) / d == hi && (hi * d + lo) % d == lo
  {
    IndexBound(hi, hiBound, lo, d);
    DivModUnique(hi * d + lo, d, hi, lo);
  }

  /** Cells and positions correspond one to one. */
  lemma FlatInside(dims: Four, idx: Four)
    requires Inside(dims, idx)
    ensures Flat(dims, idx) < Size(dims) && Unflat(dims, Flat(dims, idx)) == idx
  {
    var d1 := dims[0] * dims[1];
    var d2 := d1 * dims[2];
    var a := idx[0] * dims[1] + idx[1];
    var b := a * dims[2] + idx[2];
    Digit(idx[0], dims[0], idx[1], dims[1]);
    Digit(a, d1, idx[2], dims[2]);
    Digit(b, d2, idx[3], dims[3]);
  }

  lemma UnflatInside(dims: Four, p: nat)
    requires p < Size(dims)
    ensures Inside(dims, Unflat(dims, p)) && Flat(dims, Unflat(dims, p)) == p
  {
    IndexSplit(p, dims[0] * dims[1] * dims[2], dims[3]);
    IndexSplit(p / dims[3], dims[0] * dims[1], dims[2]);
    IndexSplit(p / dims[3] / dims[2], dims[0], dims[1]);
  }

  // ----- permutations of the axes -----

  predicate IsPerm(perm: Four) {
    && (forall d :: 0 <= d < 4 ==> perm[d] < 4)
    && forall d, d' :: 0 <= d < d' < 4 ==> perm[d] != perm[d']
  }

  function Permuted(dims: Four, perm: Four): Four
    requires IsPerm(perm)
  {
    [dims[perm[0]], dims[perm[1]], dims[perm[2]], dims[perm[3]]]
  }

  /** Coordinates of the source cell: axis perm[d] gets coordinate d of the target. */
  function Scatter(idx: Four, perm: Four): (r: Four)
    requires IsPerm(perm)
    ensures forall d :: 0 <= d < 4 ==> r[perm[d]] == idx[d]
  {
    var zero: Four := [0, 0, 0, 0];
    zero[perm[0] := idx[0]][perm[1] := idx[1]][perm[2] := idx[2]][perm[3] := idx[3]]
  }

  function Inverse(perm: Four): (inv: Four)
    requires IsPerm(perm)
  {
    [AxisOf(perm, 0), AxisOf(perm, 1), AxisOf(perm, 2), AxisOf(perm, 3)]
  }

  /** The position at which a permutation holds k. */
  function AxisOf(perm: Four, k: nat): (d: nat)
    requires IsPerm(perm) && k < 4
    ensures d < 4 && perm[d] == k
  {
    PermOnto(perm, k);
    if perm[0] == k then 0 else if perm[1] == k then 1 else if perm[2] == k then 2 else 3
  }

  /** Every axis is perm[d] for some d. */
  lemma PermOnto(perm: Four, k: nat)
    requires IsPerm(perm) && k < 4
    ensures exists d :: 0 <= d < 4 && perm[d] == k
  {
    var a, b, c, d := perm[0], perm[1], perm[2], perm[3];
    assert a < 4 && b < 4 && c < 4 && d < 4;
    assert a == k || b == k || c == k || d == k;
  }

  lemma InverseIsPerm(perm: Four)
    requires IsPerm(perm)
    ensures IsPerm(Inverse(perm))
    ensures forall k :: 0 <= k < 4 ==> perm[Inverse(perm)[k]] == k
  {
    var a, b, c, d := AxisOf(perm, 0), AxisOf(perm, 1), AxisOf(perm, 2), AxisOf(perm, 3);
    assert Inverse(perm) == [a, b, c, d];
  }

  lemma ScatterInside(dims: Four, perm: Four, idx: Four)
    requires IsPerm(perm) && Inside(Permuted(dims, perm), idx)
    ensures Inside(dims, Scatter(idx, perm))
  {
    var r := Scatter(idx, perm);
    forall k: nat | k < 4 ensures r[k] < dims[k] {
      PermOnto(perm, k);
      var d :| 0 <= d < 4 && perm[d] == k;
      assert r[perm[d]] == idx[d] && Permuted(dims, perm)[d] == dims[perm[d]];
    }
  }

  /** Scattering by a permutation after scattering by its inverse changes nothing. */
  lemma ScatterBack(perm: Four, idx: Four)
    requires IsPerm(perm)
    ensures IsPerm(Inverse(perm)) && Scatter(Scatter(idx, Inverse(perm)), perm) == idx
  {
    InverseIsPerm(perm);
    var inv := Inverse(perm);
    var y := Scatter(idx, inv);
    var r := Scatter(y, perm);
    forall k: nat | k < 4 ensures r[k] == idx[k] {
      var d := inv[k];
      assert r[perm[d]] == y[d] && y[inv[k]] == idx[k];
    }
  }

  lemma PermutedBack(dims: Four, perm: Four)
    requires IsPerm(perm)
    ensures IsPerm(Inverse(perm)) && Permuted(Permuted(dims, perm), Inverse(perm)) == dims
  {
    InverseIsPerm(perm);
    var inv, od := Inverse(perm), Permuted(dims, perm);
    forall k: nat | k < 4 ensures Permuted(od, inv)[k] == dims[k] {
      assert Permuted(od, inv)[k] == od[inv[k]];
      assert od[inv[k]] == dims[perm[inv[k]]];
    }
  }

  // ----- the transposition -----

  function TransposedBy<T>(s: seq<T>, dims: Four, perm: Four): (t: seq<T>)
    requires IsPerm(perm) && |s| == Size(dims)
    ensures |t| == Size(Permuted(dims, perm))
  {
    seq(Size(Permuted(dims, perm)), p requires 0 <= p < Size(Permuted(dims, perm)) =>
      s[Source(dims, perm, p)])
  }

  /** The source position of target position p. */
  function Source(dims: Four, perm: Four, p: nat): (q: nat)
    requires IsPerm(perm) && p < Size(Permuted(dims, perm))
    ensures q < Size(dims)
  {
    var idx := Unflat(Permuted(dims, perm), p);
    UnflatInside(Permuted(dims, perm), p);
    ScatterInside(dims, perm, idx);
    FlatInside(dims, Scatter(idx, perm));
    Flat(dims, Scatter(idx, perm))
  }

  /** Cell by cell. */
  lemma TransposedCell<T>(s: seq<T>, dims: Four, perm: Four, idx: Four)
    requires IsPerm(perm) && |s| == Size(dims) && Inside(Permuted(dims, perm), idx)
    ensures Flat(Permuted(dims, perm), idx) < Size(Permuted(dims, perm)) && Flat(dims, Scatter(idx, perm)) < Size(dims)
    ensures TransposedBy(s, dims, perm)[Flat(Permuted(dims, perm), idx)] == s[Flat(dims, Scatter(idx, perm))]
  {
    FlatInside(Permuted(dims, perm), idx);
    ScatterInside(dims, perm, idx);
    FlatInside(dims, Scatter(idx, perm));
  }

  /** The source position of a cell, and the way back. */
  lemma SourceThere(dims: Four, perm: Four, p: nat)
    requires IsPerm(perm) && p < Size(dims)
    ensures IsPerm(Inverse(perm)) && Permuted(Permuted(dims, perm), Inverse(perm)) == dims
    ensures Source(dims, perm, Source(Permuted(dims, perm), Inverse(perm), p)) == p
  {
    PermutedBack(dims, perm);
    var od, inv := Permuted(dims, perm), Inverse(perm);
    var idx := Unflat(dims, p);
    UnflatInside(dims, p);
    ScatterInside(od, inv, idx);
    FlatInside(od, Scatter(idx, inv));
    ScatterBack(perm, idx);
  }

  /** Transposing back by the inverse permutation restores the input. */
  lemma TransposeRoundTrip<T>(s: seq<T>, dims: Four, perm: Four)
    requires IsPerm(perm) && |s| == Size(dims)
    ensures IsPerm(Inverse(perm))
    ensures TransposedBy(TransposedBy(s, dims, perm), Permuted(dims, perm), Inverse(perm)) == s
  {
    PermutedBack(dims, perm);
    var t := TransposedBy(TransposedBy(s, dims, perm), Permuted(dims, perm), Inverse(perm));
    forall p | 0 <= p < |s| ensures t[p] == s[p] { SourceThere(dims, perm, p); }
  }

  ghost predicate Undoes(perm: Four, inv: Four) {
    IsPerm(perm) && IsPerm(inv) && forall k :: 0 <= k < 4 ==> perm[inv[k]] == k
  }

  lemma UndoneTwice(perm: Four, inv: Four, back: Four)
    requires Undoes(perm, inv) && Undoes(inv, back)
    ensures back == perm
  {
    forall k: nat | k < 4 ensures back[k] == perm[k] {
      assert inv[back[k]] == k && perm[inv[back[k]]] == back[k];
    }
  }

  lemma InverseUndoes(perm: Four, inv: Four)
    requires IsPerm(perm) && inv == Inverse(perm)
    ensures Undoes(perm, inv)
  {
    InverseIsPerm(perm);
  }

  lemma InverseInvolutive(perm: Four, inv: Four)
    requires IsPerm(perm) && inv == Inverse(perm)
    ensures IsPerm(inv) && Inverse(inv) == perm
  {
    InverseUndoes(perm, inv);
    var back := Inverse(inv);
    InverseUndoes(inv, back);
    UndoneTwice(perm, inv, back);
  }

  /** The way from a target position to its source and back; with SourceThere, target and source
      positions correspond one to one. */
  lemma SourceBack(dims: Four, perm: Four, p: nat)
    requires IsPerm(perm) && p < Size(Permuted(dims, perm))
    ensures IsPerm(Inverse(perm)) && Permuted(Permuted(dims, perm), Inverse(perm)) == dims
    ensures Source(Permuted(dims, perm), Inverse(perm), Source(dims, perm, p)) == p
  {
    PermutedBack(dims, perm);
    InverseInvolutive(perm, Inverse(perm));
    SourceThere(Permuted(dims, perm), Inverse(perm), p);
  }

  // ----- the loops -----

  /** The source's stride sum. */
  function StrideSum(dims: Four, idx: Four): nat {
    idx[0] * (dims[1] * dims[2] * dims[3]) + idx[1] * (dims[2] * dims[3]) + idx[2] * dims[3] + idx[3] * 1
  }

  lemma StrideSumIsFlat(dims: Four, idx: Four)
    ensures StrideSum(dims, idx) == Flat(dims, idx)
  {
    var a, b, c := idx[0], idx[1], idx[2];
    var d1, d2, d3 := dims[1], dims[2], dims[3];
    assert (a * d1 + b) * d2 == a * (d1 * d2) + b * d2;
    assert ((a * d1 + b) * d2 + c) * d3 == ((a * d1 + b) * d2) * d3 + c * d3;
    assert (a * (d1 * d2) + b * d2) * d3 == a * (d1 * d2) * d3 + b * d2 * d3;
    assert a * (d1 * d2) * d3 == a * (d1 * d2 * d3);
    assert b * d2 * d3 == b * (d2 * d3);
  }

  /** One step: the four coordinates of the target, the scatter loop, and the copied element. */
  method SourceIndex(idx: Four, perm: Four) returns (r: Four)
    requires IsPerm(perm)
    ensures r == Scatter(idx, perm)
  {
    r := [0, 0, 0, 0];
    for d := 0 to 4
      invariant forall e :: 0 <= e < d ==> r[perm[e]] == idx[e]
    {
      r := r[perm[d] := idx[d]];
    }
    forall k: nat | k < 4 ensures r[k] == Scatter(idx, perm)[k] {
      PermOnto(perm, k);
      var d :| 0 <= d < 4 && perm[d] == k;
      assert r[perm[d]] == idx[d];
    }
  }

  /** Writes one target cell and logs its position. */
  method CopyCell<T>(src: seq<T>, out: array<T>, dims: Four, perm: Four, idx: Four, ghost log0: seq<nat>)
    returns (ghost log: seq<nat>)
    requires IsPerm(perm) && |src| == Size(dims) && out.Length == Size(Permuted(dims, perm))
    requires Inside(Permuted(dims, perm), idx)
    requires DoneTo(src, out[..], dims, perm, Flat(Permuted(dims, perm), idx))
    requires Counting(log0, Flat(Permuted(dims, perm), idx))
    modifies out
    ensures DoneTo(src, out[..], dims, perm, Flat(Permuted(dims, perm), idx) + 1)
    ensures Counting(log, Flat(Permuted(dims, perm), idx) + 1)
  {
    var inIdx := SourceIndex(idx, perm);
    TransposedCell(src, dims, perm, idx);
    StrideSumIsFlat(dims, inIdx);
    StrideSumIsFlat(Permuted(dims, perm), idx);
    out[StrideSum(Permuted(dims, perm), idx)] := src[StrideSum(dims, inIdx)];
    log := log0 + [StrideSum(Permuted(dims, perm), idx)];
  }

  /** The first n target cells are in place. */
  ghost predicate DoneTo<T>(src: seq<T>, out: seq<T>, dims: Four, perm: Four, n: nat)
    requires IsPerm(perm) && |src| == Size(dims)
  {
    && |out| == Size(Permuted(dims, perm))
    && forall p :: 0 <= p < n && p < |out| ==> out[p] == TransposedBy(src, dims, perm)[p]
  }

  /** The four loops.  The log of the writes shows that every target position is written once, in order. */
  method TransposeF16<T>(src: seq<T>, out: array<T>, dims: Four, perm: Four) returns (ghost log: seq<nat>)
    requires IsPerm(perm) && |src| == Size(dims) && out.Length == Size(Permuted(dims, perm))
    modifies out
    ensures out[..] == TransposedBy(src, dims, perm)
    ensures |log| == Size(Permuted(dims, perm)) && forall k :: 0 <= k < |log| ==> log[k] == k
  {
    var n := Permuted(dims, perm)[0];
    log := [];
    NothingDone(src, out[..], dims, perm);
    for i0 := 0 to n
      invariant DoneTo(src, out[..], dims, perm, Flat(Permuted(dims, perm), [i0, 0, 0, 0]))
      invariant Counting(log, Flat(Permuted(dims, perm), [i0, 0, 0, 0]))
    {
      log := TransposeBlock(src, out, dims, perm, i0, log);
    }
    AllDone(src, out[..], dims, perm);
  }

  lemma NothingDone<T>(src: seq<T>, out: seq<T>, dims: Four, perm: Four)
    requires IsPerm(perm) && |src| == Size(dims) && |out| == Size(Permuted(dims, perm))
    ensures DoneTo(src, out, dims, perm, Flat(Permuted(dims, perm), [0, 0, 0, 0]))
    ensures Counting([], Flat(Permuted(dims, perm), [0, 0, 0, 0]))
  {
    FlatStart(Permuted(dims, perm));
  }

  lemma FlatStart(od: Four)
    ensures Flat(od, [0, 0, 0, 0]) == 0
  {
  }

  lemma AllDone<T>(src: seq<T>, out: seq<T>, dims: Four, perm: Four)
    requires IsPerm(perm) && |src| == Size(dims)
    requires DoneTo(src, out, dims, perm, Flat(Permuted(dims, perm), [Permuted(dims, perm)[0], 0, 0, 0]))
    ensures out == TransposedBy(src, dims, perm)
    ensures Flat(Permuted(dims, perm), [Permuted(dims, perm)[0], 0, 0, 0]) == Size(Permuted(dims, perm))
  {
    FlatEnd(Permuted(dims, perm));
  }

  lemma FlatEnd(od: Four)
    ensures Flat(od, [od[0], 0, 0, 0]) == Size(od)
  {
  }

  method TransposeBlock<T>(src: seq<T>, out: array<T>, dims: Four, perm: Four, i0: nat, ghost log0: seq<nat>)
    returns (ghost log: seq<nat>)
    requires IsPerm(perm) && |src| == Size(dims) && out.Length == Size(Permuted(dims, perm))
    requires i0 < Permuted(dims, perm)[0] && DoneTo(src, out[..], dims, perm, Flat(Permuted(dims, perm), [i0, 0, 0, 0]))
    requires Counting(log0, Flat(Permuted(dims, perm), [i0, 0, 0, 0]))
    modifies out
    ensures DoneTo(src, out[..], dims, perm, Flat(Permuted(dims, perm), [i0 + 1, 0, 0, 0]))
    ensures Counting(log, Flat(Permuted(dims, perm), [i0 + 1, 0, 0, 0]))
  {
    log := log0;
    var n := Permuted(dims, perm)[1];
    for i1 := 0 to n
      invariant DoneTo(src, out[..], dims, perm, Flat(Permuted(dims, perm), [i0, i1, 0, 0]))
      invariant Counting(log, Flat(Permuted(dims, perm), [i0, i1, 0, 0]))
    {
      log := TransposePlane(src, out, dims, perm, i0, i1, log);
    }
    Carry1(Permuted(dims, perm), i0);
  }

  method TransposePlane<T>(src: seq<T>, out: array<T>, dims: Four, perm: Four, i0: nat, i1: nat, ghost log0: seq<nat>)
    returns (ghost log: seq<nat>)
    requires IsPerm(perm) && |src| == Size(dims) && out.Length == Size(Permuted(dims, perm))
    requires i0 < Permuted(dims, perm)[0] && i1 < Permuted(dims, perm)[1]
    requires DoneTo(src, out[..], dims, perm, Flat(Permuted(dims, perm), [i0, i1, 0, 0]))
    requires Counting(log0, Flat(Permuted(dims, perm), [i0, i1, 0, 0]))
    modifies out
    ensures DoneTo(src, out[..], dims, perm, Flat(Permuted(dims, perm), [i0, i1 + 1, 0, 0]))
    ensures Counting(log, Flat(Permuted(dims, perm), [i0, i1 + 1, 0, 0]))
  {
    log := log0;
    var n := Permuted(dims, perm)[2];
    for i2 := 0 to n
      invariant DoneTo(src, out[..], dims, perm, Flat(Permuted(dims, perm), [i0, i1, i2, 0]))
      invariant Counting(log, Flat(Permuted(dims, perm), [i0, i1, i2, 0]))
    {
      log := TransposeRow(src, out, dims, perm, i0, i1, i2, log);
    }
    Carry2(Permuted(dims, perm), i0, i1);
  }

  method TransposeRow<T>(src: seq<T>, out: array<T>, dims: Four, perm: Four, i0: nat, i1: nat, i2: nat,
                         ghost log0: seq<nat>)
    returns (ghost log: seq<nat>)
    requires IsPerm(perm) && |src| == Size(dims) && out.Length == Size(Permuted(dims, perm))
    requires i0 < Permuted(dims, perm)[0] && i1 < Permuted(dims, perm)[1] && i2 < Permuted(dims, perm)[2]
    requires DoneTo(src, out[..], dims, perm, Flat(Permuted(dims, perm), [i0, i1, i2, 0]))
    requires Counting(log0, Flat(Permuted(dims, perm), [i0, i1, i2, 0]))
    modifies out
    ensures DoneTo(src, out[..], dims, perm, Flat(Permuted(dims, perm), [i0, i1, i2 + 1, 0]))
    ensures Counting(log, Flat(Permuted(dims, perm), [i0, i1, i2 + 1, 0]))
  {
    log := log0;
    var n := Permuted(dims, perm)[3];
    for i3 := 0 to n
      invariant DoneTo(src, out[..], dims, perm, Flat(Permuted(dims, perm), [i0, i1, i2, i3]))
      invariant Counting(log, Flat(Permuted(dims, perm), [i0, i1, i2, i3]))
    {
      log := CopyCell(src, out, dims, perm, [i0, i1, i2, i3], log);
    }
    Carry3(Permuted(dims, perm), i0, i1, i2);
  }

  lemma Carry3(od: Four, i0: nat, i1: nat, i2: nat)
    ensures Flat(od, [i0, i1, i2, od[3]]) == Flat(od, [i0, i1, i2 + 1, 0])
  {
    var a := (i0 * od[1] + i1) * od[2] + i2;
    assert a * od[3] + od[3] == (a + 1) * od[3];
  }

  lemma Carry2(od: Four, i0: nat, i1: nat)
    ensures Flat(od, [i0, i1, od[2], 0]) == Flat(od, [i0, i1 + 1, 0, 0])
  {
    var a := i0 * od[1] + i1;
    assert a * od[2] + od[2] == (a + 1) * od[2];
  }

  lemma Carry1(od: Four, i0: nat)
    ensures Flat(od, [i0, od[1], 0, 0]) == Flat(od, [i0 + 1, 0, 0, 0])
  {
    assert i0 * od[1] + od[1] == (i0 + 1) * od[1];
  }

  // ----- pixel shuffle -----

  /** Reshape [1, c*r, 1, s] to [1, c, r, s], transpose the last two axes, reshape to [1, c, 1, s*r];
      a reshape leaves the flat buffer as it is. */
  function PixelShuffled<T>(x: seq<T>, outC: nat, inS: nat, r: nat): (y: seq<T>)
    requires |x| == (outC * r) * inS
    ensures |y| == outC * (inS * r)
  {
    ShuffleSizes(outC, inS, r);
    TransposedBy(x, [1, outC, r, inS], [0, 1, 3, 2])
  }

  lemma ShuffleSizes(c: nat, s: nat, r: nat)
    ensures Size([1, c, r, s]) == (c * r) * s && Size([1, c, s, r]) == c * (s * r) == (c * r) * s
    ensures IsPerm([0, 1, 3, 2]) && Permuted([1, c, r, s], [0, 1, 3, 2]) == [1, c, s, r]
    ensures Permuted([1, c, s, r], [0, 1, 3, 2]) == [1, c, r, s] && Inverse([0, 1, 3, 2]) == [0, 1, 3, 2]
  {
    assert c * s * r == c * (s * r);
    assert s * r == r * s;
    assert c * (r * s) == (c * r) * s;
  }

  lemma ShuffleOut(outC: nat, inS: nat, r: nat, c: nat, s: nat, j: nat)
    requires c < outC && s < inS && j < r
    ensures s * r + j < inS * r && Inside([1, outC, inS, r], [0, c, s, j])
    ensures Flat([1, outC, inS, r], [0, c, s, j]) == c * (inS * r) + (s * r + j)
  {
    IndexBound(s, inS, j, r);
    assert Flat([1, outC, inS, r], [0, c, s, j]) == (c * inS + s) * r + j;
    Regroup(c, inS, s, r);
  }

  lemma Regroup(c: nat, n: nat, s: nat, r: nat)
    ensures (c * n + s) * r == c * (n * r) + s * r
  {
    assert (c * n + s) * r == (c * n) * r + s * r;
    assert (c * n) * r == c * (n * r);
  }

  lemma ShuffleIn(outC: nat, inS: nat, r: nat, c: nat, s: nat, j: nat)
    requires c < outC && s < inS && j < r
    ensures c * r + j < outC * r && IsPerm([0, 1, 3, 2])
    ensures Flat([1, outC, r, inS], Scatter([0, c, s, j], [0, 1, 3, 2])) == (c * r + j) * inS + s
  {
    IndexBound(c, outC, j, r);
    var perm: Four := [0, 1, 3, 2];
    assert IsPerm(perm);
    assert Scatter([0, c, s, j], perm) == [0, c, j, s];
  }

  /** Output cell (c, s*r + j) is input cell (c*r + j, s). */
  lemma ShuffledCell<T>(x: seq<T>, outC: nat, inS: nat, r: nat, c: nat, s: nat, j: nat)
    requires |x| == (outC * r) * inS && c < outC && s < inS && j < r
    ensures s * r + j < inS * r && c * r + j < outC * r
    ensures At(PixelShuffled(x, outC, inS, r), outC, inS * r, c, s * r + j) == At(x, outC * r, inS, c * r + j, s)
  {
    ShuffleOut(outC, inS, r, c, s, j);
    ShuffleIn(outC, inS, r, c, s, j);
    ShuffleSizes(outC, inS, r);
    TransposedCell(x, [1, outC, r, inS], [0, 1, 3, 2], [0, c, s, j]);
  }

  /** Every output cell has that form. */
  lemma ShuffledFrom<T>(x: seq<T>, outC: nat, inS: nat, r: nat, c: nat, q: nat)
    requires |x| == (outC * r) * inS && c < outC && q < inS * r
    ensures r > 0 && q / r < inS && c * r + q % r < outC * r
    ensures At(PixelShuffled(x, outC, inS, r), outC, inS * r, c, q) == At(x, outC * r, inS, c * r + q % r, q / r)
  {
    IndexSplit(q, inS, r);
    ShuffledCell(x, outC, inS, r, c, q / r, q % r);
  }

  /** The shuffle is a bijection: exchanging the last two axes again restores the input. */
  lemma ShuffleInverse<T>(x: seq<T>, outC: nat, inS: nat, r: nat)
    requires |x| == (outC * r) * inS
    ensures IsPerm([0, 1, 3, 2]) && |PixelShuffled(x, outC, inS, r)| == Size([1, outC, inS, r])
    ensures TransposedBy(PixelShuffled(x, outC, inS, r), [1, outC, inS, r], [0, 1, 3, 2]) == x
  {
    ShuffleSizes(outC, inS, r);
    TransposeRoundTrip(x, [1, outC, r, inS], [0, 1, 3, 2]);
  }
}
