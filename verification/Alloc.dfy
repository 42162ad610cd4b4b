/** The search for one allocation size that gives every graph input and output a legal stride. */
module Alloc {
  import opened Graph
  import opened Arith

  const MIN_SURFACE := 49152
  const TRIES := 40960

  /** The channel stride a surface of `target` bytes gives the tensor is a multiple of 64 and holds
      one channel. */
  predicate Fits(target: nat, s: Shape)
    requires s.channels > 0
  {
    var stride := target / s.channels;
    stride >= s.width * 2 && stride % 64 == 0
  }

  predicate AllFit(target: nat, io: seq<Shape>)
    requires forall k :: 0 <= k < |io| ==> io[k].channels > 0
  {
    forall k :: 0 <= k < |io| ==> Fits(target, io[k])
  }

  method CheckAll(target: nat, io: seq<Shape>) returns (ok: bool)
    requires forall k :: 0 <= k < |io| ==> io[k].channels > 0
    ensures ok <==> AllFit(target, io)
  {
    ok := true;
    for k := 0 to |io|
      invariant ok && forall j :: 0 <= j < k ==> Fits(target, io[j])
    {
      if !Fits(target, io[k]) { return false; }
    }
  }

  /** The search loop.  It finds the first fitting candidate among its tries; if there is none it
      stops on a candidate that it has not tested. */
  method Search(ins: seq<Shape>, outs: seq<Shape>, start: nat) returns (target: nat, ok: bool, ghost tries: nat)
    requires forall k :: 0 <= k < |ins + outs| ==> (ins + outs)[k].channels > 0
    ensures tries <= TRIES && target == start + 64 * tries
    ensures ok <==> tries < TRIES
    ensures ok ==> AllFit(target, ins + outs)
    ensures forall j :: 0 <= j < tries ==> !AllFit(start + 64 * j, ins + outs)
  {
    target, ok, tries := start, false, 0;
    var iter := 0;
    while iter < TRIES && !ok
      invariant 0 <= iter <= TRIES
      invariant !ok ==> tries == iter
      invariant ok ==> tries == iter - 1 && AllFit(target, ins + outs)
      invariant target == start + 64 * tries
      invariant forall j :: 0 <= j < tries ==> !AllFit(start + 64 * j, ins + outs)
    {
      assert forall k :: 0 <= k < |ins| ==> (ins + outs)[k] == ins[k];
      assert forall k :: 0 <= k < |outs| ==> (ins + outs)[|ins| + k] == outs[k];
      ok := CheckAll(target, ins);
      if ok { ok := CheckAll(target, outs); }
      if !ok {
        target := target + 64;
        tries := tries + 1;
      }
      iter := iter + 1;
    }
  }

  function RoundUp(x: nat, m: nat): (r: nat)
    requires m > 0
    ensures r % m == 0 && x <= r < x + m
  {
    var q := (x + m - 1) / m;
    DivModUnique(q * m, m, q, 0);
    assert x + m - 1 == m * q + (x + m - 1) % m;
    q * m
  }

  /** The bytes of the largest tensor. */
  function Largest(shapes: seq<Shape>): (m: nat)
    ensures forall k :: 0 <= k < |shapes| ==> shapes[k].Bytes() <= m
    ensures m == 0 || exists k :: 0 <= k < |shapes| && shapes[k].Bytes() == m
  {
    if shapes == [] then 0
    else
      var rest, b := Largest(shapes[..|shapes| - 1]), shapes[|shapes| - 1].Bytes();
      if rest < b then b else rest
  }

  method MaxBytes(shapes: seq<Shape>) returns (m: nat)
    ensures m == Largest(shapes)
  {
    m := 0;
    for k := 0 to |shapes|
      invariant m == Largest(shapes[..k])
    {
      assert shapes[..k + 1][..k] == shapes[..k];
      if m < shapes[k].Bytes() { m := shapes[k].Bytes(); }
    }
    assert shapes[..|shapes|] == shapes;
  }

  /** Where the search starts: the least candidate. */
  function Start(shapes: seq<Shape>): nat {
    RoundUp(if Largest(shapes) < MIN_SURFACE then MIN_SURFACE else Largest(shapes), 64)
  }

  /** A size that the search tries or, in the end, keeps. */
  predicate InReach(t: nat, shapes: seq<Shape>) {
    t % 64 == 0 && Start(shapes) <= t <= Start(shapes) + 64 * TRIES
  }

  /** The size leaves, modulo 64 * c, less than c for each of the channel counts c. */
  predicate AllAligned(t: nat, io: seq<Shape>) {
    forall k :: 0 <= k < |io| ==> io[k].channels > 0 && t % (64 * io[k].channels) < io[k].channels
  }

  lemma StrideAligned(t: nat, c: nat)
    requires c > 0
    ensures (t / c) % 64 == 0 <==> t % (64 * c) < c
  {
    var q, r := t / c, t % c;
    var a, b := q / 64, q % 64;
    var rest := c * b + r;
    RestBound(c, b, r);
    assert t == c * q + r;
    Regrouped(c, a, b);
    DivModUnique(t, 64 * c, a, rest);
  }

  lemma RestBound(c: nat, b: nat, r: nat)
    requires b < 64 && r < c
    ensures c * b + r < 64 * c && (c * b + r < c <==> b == 0)
  {
    assert c * b <= c * 63;
    if b > 0 { assert c * b >= c * 1; }
  }

  lemma Regrouped(c: nat, a: nat, b: nat)
    ensures c * (64 * a + b) == a * (64 * c) + c * b
  {
    assert c * (64 * a + b) == c * (64 * a) + c * b;
    assert c * (64 * a) == 64 * (c * a);
    assert a * (64 * c) == 64 * (a * c);
  }

  /** For a size that holds the tensor, the stride test is the alignment test. */
  lemma FitsIffAligned(t: nat, s: Shape)
    requires s.Ok() && s.Bytes() <= t
    ensures Fits(t, s) <==> t % (64 * s.channels) < s.channels
  {
    StrideAligned(t, s.channels);
    assert s.channels * (s.width * 2) == s.Bytes();
    DivLowerBound(t, s.channels, s.width * 2);
  }

  lemma AllFitIffAligned(t: nat, io: seq<Shape>)
    requires forall k :: 0 <= k < |io| ==> io[k].channels > 0 && io[k].Ok() && io[k].Bytes() <= t
    ensures AllFit(t, io) <==> AllAligned(t, io)
  {
    forall k | 0 <= k < |io| ensures Fits(t, io[k]) <==> t % (64 * io[k].channels) < io[k].channels {
      FitsIffAligned(t, io[k]);
    }
  }

  /** A size the search may settle on: a multiple of 64, large enough for every tensor. */
  ghost predicate Candidate(t: nat, shapes: seq<Shape>) {
    t % 64 == 0 && t >= MIN_SURFACE && forall k :: 0 <= k < |shapes| ==> shapes[k].Bytes() <= t
  }

  /** l is a common multiple of the channel counts. */
  ghost predicate CommonMultiple(l: nat, io: seq<Shape>) {
    l > 0 && forall k :: 0 <= k < |io| ==> io[k].channels > 0 && l % io[k].channels == 0
  }

  /** The size chosen for tensors of the given shapes with the given graph inputs and outputs: a candidate
      within reach, below which no candidate fits, and the last one if none does.  It fits all inputs and
      outputs exactly when some size within reach is aligned for all their channel counts, and it does if
      these have a common multiple of at most 40960. */
  ghost predicate Chosen(target: nat, shapes: seq<Shape>, io: seq<Shape>) {
    && Candidate(target, shapes) && InReach(target, shapes)
    && (forall k :: 0 <= k < |io| ==> io[k].channels > 0)
    && (forall t: nat :: t < target && Candidate(t, shapes) ==> !AllFit(t, io))
    && (AllFit(target, io) || target == Start(shapes) + 64 * TRIES)
    && (AllFit(target, io) <==> exists t: nat :: InReach(t, shapes) && AllAligned(t, io))
    && ((exists l: nat :: l <= TRIES && CommonMultiple(l, io)) ==> AllFit(target, io))
  }

  /** The per-graph choice. */
  method ChooseAlloc(shapes: seq<Shape>, ins: seq<Shape>, outs: seq<Shape>) returns (target: nat)
    requires forall k :: 0 <= k < |shapes| ==> shapes[k].Ok()
    requires forall k :: 0 <= k < |ins + outs| ==> (ins + outs)[k] in shapes
    ensures Chosen(target, shapes, ins + outs)
  {
    var m := MaxBytes(shapes);
    var start := RoundUp(if m < MIN_SURFACE then MIN_SURFACE else m, 64);
    ghost var io := ins + outs;
    IoShapesFit(shapes, io, start);
    var ok;
    ghost var tries;
    target, ok, tries := Search(ins, outs, start);
    SearchIsExact(shapes, io, start, target, ok, tries);
  }

  lemma IoShapesFit(shapes: seq<Shape>, io: seq<Shape>, start: nat)
    requires forall k :: 0 <= k < |shapes| ==> shapes[k].Ok()
    requires forall k :: 0 <= k < |io| ==> io[k] in shapes
    requires start == Start(shapes)
    ensures forall k :: 0 <= k < |io| ==> io[k].channels > 0 && io[k].Ok() && io[k].Bytes() <= start
  {
    forall k | 0 <= k < |io| ensures io[k].Ok() && io[k].Bytes() <= start {
      var j :| 0 <= j < |shapes| && shapes[j] == io[k];
    }
  }

  /** What the search loop promises amounts to the choice as specified. */
  lemma SearchIsExact(shapes: seq<Shape>, io: seq<Shape>, start: nat, target: nat, ok: bool, tries: nat)
    requires forall k :: 0 <= k < |io| ==> io[k].channels > 0 && io[k].Ok() && io[k].Bytes() <= start
    requires start == Start(shapes) && tries <= TRIES && target == start + 64 * tries && (ok <==> tries < TRIES)
    requires ok ==> AllFit(target, io)
    requires forall j :: 0 <= j < tries ==> !AllFit(start + 64 * j, io)
    ensures Chosen(target, shapes, io)
  {
    forall l: nat | l <= TRIES && CommonMultiple(l, io) ensures ok {
      var j := SearchSucceeds(io, start, l);
    }
    var fit := (t: nat) => AllFit(t, io);
    FirstOrLast(fit, start, tries);
    forall t: nat | t < target && Candidate(t, shapes) ensures !AllFit(t, io) {
      CandidateIsLarge(t, shapes, start);
      assert !fit(t);
    }
    FitsIffReachable(shapes, io, start, target);
    TargetIsCandidate(shapes, start, tries);
  }

  /** A search that stops at the first fitting of the TRIES + 1 sizes, or else at the last, stops at a
      fitting one exactly when there is one, and skips none. */
  lemma FirstOrLast(fit: nat -> bool, start: nat, tries: nat)
    requires start % 64 == 0 && tries <= TRIES && (tries < TRIES ==> fit(start + 64 * tries))
    requires forall j :: 0 <= j < tries ==> !fit(start + 64 * j)
    ensures fit(start + 64 * tries) <==> exists t: nat :: t % 64 == 0 && start <= t <= start + 64 * TRIES && fit(t)
    ensures forall t: nat :: t % 64 == 0 && start <= t < start + 64 * tries ==> !fit(t)
  {
    forall t: nat | t % 64 == 0 && start <= t < start + 64 * tries ensures !fit(t) {
      var j := (t - start) / 64;
      assert t == start + 64 * j;
    }
    if t: nat :| t % 64 == 0 && start <= t <= start + 64 * TRIES && fit(t) {
      var j := (t - start) / 64;
      assert t == start + 64 * j;
    }
  }

  lemma FitsIffReachable(shapes: seq<Shape>, io: seq<Shape>, start: nat, target: nat)
    requires forall k :: 0 <= k < |io| ==> io[k].channels > 0 && io[k].Ok() && io[k].Bytes() <= start
    requires start == Start(shapes)
    requires AllFit(target, io) <==> exists t: nat :: t % 64 == 0 && start <= t <= start + 64 * TRIES && AllFit(t, io)
    ensures AllFit(target, io) <==> exists t: nat :: InReach(t, shapes) && AllAligned(t, io)
  {
    if AllFit(target, io) {
      var t: nat :| t % 64 == 0 && start <= t <= start + 64 * TRIES && AllFit(t, io);
      AllFitIffAligned(t, io);
      assert InReach(t, shapes) && AllAligned(t, io);
    } else {
      forall t: nat | InReach(t, shapes) ensures !AllAligned(t, io) {
        AllFitIffAligned(t, io);
      }
    }
  }

  lemma TargetIsCandidate(shapes: seq<Shape>, start: nat, tries: nat)
    requires start == Start(shapes) && tries <= TRIES
    ensures Candidate(start + 64 * tries, shapes) && InReach(start + 64 * tries, shapes)
  {
  }

  lemma CandidateIsLarge(t: nat, shapes: seq<Shape>, start: nat)
    requires Candidate(t, shapes) && start == Start(shapes)
    ensures t >= start
  {
  }

  /** Among any 40960 consecutive multiples of 64 some multiple of 64 * l fits, for a common
      multiple l of the channel counts. */
  lemma SearchSucceeds(io: seq<Shape>, start: nat, l: nat) returns (j: nat)
    requires start % 64 == 0 && l <= TRIES && CommonMultiple(l, io)
    requires forall k :: 0 <= k < |io| ==> io[k].Ok() && io[k].Bytes() <= start
    ensures j < TRIES && AllFit(start + 64 * j, io)
  {
    var m := start / 64;
    var q := (m + l - 1) / l;
    j := q * l - m;
    assert 0 <= j < l;
    forall k | 0 <= k < |io| ensures Fits(start + 64 * j, io[k]) {
      var c := io[k].channels;
      assert start + 64 * j == 64 * (q * l);
      StrideOfMultiple(q, l, c);
      assert c * (io[k].width * 2) == io[k].Bytes();
      DivLowerBound(start + 64 * j, c, io[k].width * 2);
    }
  }

  lemma StrideOfMultiple(q: nat, l: nat, c: nat)
    requires c > 0 && l % c == 0
    ensures (64 * (q * l) / c) % 64 == 0
  {
    var d := l / c;
    assert l == d * c;
    assert 64 * (q * l) == (64 * (q * d)) * c by {
      assert q * l == (q * d) * c;
    }
    DivModUnique(64 * (q * l), c, 64 * (q * d), 0);
  }

  /** No size within reach fits both 16384 and 10000 channels. */
  lemma NothingFits(a: Shape, b: Shape, t: nat)
    requires a == Shape(1, 16384, 1, 16) && b == Shape(1, 10000, 1, 16)
    requires 524288 <= t <= 3145728 && t % 64 == 0
    ensures !Fits(t, a) || !Fits(t, b)
  {
    var j := (t - 524288) / 64;
    assert t == 524288 + 64 * j;
  }

  /** Without such a common multiple the search can run dry and keep a size that does not fit: with
      16384 and 10000 channels it stops at 3145728, where 10000 channels get a stride of 314. */
  lemma SearchCanRunDry(target: nat, a: Shape, b: Shape)
    requires a == Shape(1, 16384, 1, 16) && b == Shape(1, 10000, 1, 16) && Chosen(target, [a, b], [a, b])
    ensures a.Ok() && b.Ok() && target == 3145728 && !AllFit(target, [a, b]) && target / b.channels == 314
  {
    DryStart([a, b]);
    assert [a, b][0] == a && [a, b][1] == b;
    NothingFits(a, b, target);
    assert !AllFit(target, [a, b]);
  }

  lemma DryStart(shapes: seq<Shape>)
    requires shapes == [Shape(1, 16384, 1, 16), Shape(1, 10000, 1, 16)]
    ensures Start(shapes) == 524288 && Start(shapes) + 64 * TRIES == 3145728
  {
    assert shapes[0].Bytes() == 524288 && shapes[1].Bytes() == 320000;
    assert Largest(shapes) == 524288;
  }

  /** A small graph of 16 channels gets 49152 bytes, */
  lemma SixteenChannels(target: nat, shapes: seq<Shape>)
    requires shapes == [Shape(1, 16, 1, 16)] && Chosen(target, shapes, shapes)
    ensures target == 49152
  {
    assert Fits(49152, shapes[0]);
    assert Candidate(49152, shapes) && AllFit(49152, shapes);
  }

  /** one of five channels the next size that fits. */
  lemma FiveChannels(target: nat, shapes: seq<Shape>)
    requires shapes == [Shape(1, 5, 1, 16)] && Chosen(target, shapes, shapes)
    ensures target == 49280
  {
    assert Fits(49280, shapes[0]) && !Fits(49152, shapes[0]) && !Fits(49216, shapes[0]);
    assert Candidate(49280, shapes) && AllFit(49280, shapes);
    assert CommonMultiple(5, shapes);
    assert AllFit(target, shapes) && Fits(target, shapes[0]);
  }
}
