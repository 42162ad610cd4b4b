/** The piecewise-linear activation: generation of its nested selects, and the function they compute. */
module Pwl {
  import opened Names
  import opened Graph
  import opened Mil

  /** Equally spaced samples from xMin to xMax. */
  datatype Table = Table(xMin: real, xMax: real, samples: seq<real>)

  predicate Usable(t: Table) {
    |t.samples| >= 2 && t.xMin != t.xMax
  }

  function Segments(t: Table): nat
    requires Usable(t)
  {
    |t.samples| - 1
  }

  function Dx(t: Table): (d: real)
    requires Usable(t)
    ensures d != 0.0 && (t.xMin < t.xMax <==> d > 0.0)
  {
    (t.xMax - t.xMin) / Segments(t) as real
  }

  function Knot(t: Table, k: int): real
    requires Usable(t)
  {
    t.xMin + k as real * Dx(t)
  }

  function Slope(t: Table, i: nat): real
    requires Usable(t) && i < Segments(t)
  {
    (t.samples[i + 1] - t.samples[i]) * (1.0 / Dx(t))
  }

  function Intercept(t: Table, i: nat): real
    requires Usable(t) && i < Segments(t)
  {
    t.samples[i] - Slope(t, i) * Knot(t, i)
  }

  // ----- the generated code -----

  datatype Prim = ConstOp(v: real) | MulOp | SumOp | LessOp | SelectOp | IdentityOp

  /** One element of a tensor. */
  datatype Value = Num(r: real) | Flag(b: bool)

  function Times(x: real, y: real): real {
    x * y
  }

  function Apply1(p: Prim, args: seq<Value>): Value {
    match p
    case ConstOp(v) => Num(v)
    case MulOp => if |args| == 2 && args[0].Num? && args[1].Num? then Num(Times(args[0].r, args[1].r)) else Num(0.0)
    case SumOp => if |args| == 2 && args[0].Num? && args[1].Num? then Num(args[0].r + args[1].r) else Num(0.0)
    case LessOp => if |args| == 2 && args[0].Num? && args[1].Num? then Flag(args[0].r < args[1].r) else Num(0.0)
    case SelectOp => if |args| == 3 && args[0].Flag? then (if args[0].b then args[1] else args[2]) else Num(0.0)
    case IdentityOp => if |args| == 1 then args[0] else Num(0.0)
  }

  function Semantics(): Meaning<Prim, Value> {
    Meaning(Apply1, blob => Num(0.0))
  }

  type Env = map<Var, Value>

  function Perform(s: Stmt<Var, nat, Prim>, env: Env): Option<Env> {
    Exec(Semantics(), map[], s, env)
  }

  function Go(body: Template<Prim>, env: Env): Option<Env> {
    Run(Semantics(), map[], body, env)
  }

  /** A numbered internal variable. */
  function Numbered(tag: string, i: nat): Var {
    Local(tag + Digits(i))
  }

  /** a * x + b into dst. */
  function LineCode(t: Table, i: nat, dst: Var): Template<Prim>
    requires Usable(t) && i < Segments(t)
  {
    [Apply(Numbered("a", i), ConstOp(Slope(t, i)), []),
     Apply(Numbered("b", i), ConstOp(Intercept(t, i)), []),
     Apply(Numbered("t", i), MulOp, [In(0), Numbered("a", i)]),
     Apply(dst, SumOp, [Numbered("t", i), Numbered("b", i)])]
  }

  /** Choose segment i below its upper boundary, the result so far above it. */
  function ChooseCode(t: Table, i: nat, cur: Var): Template<Prim>
    requires Usable(t)
  {
    [Apply(Numbered("th", i), ConstOp(Knot(t, i + 1)), []),
     Apply(Numbered("mk", i), LessOp, [In(0), Numbered("th", i)]),
     Apply(Numbered("cr", i), SelectOp, [Numbered("mk", i), Numbered("y", i), cur])]
  }

  /** The code for segments i and above. */
  function Code(t: Table, i: nat): Template<Prim>
    requires Usable(t) && i < Segments(t)
    decreases Segments(t) - i
  {
    if i == Segments(t) - 1 then LineCode(t, i, Numbered("cr", i))
    else Code(t, i + 1) + LineCode(t, i, Numbered("y", i)) + ChooseCode(t, i, Numbered("cr", i + 1))
  }

  function Finish(): Template<Prim> {
    [Apply(Out, IdentityOp, [Numbered("cr", 0)])]
  }

  // ----- the function it computes -----

  function Line(t: Table, i: nat, x: real): real
    requires Usable(t) && i < Segments(t)
  {
    Times(x, Slope(t, i)) + Intercept(t, i)
  }

  /** The nested selects from segment i on. */
  function Nested(t: Table, i: nat, x: real): real
    requires Usable(t) && i < Segments(t)
    decreases Segments(t) - i
  {
    if i == Segments(t) - 1 then Line(t, i, x)
    else if x < Knot(t, i + 1) then Line(t, i, x)
    else Nested(t, i + 1, x)
  }

  /** What the generator makes of a table: it rejects fewer than two samples, and equal bounds make its
      coefficients infinite or undefined. */
  datatype Generated = Rejected | NotFinite | Emitted(body: Template<Prim>)

  method Generate(t: Table) returns (r: Generated)
    ensures r.Rejected? <==> |t.samples| < 2
    ensures r.NotFinite? <==> |t.samples| >= 2 && t.xMin == t.xMax
    ensures r.Emitted? ==> r.body == Code(t, 0) + Finish()
    ensures r.Emitted? ==> Sound(r.body, {In(0)}, 0)
    ensures r.Emitted? ==> forall x: real :: Computes(r.body, x, Nested(t, 0, x))
  {
    if |t.samples| < 2 { return Rejected; }
    var coefficients := Coefficients(t);
    if coefficients.None? { return NotFinite; }
    var n := Segments(t);
    var (a, b) := coefficients.value;
    var cur := Numbered("cr", n - 1);
    var body: Template<Prim> := [
      Apply(Numbered("a", n - 1), ConstOp(a[n - 1]), []),
      Apply(Numbered("b", n - 1), ConstOp(b[n - 1]), []),
      Apply(Numbered("t", n - 1), MulOp, [In(0), Numbered("a", n - 1)]),
      Apply(cur, SumOp, [Numbered("t", n - 1), Numbered("b", n - 1)])];
    assert body == LineCode(t, n - 1, cur);
    var i := n - 1;
    while i > 0
      invariant 0 <= i < n && cur == Numbered("cr", i) && body == Code(t, i)
    {
      i := i - 1;
      var line := [Apply(Numbered("a", i), ConstOp(a[i]), []),
                   Apply(Numbered("b", i), ConstOp(b[i]), []),
                   Apply(Numbered("t", i), MulOp, [In(0), Numbered("a", i)]),
                   Apply(Numbered("y", i), SumOp, [Numbered("t", i), Numbered("b", i)])];
      assert line == LineCode(t, i, Numbered("y", i));
      body := body + line + ChooseCode(t, i, cur);
      cur := Numbered("cr", i);
    }
    body := body + [Apply(Out, IdentityOp, [cur])];
    forall x: real ensures Computes(body, x, Nested(t, 0, x)) { CodeComputes(t, x); }
    CodeIsSound(t);
    return Emitted(body);
  }

  /** Slopes and intercepts of all segments; None if the spacing is zero. */
  method Coefficients(t: Table) returns (r: Option<(seq<real>, seq<real>)>)
    requires |t.samples| >= 2
    ensures r.None? <==> t.xMin == t.xMax
    ensures r.Some? ==> |r.value.0| == |r.value.1| == Segments(t)
    ensures r.Some? ==> forall i :: 0 <= i < Segments(t) ==>
              r.value.0[i] == Slope(t, i) && r.value.1[i] == Intercept(t, i)
  {
    var n := |t.samples| - 1;
    var dx := (t.xMax - t.xMin) / n as real;
    if dx == 0.0 { return None; }
    var dxInv := 1.0 / dx;
    var a: seq<real>, b: seq<real> := [], [];
    for i := 0 to n
      invariant |a| == |b| == i
      invariant forall j :: 0 <= j < i ==> a[j] == Slope(t, j) && b[j] == Intercept(t, j)
    {
      var slope := (t.samples[i + 1] - t.samples[i]) * dxInv;
      assert dx == Dx(t) && slope == Slope(t, i);
      a := a + [slope];
      b := b + [t.samples[i] - slope * (t.xMin + i as real * dx)];
    }
    return Some((a, b));
  }

  /** The code run on x leaves v in the output. */
  ghost predicate Computes(body: Template<Prim>, x: real, v: real) {
    var r := Go(body, map[In(0) := Num(x)]);
    r.Some? && Out in r.value && r.value[Out] == Num(v)
  }

  // ----- names -----

  predicate NoDigits(tag: string) {
    forall c <- tag :: !('0' <= c <= '9')
  }

  lemma TagChar(tag: string, rest: string, k: nat)
    requires NoDigits(tag) && k < |tag|
    ensures !('0' <= (tag + rest)[k] <= '9')
  {
    assert (tag + rest)[k] == tag[k] && tag[k] in tag;
  }

  lemma TagEnds(tag: string, i: nat, tag': string, j: nat)
    requires NoDigits(tag') && tag + Digits(i) == tag' + Digits(j)
    ensures |tag'| <= |tag|
  {
    var c := (tag + Digits(i))[|tag|];
    assert c == Digits(i)[0] && c in Digits(i);
    if |tag| < |tag'| { TagChar(tag', Digits(j), |tag|); }
  }

  lemma NumberedDistinct(tag: string, i: nat, tag': string, j: nat)
    requires NoDigits(tag) && NoDigits(tag') && Numbered(tag, i) == Numbered(tag', j)
    ensures tag == tag' && i == j
  {
    var s, s' := tag + Digits(i), tag' + Digits(j);
    assert s == s';
    assert s[|tag|] == Digits(i)[0] && s'[|tag'|] == Digits(j)[0];
    TagEnds(tag, i, tag', j);
    TagEnds(tag', j, tag, i);
    assert s[..|tag|] == tag && s'[..|tag|] == tag';
    assert s[|tag|..] == Digits(i) && s'[|tag|..] == Digits(j);
    DigitsInjective(i, j);
  }

  /** Nothing of the segments below i has been assigned, nor the output. */
  ghost predicate FreshBelow(env: Env, i: nat) {
    Out !in env && forall tag: string, j: nat :: NoDigits(tag) && j < i ==> Numbered(tag, j) !in env
  }

  /** Assigning a variable of segment i keeps the lower segments fresh. */
  lemma StaysFresh(env: Env, i: nat, tag: string, v: Value)
    requires FreshBelow(env, i) && NoDigits(tag)
    ensures FreshBelow(env[Numbered(tag, i) := v], i)
  {
    forall tag': string, j: nat | NoDigits(tag') && j < i ensures Numbered(tag', j) !in env[Numbered(tag, i) := v] {
      if Numbered(tag', j) == Numbered(tag, i) { NumberedDistinct(tag', j, tag, i); }
    }
  }

  // ----- running the code -----

  lemma RunStep(s: Stmt<Var, nat, Prim>, rest: Template<Prim>, env: Env, e: Env)
    requires Perform(s, env) == Some(e)
    ensures Go([s] + rest, env) == Go(rest, e)
  {
    assert ([s] + rest)[0] == s && ([s] + rest)[1..] == rest;
  }

  lemma ConstStep(d: Var, c: real, env: Env)
    requires d !in env
    ensures Perform(Apply(d, ConstOp(c), []), env) == Some(env[d := Num(c)])
  {
  }

  lemma TwoStep(d: Var, p: Prim, x: Var, y: Var, env: Env)
    requires d !in env && x in env && y in env && (p.MulOp? || p.SumOp? || p.LessOp?)
    ensures Perform(Apply(d, p, [x, y]), env) == Some(env[d := Apply1(p, [env[x], env[y]])])
  {
    var args := [x, y];
    assert forall k :: 0 <= k < |args| ==> args[k] in env;
    assert seq(|args|, k requires 0 <= k < |args| => env[args[k]]) == [env[x], env[y]];
  }

  lemma SelectStep(d: Var, m: Var, x: Var, y: Var, env: Env)
    requires d !in env && m in env && x in env && y in env
    ensures Perform(Apply(d, SelectOp, [m, x, y]), env) == Some(env[d := Apply1(SelectOp, [env[m], env[x], env[y]])])
  {
    var args := [m, x, y];
    assert seq(|args|, k requires 0 <= k < |args| => env[args[k]]) == [env[m], env[x], env[y]];
  }

  lemma LineRuns(body: Template<Prim>, va: Var, vb: Var, vt: Var, vd: Var, a: real, b: real, x: real, env: Env)
    requires body == [Apply(va, ConstOp(a), []), Apply(vb, ConstOp(b), []), Apply(vt, MulOp, [In(0), va]),
                      Apply(vd, SumOp, [vt, vb])]
    requires In(0) in env && env[In(0)] == Num(x) && va !in env && vb !in env && vt !in env && vd !in env
    requires va != vb && va != vt && va != vd && vb != vt && vb != vd && vt != vd
    ensures Go(body, env)
         == Some(env[va := Num(a)][vb := Num(b)][vt := Num(Times(x, a))][vd := Num(Times(x, a) + b)])
  {
    var s0, s1 := Apply(va, ConstOp(a), []), Apply(vb, ConstOp(b), []);
    var s2, s3 := Apply(vt, MulOp, [In(0), va]), Apply(vd, SumOp, [vt, vb]);
    var e1 := env[va := Num(a)];
    var e2 := e1[vb := Num(b)];
    var e3 := e2[vt := Num(Times(x, a))];
    var e4 := e3[vd := Num(Times(x, a) + b)];
    ConstStep(va, a, env);
    ConstStep(vb, b, e1);
    assert e2[In(0)] == Num(x) && e2[va] == Num(a) && e3[vt] == Num(Times(x, a)) && e3[vb] == Num(b);
    TwoStep(vt, MulOp, In(0), va, e2);
    TwoStep(vd, SumOp, vt, vb, e3);
    RunStep(s3, [], e3, e4);
    RunStep(s2, [s3], e2, e3);
    RunStep(s1, [s2, s3], e1, e2);
    RunStep(s0, [s1, s2, s3], env, e1);
    assert [s0, s1, s2, s3] == [s0] + [s1, s2, s3] && [s1, s2, s3] == [s1] + [s2, s3] && [s2, s3] == [s2] + [s3];
    assert [s3] + [] == [s3];
  }

  lemma ChooseRuns(vth: Var, vmk: Var, vcr: Var, vy: Var, cur: Var, th: real, x: real, y: real, c: real, env: Env)
    requires In(0) in env && env[In(0)] == Num(x) && vy in env && env[vy] == Num(y) && cur in env && env[cur] == Num(c)
    requires vth !in env && vmk !in env && vcr !in env && vth != vmk && vth != vcr && vmk != vcr
    ensures Go([Apply(vth, ConstOp(th), []), Apply(vmk, LessOp, [In(0), vth]),
                                     Apply(vcr, SelectOp, [vmk, vy, cur])], env)
         == Some(env[vth := Num(th)][vmk := Flag(x < th)][vcr := Num(if x < th then y else c)])
  {
    var s0, s1 := Apply(vth, ConstOp(th), []), Apply(vmk, LessOp, [In(0), vth]);
    var s2 := Apply(vcr, SelectOp, [vmk, vy, cur]);
    var e1 := env[vth := Num(th)];
    var e2 := e1[vmk := Flag(x < th)];
    var e3 := e2[vcr := Num(if x < th then y else c)];
    ConstStep(vth, th, env);
    TwoStep(vmk, LessOp, In(0), vth, e1);
    SelectStep(vcr, vmk, vy, cur, e2);
    RunStep(s2, [], e2, e3);
    RunStep(s1, [s2], e1, e2);
    RunStep(s0, [s1, s2], env, e1);
    assert [s0, s1, s2] == [s0] + [s1, s2] && [s1, s2] == [s1] + [s2] && [s2] + [] == [s2];
  }

  /** x is at hand and variable v holds c; the segments below i are untouched. */
  ghost predicate Holds(env: Env, x: real, i: nat, v: Var, c: real) {
    In(0) in env && env[In(0)] == Num(x) && v in env && env[v] == Num(c) && FreshBelow(env, i)
  }

  /** A line of segment i, into variable tag_i. */
  lemma LineHolds(t: Table, i: nat, tag: string, x: real, env: Env) returns (e: Env)
    requires Usable(t) && i < Segments(t) && FreshBelow(env, i + 1) && In(0) in env && env[In(0)] == Num(x)
    requires tag == "cr" || tag == "y"
    ensures Go(LineCode(t, i, Numbered(tag, i)), env) == Some(e)
    ensures Holds(e, x, i, Numbered(tag, i), Line(t, i, x))
    ensures forall v <- env :: v in e && e[v] == env[v]
    ensures forall v <- e :: v in env || v in {Numbered("a", i), Numbered("b", i), Numbered("t", i), Numbered(tag, i)}
  {
    var va, vb, vt, vd := Numbered("a", i), Numbered("b", i), Numbered("t", i), Numbered(tag, i);
    LineNames(i, tag);
    var c, d := Slope(t, i), Intercept(t, i);
    assert LineCode(t, i, vd) == [Apply(va, ConstOp(c), []), Apply(vb, ConstOp(d), []), Apply(vt, MulOp, [In(0), va]),
                                  Apply(vd, SumOp, [vt, vb])];
    LineRuns(LineCode(t, i, vd), va, vb, vt, vd, c, d, x, env);
    e := env[va := Num(c)][vb := Num(d)][vt := Num(Times(x, c))][vd := Num(Times(x, c) + d)];
    FreshWeaken(env, i);
    StaysFresh(env, i, "a", Num(c));
    StaysFresh(env[va := Num(c)], i, "b", Num(d));
    StaysFresh(env[va := Num(c)][vb := Num(d)], i, "t", Num(Times(x, c)));
    StaysFresh(env[va := Num(c)][vb := Num(d)][vt := Num(Times(x, c))], i, tag, Num(Times(x, c) + d));
  }

  lemma FreshWeaken(env: Env, i: nat)
    requires FreshBelow(env, i + 1)
    ensures FreshBelow(env, i)
  {
  }

  lemma LineNames(i: nat, tag: string)
    requires tag == "cr" || tag == "y"
    ensures var va, vb, vt, vd := Numbered("a", i), Numbered("b", i), Numbered("t", i), Numbered(tag, i);
            va != vb && va != vt && va != vd && vb != vt && vb != vd && vt != vd
  {
    Differ("a", "b", i);
    Differ("a", "t", i);
    Differ("a", tag, i);
    Differ("b", "t", i);
    Differ("b", tag, i);
    Differ("t", tag, i);
  }

  lemma Differ(tag: string, tag': string, i: nat)
    requires NoDigits(tag) && NoDigits(tag') && tag != tag'
    ensures Numbered(tag, i) != Numbered(tag', i)
  {
    if Numbered(tag, i) == Numbered(tag', i) { NumberedDistinct(tag, i, tag', i); }
  }

  /** The segment's choice, once its line and the result so far are known. */
  lemma ChooseHolds(t: Table, i: nat, x: real, y: real, c: real, before: Env, env: Env)
    returns (e: Env)
    requires Usable(t) && FreshBelow(before, i + 1) && Holds(env, x, i, Numbered("y", i), y)
    requires Numbered("cr", i + 1) in env && env[Numbered("cr", i + 1)] == Num(c)
    requires forall v <- env ::
               v in before || v in {Numbered("a", i), Numbered("b", i), Numbered("t", i), Numbered("y", i)}
    ensures Go(ChooseCode(t, i, Numbered("cr", i + 1)), env) == Some(e)
    ensures Holds(e, x, i, Numbered("cr", i), if x < Knot(t, i + 1) then y else c)
  {
    var vth, vmk, vcr := Numbered("th", i), Numbered("mk", i), Numbered("cr", i);
    var th := Knot(t, i + 1);
    NotYet(before, env, i, "th");
    NotYet(before, env, i, "mk");
    NotYet(before, env, i, "cr");
    Differ("th", "mk", i);
    Differ("th", "cr", i);
    Differ("mk", "cr", i);
    ChooseRuns(vth, vmk, vcr, Numbered("y", i), Numbered("cr", i + 1), th, x, y, c, env);
    var e1 := env[vth := Num(th)];
    var e2 := e1[vmk := Flag(x < th)];
    e := e2[vcr := Num(if x < th then y else c)];
    StaysFresh(env, i, "th", Num(th));
    StaysFresh(e1, i, "mk", Flag(x < th));
    StaysFresh(e2, i, "cr", Num(if x < th then y else c));
  }

  lemma NotYet(before: Env, env: Env, i: nat, tag: string)
    requires FreshBelow(before, i + 1) && NoDigits(tag) && tag != "a" && tag != "b" && tag != "t" && tag != "y"
    requires forall v <- env ::
               v in before || v in {Numbered("a", i), Numbered("b", i), Numbered("t", i), Numbered("y", i)}
    ensures Numbered(tag, i) !in env
  {
    Differ(tag, "a", i);
    Differ(tag, "b", i);
    Differ(tag, "t", i);
    Differ(tag, "y", i);
  }

  /** The code for segments i and above leaves the nested selects' value in cr_i. */
  lemma {:induction false} CodeHolds(t: Table, i: nat, x: real) returns (e: Env)
    requires Usable(t) && i < Segments(t)
    ensures Go(Code(t, i), map[In(0) := Num(x)]) == Some(e)
    ensures Holds(e, x, i, Numbered("cr", i), Nested(t, i, x))
    decreases Segments(t) - i
  {
    var start: Env := map[In(0) := Num(x)];
    if i == Segments(t) - 1 {
      e := LineHolds(t, i, "cr", x, start);
    } else {
      var e1 := CodeHolds(t, i + 1, x);
      var e2 := LineHolds(t, i, "y", x, e1);
      e := ChooseHolds(t, i, x, Line(t, i, x), Nested(t, i + 1, x), e1, e2);
      RunThree(Code(t, i + 1), LineCode(t, i, Numbered("y", i)), ChooseCode(t, i, Numbered("cr", i + 1)),
               start, e1, e2, e);
    }
  }

  lemma RunThree(a: Template<Prim>, b: Template<Prim>, c: Template<Prim>, e0: Env, e1: Env,
                 e2: Env, e3: Env)
    requires Go(a, e0) == Some(e1) && Go(b, e1) == Some(e2)
    requires Go(c, e2) == Some(e3)
    ensures Go(a + b + c, e0) == Some(e3)
  {
    RunConcat(Semantics(), map[], a, b, e0);
    RunConcat(Semantics(), map[], a + b, c, e0);
  }

  /** The generated code computes the nested selects. */
  lemma CodeComputes(t: Table, x: real)
    requires Usable(t)
    ensures Computes(Code(t, 0) + Finish(), x, Nested(t, 0, x))
  {
    var start: Env := map[In(0) := Num(x)];
    var e := CodeHolds(t, 0, x);
    RunConcat(Semantics(), map[], Code(t, 0), Finish(), start);
    var cr := Numbered("cr", 0);
    var args := [cr];
    assert seq(|args|, k requires 0 <= k < |args| => e[args[k]]) == [e[cr]];
    var last := Apply(Out, IdentityOp, [cr]);
    assert Perform(last, e) == Some(e[Out := e[cr]]);
    RunStep(last, [], e, e[Out := e[cr]]);
    assert [last] + [] == Finish();
  }

  // ----- soundness of the code -----

  ghost predicate AppliesOnly(body: Template<Prim>) {
    forall k :: 0 <= k < |body| ==> body[k].Apply? && !body[k].dst.In?
  }

  /** Code without weights that runs to completion assigns each variable once and after its arguments. */
  lemma {:induction false} RunningIsSound(body: Template<Prim>, env: Env)
    requires AppliesOnly(body)
    requires Go(body, env).Some? && Out in Go(body, env).value
    ensures Sound(body, env.Keys, 0)
    decreases |body|
  {
    if body != [] {
      var e := Perform(body[0], env);
      assert e.value.Keys == env.Keys + {body[0].dst};
      RunningIsSound(body[1..], e.value);
    }
  }

  lemma {:induction false} CodeAppliesOnly(t: Table, i: nat)
    requires Usable(t) && i < Segments(t)
    ensures AppliesOnly(Code(t, i))
    decreases Segments(t) - i
  {
    if i < Segments(t) - 1 { CodeAppliesOnly(t, i + 1); }
  }

  lemma CodeIsSound(t: Table)
    requires Usable(t)
    ensures Sound(Code(t, 0) + Finish(), {In(0)}, 0)
  {
    CodeComputes(t, 0.0);
    CodeAppliesOnly(t, 0);
    var start: Env := map[In(0) := Num(0.0)];
    RunningIsSound(Code(t, 0) + Finish(), start);
    assert start.Keys == {In(0)};
  }

  // ----- the interpolant -----

  /** The straight line through samples i and i + 1, stated by its two end points. */
  function Lerp(t: Table, i: nat, x: real): real
    requires Usable(t) && i < Segments(t)
  {
    t.samples[i] + (t.samples[i + 1] - t.samples[i]) * ((x - Knot(t, i)) / (Knot(t, i + 1) - Knot(t, i)))
  }

  lemma KnotStep(t: Table, i: int)
    requires Usable(t)
    ensures Knot(t, i + 1) - Knot(t, i) == Dx(t)
  {
  }

  lemma LineIsLerp(t: Table, i: nat, x: real)
    requires Usable(t) && i < Segments(t)
    ensures Line(t, i, x) == Lerp(t, i, x)
  {
    KnotStep(t, i);
    LineShape(t.samples[i], t.samples[i + 1], Dx(t), Knot(t, i), x);
  }

  lemma LineShape(s0: real, s1: real, d: real, k: real, x: real)
    requires d != 0.0
    ensures var a := (s1 - s0) * (1.0 / d);
            x * a + (s0 - a * k) == s0 + (s1 - s0) * ((x - k) / d)
  {
    var u := 1.0 / d;
    assert (x - k) / d == (x - k) * u;
    var a := (s1 - s0) * u;
    assert x * a - a * k == (x - k) * a;
    assert (x - k) * a == (s1 - s0) * ((x - k) * u);
  }

  /** Segment i contains x, in either direction of the table; the first and the last segment extend
      beyond it. */
  ghost predicate Contains(t: Table, i: nat, x: real)
    requires Usable(t)
  {
    && i < Segments(t)
    && if t.xMin < t.xMax
       then (i == 0 || Knot(t, i) <= x) && (i == Segments(t) - 1 || x < Knot(t, i + 1))
       else (i == 0 || x <= Knot(t, i)) && (i == Segments(t) - 1 || Knot(t, i + 1) < x)
  }

  lemma KnotsDecrease(t: Table, i: int, j: int)
    requires Usable(t) && t.xMin > t.xMax && i <= j
    ensures Knot(t, i) >= Knot(t, j) && (i < j ==> Knot(t, i) > Knot(t, j))
  {
    var d, u, v := Dx(t), i as real, j as real;
    assert v * d - u * d == (v - u) * d;
  }

  lemma KnotsIncrease(t: Table, i: int, j: int)
    requires Usable(t) && t.xMin < t.xMax && i <= j
    ensures Knot(t, i) <= Knot(t, j) && (i < j ==> Knot(t, i) < Knot(t, j))
  {
    var d, u, v := Dx(t), i as real, j as real;
    assert v * d - u * d == (v - u) * d;
  }

  /** The selects started at segment j reach segment i. */
  lemma {:induction false} NestedReaches(t: Table, j: nat, i: nat, x: real)
    requires Usable(t) && t.xMin < t.xMax && Contains(t, i, x) && j <= i
    ensures Nested(t, j, x) == Line(t, i, x)
    decreases i - j
  {
    if j < i {
      KnotsIncrease(t, j + 1, i);
      NestedReaches(t, j + 1, i, x);
    }
  }

  /** The generated function is the linear interpolant of the segment containing x. */
  lemma NestedIsInterpolant(t: Table, i: nat, x: real)
    requires Usable(t) && t.xMin < t.xMax && Contains(t, i, x)
    ensures Nested(t, 0, x) == Lerp(t, i, x)
  {
    NestedReaches(t, 0, i, x);
    LineIsLerp(t, i, x);
  }

  /** Exactly one segment contains x. */
  lemma OneSegment(t: Table, x: real)
    requires Usable(t)
    ensures exists i: nat :: Contains(t, i, x)
    ensures forall i: nat, j: nat :: Contains(t, i, x) && Contains(t, j, x) ==> i == j
  {
    var i := 0;
    while i < Segments(t) - 1 && (if t.xMin < t.xMax then Knot(t, i + 1) <= x else x <= Knot(t, i + 1))
      invariant 0 <= i < Segments(t)
      invariant i == 0 || if t.xMin < t.xMax then Knot(t, i) <= x else x <= Knot(t, i)
    {
      i := i + 1;
    }
    assert Contains(t, i, x);
    forall i: nat, j: nat | Contains(t, i, x) && Contains(t, j, x) ensures i == j {
      NotBoth(t, i, j, x);
      NotBoth(t, j, i, x);
    }
  }

  lemma NotBoth(t: Table, i: nat, j: nat, x: real)
    requires Usable(t) && Contains(t, i, x) && Contains(t, j, x)
    ensures i >= j
  {
    if i < j {
      if t.xMin < t.xMax { KnotsIncrease(t, i + 1, j); } else { KnotsDecrease(t, i + 1, j); }
    }
  }

  /** The end points of a segment's line are its samples. */
  lemma LineEnds(t: Table, i: nat)
    requires Usable(t) && i < Segments(t)
    ensures Line(t, i, Knot(t, i)) == t.samples[i] && Line(t, i, Knot(t, i + 1)) == t.samples[i + 1]
  {
    LineIsLerp(t, i, Knot(t, i));
    LineIsLerp(t, i, Knot(t, i + 1));
    KnotStep(t, i);
  }

  // ----- tables given from right to left -----

  /** From right to left the thresholds decrease, so only the first and the last segment are ever chosen. */
  lemma ReversedValue(t: Table, x: real)
    requires Usable(t) && t.xMin > t.xMax
    ensures Nested(t, 0, x) == if Segments(t) == 1 || x < Knot(t, 1) then Line(t, 0, x) else Line(t, Segments(t) - 1, x)
  {
    if Segments(t) > 1 && x >= Knot(t, 1) { ReversedRest(t, 1, x); }
  }

  lemma {:induction false} ReversedRest(t: Table, i: nat, x: real)
    requires Usable(t) && t.xMin > t.xMax && i < Segments(t) && x >= Knot(t, i)
    ensures Nested(t, i, x) == Line(t, Segments(t) - 1, x)
    decreases Segments(t) - i
  {
    if i < Segments(t) - 1 {
      KnotsDecrease(t, i, i + 1);
      ReversedRest(t, i + 1, x);
    }
  }

  /** The samples lie on one straight line. */
  predicate Straight(t: Table) {
    forall i :: 0 <= i < |t.samples| - 1 ==> t.samples[i + 1] - t.samples[i] == t.samples[1] - t.samples[0]
  }

  ghost predicate Interpolates(t: Table)
    requires Usable(t)
  {
    forall i: nat, x: real :: Contains(t, i, x) ==> Nested(t, 0, x) == Lerp(t, i, x)
  }

  ghost predicate MeetsSamples(t: Table)
    requires Usable(t)
  {
    forall k: nat :: k < |t.samples| ==> Nested(t, 0, Knot(t, k)) == t.samples[k]
  }

  /** Where all samples lie on one line, every segment's line is that line. */
  lemma {:induction false} StraightLines(t: Table, i: nat, x: real)
    requires Usable(t) && Straight(t) && i < Segments(t)
    ensures Line(t, i, x) == Line(t, 0, x)
  {
    if i > 0 {
      StraightLines(t, i - 1, x);
      LineEnds(t, i - 1);
      LineEnds(t, i);
      SameLine(t, i - 1, i, x);
    }
  }

  /** Lines of equal slope that share a point are equal. */
  lemma SameLine(t: Table, i: nat, j: nat, x: real)
    requires Usable(t) && i < Segments(t) && j < Segments(t) && Slope(t, i) == Slope(t, j)
    requires Line(t, i, Knot(t, j)) == Line(t, j, Knot(t, j))
    ensures Line(t, i, x) == Line(t, j, x)
  {
    var k, a := Knot(t, j), Slope(t, i);
    assert Times(k, a) + Intercept(t, i) == Times(k, a) + Intercept(t, j);
  }

  /** If the first line meets all samples they lie on it. */
  lemma FirstLineMeets(t: Table)
    requires Usable(t) && forall k: nat :: k < |t.samples| ==> Line(t, 0, Knot(t, k)) == t.samples[k]
    ensures Straight(t)
  {
    forall i | 0 <= i < |t.samples| - 1 ensures t.samples[i + 1] - t.samples[i] == t.samples[1] - t.samples[0] {
      LineStep(t, 0, i);
      LineStep(t, 0, 0);
    }
  }

  lemma LineStep(t: Table, i: nat, k: nat)
    requires Usable(t) && i < Segments(t)
    ensures Line(t, i, Knot(t, k + 1)) - Line(t, i, Knot(t, k)) == Times(Dx(t), Slope(t, i))
  {
    KnotStep(t, k);
    var u, v, a := Knot(t, k), Knot(t, k + 1), Slope(t, i);
    assert Times(v, a) - Times(u, a) == Times(v - u, a);
  }

  lemma ReversedStraight(t: Table)
    requires Usable(t) && t.xMin > t.xMax && MeetsSamples(t)
    ensures Straight(t)
  {
    forall k: nat | k < |t.samples| ensures Line(t, 0, Knot(t, k)) == t.samples[k] {
      LineEnds(t, 0);
      if k >= 2 {
        KnotsDecrease(t, 1, k);
        ReversedValue(t, Knot(t, k));
        assert Nested(t, 0, Knot(t, k)) == t.samples[k];
      }
    }
    FirstLineMeets(t);
  }

  /** Each knot lies in a segment of which it is an end point. */
  lemma KnotContained(t: Table, k: nat) returns (i: nat)
    requires Usable(t) && k < |t.samples|
    ensures Contains(t, i, Knot(t, k)) && Line(t, i, Knot(t, k)) == t.samples[k]
  {
    i := if k == Segments(t) then k - 1 else k;
    LineEnds(t, i);
    if t.xMin < t.xMax {
      KnotsIncrease(t, i, k);
      KnotsIncrease(t, k, k + 1);
    } else {
      KnotsDecrease(t, i, k);
      KnotsDecrease(t, k, k + 1);
    }
  }

  lemma InterpolationMeets(t: Table)
    requires Usable(t) && Interpolates(t)
    ensures MeetsSamples(t)
  {
    forall k: nat | k < |t.samples| ensures Nested(t, 0, Knot(t, k)) == t.samples[k] {
      var i := KnotContained(t, k);
      LineIsLerp(t, i, Knot(t, k));
    }
  }

  /** The code interpolates its table, and meets all its samples, exactly when the bounds are given from left
      to right or the samples lie on one line. */
  lemma InterpolatesIff(t: Table)
    requires Usable(t)
    ensures Interpolates(t) <==> t.xMin < t.xMax || Straight(t)
    ensures MeetsSamples(t) <==> t.xMin < t.xMax || Straight(t)
  {
    if t.xMin < t.xMax || Straight(t) {
      forall i: nat, x: real | Contains(t, i, x) ensures Nested(t, 0, x) == Lerp(t, i, x) {
        if t.xMin < t.xMax {
          NestedIsInterpolant(t, i, x);
        } else {
          LineIsLerp(t, i, x);
          ReversedValue(t, x);
          StraightLines(t, i, x);
          StraightLines(t, Segments(t) - 1, x);
        }
      }
    }
    if Interpolates(t) { InterpolationMeets(t); }
    if t.xMin > t.xMax && MeetsSamples(t) { ReversedStraight(t); }
  }

  // ----- continuity -----

  function Abs(x: real): real {
    if x < 0.0 then -x else x
  }

  /** No segment is steeper than m. */
  ghost predicate Bounded(t: Table, m: real)
    requires Usable(t)
  {
    forall i :: 0 <= i < Segments(t) ==> Abs(Slope(t, i)) <= m
  }

  /** The steepest segment's slope. */
  function Steepest(t: Table, n: nat): (m: real)
    requires Usable(t) && n <= Segments(t)
    ensures m >= 0.0 && forall i :: 0 <= i < n ==> Abs(Slope(t, i)) <= m
  {
    if n == 0 then 0.0
    else
      var m := Steepest(t, n - 1);
      if Abs(Slope(t, n - 1)) > m then Abs(Slope(t, n - 1)) else m
  }

  lemma LineLipschitz(t: Table, i: nat, m: real, x: real, y: real)
    requires Usable(t) && i < Segments(t) && Abs(Slope(t, i)) <= m && x <= y
    ensures Abs(Line(t, i, x) - Line(t, i, y)) <= Times(m, y - x)
  {
    Steep(Slope(t, i), m, x, y);
  }

  lemma Steep(a: real, m: real, x: real, y: real)
    requires Abs(a) <= m && x <= y
    ensures Abs(Times(x, a) - Times(y, a)) <= Times(m, y - x)
  {
    var d := y - x;
    assert Times(x, a) - Times(y, a) == -(a * d);
    assert (m - a) * d >= 0.0 && (m + a) * d >= 0.0;
    assert (m - a) * d == m * d - a * d && (m + a) * d == m * d + a * d;
  }

  lemma TimesSplit(m: real, x: real, k: real, y: real)
    ensures Times(m, k - x) + Times(m, y - k) == Times(m, y - x)
  {
  }

  /** The pieces meet: at the upper boundary of segment i the rest takes over with the same value. */
  lemma PiecesMeet(t: Table, i: nat)
    requires Usable(t) && t.xMin < t.xMax && i + 1 < Segments(t)
    ensures Nested(t, i + 1, Knot(t, i + 1)) == Line(t, i, Knot(t, i + 1))
  {
    KnotsIncrease(t, i + 1, i + 2);
    LineEnds(t, i);
    LineEnds(t, i + 1);
  }

  lemma {:induction false} NestedLipschitz(t: Table, i: nat, m: real, x: real, y: real)
    requires Usable(t) && t.xMin < t.xMax && i < Segments(t) && Bounded(t, m) && x <= y
    ensures Abs(Nested(t, i, x) - Nested(t, i, y)) <= Times(m, y - x)
    decreases Segments(t) - i
  {
    LineLipschitz(t, i, m, x, y);
    if i < Segments(t) - 1 && Knot(t, i + 1) <= y {
      var k := Knot(t, i + 1);
      if k <= x {
        NestedLipschitz(t, i + 1, m, x, y);
      } else {
        LineLipschitz(t, i, m, x, k);
        NestedLipschitz(t, i + 1, m, k, y);
        PiecesMeet(t, i);
        TimesSplit(m, x, k, y);
      }
    }
  }

  lemma EitherOrder(t: Table, m: real, x: real, y: real)
    requires Usable(t) && t.xMin < t.xMax && Bounded(t, m)
    ensures Abs(Nested(t, 0, x) - Nested(t, 0, y)) <= Times(m, Abs(x - y))
  {
    if x <= y { NestedLipschitz(t, 0, m, x, y); } else { NestedLipschitz(t, 0, m, y, x); }
  }

  /** The function is continuous, with the steepest segment's slope as Lipschitz constant. */
  lemma Continuous(t: Table, x: real, y: real)
    requires Usable(t) && t.xMin < t.xMax
    ensures Abs(Nested(t, 0, x) - Nested(t, 0, y)) <= Times(Steepest(t, Segments(t)), Abs(x - y))
  {
    EitherOrder(t, Steepest(t, Segments(t)), x, y);
  }

  ghost predicate Lipschitz(t: Table, m: real)
    requires Usable(t)
  {
    forall x: real, y: real :: Abs(Nested(t, 0, x) - Nested(t, 0, y)) <= Times(m, Abs(x - y))
  }

  /** The first and the last line agree at the first threshold. */
  predicate EndsMeet(t: Table)
    requires Usable(t)
  {
    Line(t, 0, Knot(t, 1)) == Line(t, Segments(t) - 1, Knot(t, 1))
  }

  /** The code computes a Lipschitz continuous function exactly when the bounds are given from left to right
      or the first and the last segment's lines meet at the first threshold. */
  lemma LipschitzIff(t: Table)
    requires Usable(t)
    ensures (exists m :: Lipschitz(t, m)) <==> t.xMin < t.xMax || EndsMeet(t)
  {
    var s := Steepest(t, Segments(t));
    if t.xMin < t.xMax || EndsMeet(t) {
      forall x: real, y: real ensures Abs(Nested(t, 0, x) - Nested(t, 0, y)) <= Times(s, Abs(x - y)) {
        if t.xMin < t.xMax { Continuous(t, x, y); } else { ReversedEither(t, s, x, y); }
      }
      assert Lipschitz(t, s);
    } else {
      forall m: real ensures !Lipschitz(t, m) { JumpIsNotLipschitz(t, m); }
    }
  }

  lemma ReversedEither(t: Table, m: real, x: real, y: real)
    requires Usable(t) && t.xMin > t.xMax && EndsMeet(t) && Bounded(t, m)
    ensures Abs(Nested(t, 0, x) - Nested(t, 0, y)) <= Times(m, Abs(x - y))
  {
    if x <= y { ReversedLipschitz(t, m, x, y); } else { ReversedLipschitz(t, m, y, x); }
  }

  lemma ReversedLipschitz(t: Table, m: real, x: real, y: real)
    requires Usable(t) && t.xMin > t.xMax && EndsMeet(t) && Bounded(t, m) && x <= y
    ensures Abs(Nested(t, 0, x) - Nested(t, 0, y)) <= Times(m, y - x)
  {
    var k, last := Knot(t, 1), Segments(t) - 1;
    ReversedValue(t, x);
    ReversedValue(t, y);
    LineLipschitz(t, 0, m, x, y);
    LineLipschitz(t, last, m, x, y);
    if x < k <= y {
      LineLipschitz(t, 0, m, x, k);
      LineLipschitz(t, last, m, k, y);
      TimesSplit(m, x, k, y);
    }
  }

  /** A jump of size gap beats every slope on a short enough step. */
  lemma ShortStep(gap: real, m: real, a: real) returns (e: real)
    requires gap > 0.0 && a >= 0.0
    ensures e > 0.0 && Times(m, e) + Times(a, e) < gap
  {
    var c := Abs(m) + a + 1.0;
    e := gap / (2.0 * c);
    assert e * (2.0 * c) == gap;
    assert Times(c, e) == gap / 2.0;
    PositiveTimes(c - m - a, e);
    assert Times(c - m - a, e) == Times(c, e) - Times(m, e) - Times(a, e);
  }

  lemma PositiveTimes(x: real, y: real)
    requires x >= 0.0 && y >= 0.0
    ensures Times(x, y) >= 0.0
  {
  }

  lemma JumpIsNotLipschitz(t: Table, m: real)
    requires Usable(t) && t.xMin > t.xMax && !EndsMeet(t)
    ensures !Lipschitz(t, m)
  {
    var k, last, a := Knot(t, 1), Segments(t) - 1, Abs(Slope(t, 0));
    var gap := Abs(Line(t, 0, k) - Line(t, last, k));
    var e := ShortStep(gap, m, a);
    var x := k - e;
    ReversedValue(t, x);
    ReversedValue(t, k);
    LineLipschitz(t, 0, a, x, k);
    assert Nested(t, 0, x) == Line(t, 0, x) && Nested(t, 0, k) == Line(t, last, k);
    assert Abs(x - k) == e && k - x == e;
    assert Abs(Nested(t, 0, x) - Nested(t, 0, k)) > Times(m, Abs(x - k));
  }

  // ----- tables on which the code fails -----

  /** The tent 1, 0, 1 given from right to left is not interpolated, and not all its samples are met. */
  lemma ReversedTent(t: Table)
    requires t == Table(1.0, -1.0, [1.0, 0.0, 1.0])
    ensures Usable(t) && !Interpolates(t) && !MeetsSamples(t)
  {
    assert t.samples[1 + 1] - t.samples[1] != t.samples[1] - t.samples[0];
    assert !Straight(t);
    InterpolatesIff(t);
  }

  /** The step 0, 0, 1, 1 given from right to left jumps. */
  lemma ReversedStep(t: Table)
    requires t == Table(3.0, 0.0, [0.0, 0.0, 1.0, 1.0])
    ensures Usable(t) && !EndsMeet(t) && !exists m :: Lipschitz(t, m)
  {
    EndsApart(t);
    LipschitzIff(t);
  }

  lemma EndsApart(t: Table)
    requires Usable(t) && |t.samples| == 4 && t.samples[1] == 0.0 && t.samples[2] == t.samples[3] == 1.0
    ensures !EndsMeet(t)
  {
    LineEnds(t, 0);
    LineEnds(t, 2);
    LineStep(t, 2, 1);
    LineStep(t, 2, 2);
  }

  // ----- the activation as a graph node -----

  /** A backend that emits this code for node i gives the node the nested selects as its meaning, which is
      the interpolant if the bounds are given from left to right or the samples lie on one line. */
  lemma ActivationNode(be: Backend<Prim, Value>, g: Graph, i: nat, t: Table, x: real, k: nat)
    requires Usable(t) && i < |g.nodes| && |g.nodes[i].inputs| == 1
    requires be.meaning == Semantics() && be.emit(g, g.nodes[i]) == Some(Code(t, 0) + Finish())
    requires Contains(t, k, x)
    ensures EmitsSound(be, g, i) && NodeValue(be, g, i, [Num(x)]) == Num(Nested(t, 0, x))
    ensures t.xMin < t.xMax || Straight(t) ==> NodeValue(be, g, i, [Num(x)]) == Num(Lerp(t, k, x))
  {
    var n, body := g.nodes[i], Code(t, 0) + Finish();
    CodeIsSound(t);
    assert Inputs(1) == {In(0)};
    MoreFiles(body, {In(0)}, |Blobs(g, n)|);
    assert EmitsSound(be, g, i);
    CodeComputes(t, x);
    CodeAppliesOnly(t, 0);
    assert InputEnv([Num(x)]) == map[In(0) := Num(x)];
    FilesUnused(body, OwnFiles(g, n), map[In(0) := Num(x)]);
    InterpolatesIff(t);
  }

  lemma {:induction false} MoreFiles(body: Template<Prim>, defined: set<Var>, files: nat)
    requires Sound(body, defined, 0)
    ensures Sound(body, defined, files)
    decreases |body|
  {
    if body != [] { MoreFiles(body[1..], defined + {body[0].dst}, files); }
  }

  lemma {:induction false} FilesUnused(body: Template<Prim>, files: map<nat, Blob>, env: Env)
    requires AppliesOnly(body)
    ensures Run(Semantics(), files, body, env) == Go(body, env)
    decreases |body|
  {
    if body != [] {
      var e := Perform(body[0], env);
      if e.Some? { FilesUnused(body[1..], files, e.value); }
    }
  }
}
