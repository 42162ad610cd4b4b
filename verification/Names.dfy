/** The names that node creation and lowering build out of numeric ids: tensor variables,
    fragment-local variables and weight files.  Everything here is about those names never
    colliding. */
module Names {

  /** Decimal rendering of an id (std::to_string on an unsigned value). */
  function Digits(n: nat): (s: string)
    ensures s != []
    ensures forall c :: c in s ==> '0' <= c <= '9'
  {
    var d := ['0' + (n % 10) as char];
    if n < 10 then d else Digits(n / 10) + d
  }

  /** Inverse of Digits. */
  function Number(s: string): int
  {
    if s == [] then 0 else 10 * Number(s[..|s| - 1]) + (s[|s| - 1] as int - '0' as int)
  }

  lemma {:induction false} DigitsRoundTrip(n: nat)
    ensures Number(Digits(n)) == n
  {
    var s := Digits(n);
    var d := ['0' + (n % 10) as char];
    if n < 10 {
      assert s[..|s| - 1] == [];
    } else {
      DigitsRoundTrip(n / 10);
      assert s == Digits(n / 10) + d && s[..|s| - 1] == Digits(n / 10);
    }
  }

  lemma DigitsInjective(a: nat, b: nat)
    requires Digits(a) == Digits(b)
    ensures a == b
  {
    DigitsRoundTrip(a);
    DigitsRoundTrip(b);
  }

  /** The program variable of a tensor. */
  function TensorVar(id: nat): string {
    "t" + Digits(id)
  }

  /** An internal variable of the fragment whose output variable is `out`. */
  function LocalVar(out: string, suffix: string): string {
    out + "_" + suffix
  }

  /** The weight file of a node. */
  function WeightFile(id: nat): string {
    "w" + Digits(id) + ".bin"
  }

  /** The second weight file, derived from the first by replacing its four-letter extension. */
  function BetaFile(file: string): string {
    if |file| > 4 then file[..|file| - 4] + "b.bin" else file
  }

  /** The part of a variable name before its first underscore. */
  function Stem(name: string): string {
    if name == [] || name[0] == '_' then [] else [name[0]] + Stem(name[1..])
  }

  lemma {:induction false} StemOfPrefix(p: string, rest: string)
    requires '_' !in p
    requires rest == [] || rest[0] == '_'
    ensures Stem(p + rest) == p
  {
    if p == [] {
      assert p + rest == rest;
    } else {
      assert (p + rest)[1..] == p[1..] + rest;
      StemOfPrefix(p[1..], rest);
    }
  }

  /** Both the variable of a tensor and every internal variable of its fragment lead back to
      that tensor, whatever the suffix. */
  lemma VariableStems(id: nat, suffix: string)
    ensures Stem(TensorVar(id)) == TensorVar(id)
    ensures Stem(LocalVar(TensorVar(id), suffix)) == TensorVar(id)
    ensures LocalVar(TensorVar(id), suffix) != TensorVar(id)
  {
    var v := TensorVar(id);
    StemOfPrefix(v, []);
    assert v + [] == v;
    StemOfPrefix(v, "_" + suffix);
    assert v + ("_" + suffix) == LocalVar(v, suffix);
  }

  lemma TensorVarInjective(a: nat, b: nat)
    requires TensorVar(a) == TensorVar(b)
    ensures a == b
  {
    assert TensorVar(a)[1..] == Digits(a) && TensorVar(b)[1..] == Digits(b);
    DigitsInjective(a, b);
  }

  /** No two weight files coincide: neither two first files, nor two derived ones, nor one of
      each kind. */
  lemma WeightFilesDistinct(a: nat, b: nat)
    ensures BetaFile(WeightFile(a)) == "w" + Digits(a) + "b.bin"
    ensures BetaFile(WeightFile(a)) != WeightFile(b)
    ensures a != b ==> WeightFile(a) != WeightFile(b)
    ensures a != b ==> BetaFile(WeightFile(a)) != BetaFile(WeightFile(b))
  {
    var da, db := Digits(a), Digits(b);
    var fa, fb := WeightFile(a), WeightFile(b);
    assert fa[..|fa| - 4] == "w" + da;
    var ba := "w" + da + "b.bin";
    assert ba[|ba| - 5] == 'b';
    assert fb[|fb| - 5] == db[|db| - 1];
    if a != b {
      assert fa[1..|fa| - 4] == da && fb[1..|fb| - 4] == db;
      var bb := "w" + db + "b.bin";
      assert ba[1..|ba| - 5] == da && bb[1..|bb| - 5] == db;
      assert fb[..|fb| - 4] == "w" + db;
      if da == db { DigitsInjective(a, b); }
    }
  }
}
