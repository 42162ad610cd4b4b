/** What the order of the signature is: dictionary order of names, and what that means for tensor ids. */
module NameOrder {
  import opened Names
  import opened Graph
  import opened Fusion
  import opened Mil
  import opened Binding

  // ----- dictionary order -----

  /** a and b first differ at position i, where a is smaller. */
  predicate DiffersAt(a: string, b: string, i: nat) {
    i < |a| && i < |b| && a[..i] == b[..i] && a[i] < b[i]
  }

  lemma SameStart(a: string, b: string, i: nat)
    requires i <= |a| && i <= |b| && a[..i] == b[..i]
    ensures i > 0 ==> a[0] == b[0]
  {
    if i > 0 { assert a[..i][0] == b[..i][0]; }
  }

  /** One name comes no later than another exactly when it is a prefix of it or smaller at the first
      difference. */
  lemma {:induction false} DictionaryOrder(a: string, b: string)
    ensures AtMost(a, b) <==> a <= b || exists i: nat :: DiffersAt(a, b, i)
  {
    if a != [] && b != [] && a[0] == b[0] {
      DictionaryOrder(a[1..], b[1..]);
      assert a == [a[0]] + a[1..] && b == [b[0]] + b[1..];
      forall i: nat | DiffersAt(a[1..], b[1..], i) ensures DiffersAt(a, b, i + 1) {
        assert a[..i + 1] == [a[0]] + a[1..][..i] && b[..i + 1] == [b[0]] + b[1..][..i];
      }
      forall i: nat | DiffersAt(a, b, i) ensures i > 0 && DiffersAt(a[1..], b[1..], i - 1) {
        assert a[1..][..i - 1] == a[..i][1..] && b[1..][..i - 1] == b[..i][1..];
      }
    } else if a != [] && b != [] && a[0] < b[0] {
      assert DiffersAt(a, b, 0);
    } else if a != [] && b != [] {
      forall i: nat ensures !DiffersAt(a, b, i) {
        if DiffersAt(a, b, i) { SameStart(a, b, i); }
      }
    }
  }

  // ----- ids -----

  /** An id without its last k digits. */
  function Leading(n: nat, k: nat): nat {
    if k == 0 then n else Leading(n / 10, k - 1)
  }

  /** How many decimal digits an id has. */
  function Width(n: nat): (w: nat)
    ensures w > 0
  {
    if n < 10 then 1 else 1 + Width(n / 10)
  }

  /** a comes no later than b in decimal order: the shorter of the two is compared with the leading digits
      of the longer one and comes first if they are equal. */
  predicate Leads(a: nat, b: nat) {
    if Width(a) <= Width(b) then a <= Leading(b, Width(b) - Width(a))
    else Leading(a, Width(a) - Width(b)) < b
  }

  lemma {:induction false} DigitsWidth(n: nat)
    ensures |Digits(n)| == Width(n)
  {
    if n >= 10 { DigitsWidth(n / 10); }
  }

  lemma {:induction false} LeadingDigits(n: nat, k: nat)
    requires k < |Digits(n)|
    ensures Digits(n)[..|Digits(n)| - k] == Digits(Leading(n, k))
  {
    var s := Digits(n);
    if k > 0 {
      var short := Digits(n / 10);
      assert s[..|s| - 1] == short;
      LeadingDigits(n / 10, k - 1);
      assert s[..|s| - k] == short[..|short| - (k - 1)];
    } else {
      assert s[..|s|] == s;
    }
  }

  /** Order of concatenations with heads of one length. */
  lemma {:induction false} AtMostConcat(x: string, s: string, y: string, t: string)
    requires |x| == |y|
    ensures AtMost(x + s, y + t) <==> AtMost(x, y) && (x == y ==> AtMost(s, t))
  {
    if x == [] {
      assert x + s == s && y + t == t;
    } else {
      assert (x + s)[1..] == x[1..] + s && (y + t)[1..] == y[1..] + t;
      AtMostConcat(x[1..], s, y[1..], t);
      assert x == [x[0]] + x[1..] && y == [y[0]] + y[1..];
    }
  }

  ghost predicate AllDigits(s: string) {
    forall k :: 0 <= k < |s| ==> '0' <= s[k] <= '9'
  }

  /** Digit strings of one length are ordered like their numbers. */
  lemma {:induction false} SameWidth(s: string, t: string)
    requires |s| == |t| && AllDigits(s) && AllDigits(t)
    ensures AtMost(s, t) <==> Number(s) <= Number(t)
    ensures s == t <==> Number(s) == Number(t)
  {
    if s != [] {
      var m := |s| - 1;
      SameWidth(s[..m], t[..m]);
      assert s == s[..m] + [s[m]] && t == t[..m] + [t[m]];
      AtMostConcat(s[..m], [s[m]], t[..m], [t[m]]);
      OneLetter(s[m], t[m]);
      LastDigit(Number(s[..m]), s[m] as int - '0' as int, Number(t[..m]), t[m] as int - '0' as int);
    }
  }

  lemma OneLetter(x: char, y: char)
    ensures AtMost([x], [y]) <==> x as int <= y as int
    ensures [x] == [y] <==> x as int == y as int
  {
  }

  lemma LastDigit(u: int, x: int, v: int, y: int)
    requires 0 <= x < 10 && 0 <= y < 10
    ensures 10 * u + x <= 10 * v + y <==> u <= v && (u == v ==> x <= y)
    ensures 10 * u + x == 10 * v + y <==> u == v && x == y
  {
  }

  lemma DigitsSameWidth(a: nat, b: nat)
    requires |Digits(a)| == |Digits(b)|
    ensures AtMost(Digits(a), Digits(b)) <==> a <= b
    ensures Digits(a) == Digits(b) <==> a == b
  {
    var s, t := Digits(a), Digits(b);
    forall k | 0 <= k < |s| ensures '0' <= s[k] <= '9' && '0' <= t[k] <= '9' { assert s[k] in s && t[k] in t; }
    SameWidth(s, t);
    DigitsRoundTrip(a);
    DigitsRoundTrip(b);
  }

  lemma ShorterFirst(a: nat, b: nat)
    requires |Digits(a)| <= |Digits(b)|
    ensures AtMost(Digits(a), Digits(b)) <==> a <= Leading(b, |Digits(b)| - |Digits(a)|)
  {
    var s, t := Digits(a), Digits(b);
    LeadingDigits(b, |t| - |s|);
    assert t[..|s|] == Digits(Leading(b, |t| - |s|));
    DigitsSameWidth(a, Leading(b, |t| - |s|));
    ShorterName(s, t);
  }

  lemma LongerFirst(a: nat, b: nat)
    requires |Digits(a)| > |Digits(b)|
    ensures AtMost(Digits(a), Digits(b)) <==> Leading(a, |Digits(a)| - |Digits(b)|) < b
  {
    var s, t := Digits(a), Digits(b);
    LeadingDigits(a, |s| - |t|);
    assert s[..|t|] == Digits(Leading(a, |s| - |t|));
    DigitsSameWidth(Leading(a, |s| - |t|), b);
    LongerName(s, t);
  }

  lemma LongerName(s: string, t: string)
    requires |s| > |t|
    ensures AtMost(s, t) <==> AtMost(s[..|t|], t) && s[..|t|] != t
  {
    assert s == s[..|t|] + s[|t|..] && t == t + [];
    AtMostConcat(s[..|t|], s[|t|..], t, []);
  }

  lemma ShorterName(s: string, t: string)
    requires |s| <= |t|
    ensures AtMost(s, t) <==> AtMost(s, t[..|s|])
  {
    assert t == t[..|s|] + t[|s|..] && s == s + [];
    AtMostConcat(s, [], t[..|s|], t[|s|..]);
  }

  /** The decimal order in numbers. */
  lemma DigitsOrder(a: nat, b: nat)
    ensures AtMost(Digits(a), Digits(b)) <==> Leads(a, b)
  {
    DigitsWidth(a);
    DigitsWidth(b);
    if Width(a) <= Width(b) { ShorterFirst(a, b); } else { LongerFirst(a, b); }
  }

  /** Ids are in decimal order exactly when each leads the next. */
  lemma DecimalOrderInNumbers(ids: seq<nat>)
    ensures DecimalOrder(ids) <==> forall i :: 0 < i < |ids| ==> Leads(ids[i - 1], ids[i])
  {
    forall i | 0 < i < |ids| ensures AtMost(Digits(ids[i - 1]), Digits(ids[i])) <==> Leads(ids[i - 1], ids[i]) {
      DigitsOrder(ids[i - 1], ids[i]);
    }
  }

  /** Among ids of one length it is the order of numbers, and a longer id comes first exactly when its
      leading digits are smaller: 10 before 2, but 2 before 20. */
  lemma TwoIds(a: nat, b: nat)
    ensures DecimalOrder([a, b]) <==> Leads(a, b)
    ensures Width(a) == Width(b) ==> (DecimalOrder([a, b]) <==> a <= b)
  {
    DecimalOrderInNumbers([a, b]);
    assert [a, b][1 - 1] == a && [a, b][1] == b;
  }

  lemma TenBeforeTwo()
    ensures DecimalOrder([10, 2]) && !DecimalOrder([2, 10]) && DecimalOrder([2, 20]) && !DecimalOrder([20, 2])
  {
    TwoIds(10, 2);
    TwoIds(2, 10);
    TwoIds(2, 20);
    TwoIds(20, 2);
  }

  lemma InsertFirst(x: string)
    ensures InsertName([], x) == [x]
  {
  }

  lemma InsertSecond(a: string, b: string)
    ensures InsertName([a], b) == if AtMost(a, b) then [a, b] else [b, a]
  {
    InsertFirst(b);
    if !AtMost(a, b) { assert [a][..0] == []; }
  }

  lemma SortedPair(a: string, b: string)
    ensures SortNames([a, b]) == if AtMost(a, b) then [a, b] else [b, a]
  {
    assert [a][..0] == [] && [a, b][..1] == [a];
    InsertFirst(a);
    assert SortNames([]) == [];
    assert SortNames([a]) == InsertName(SortNames([]), a);
    InsertSecond(a, b);
    assert SortNames([a, b]) == InsertName(SortNames([a]), b);
  }

  /** The signature of a program that reads two tensors. */
  lemma PairSignature(x: nat, y: nat)
    ensures SortNames(TensorVars([x, y]))
         == if DecimalOrder([x, y]) then [TensorVar(x), TensorVar(y)] else [TensorVar(y), TensorVar(x)]
  {
    assert TensorVars([x, y]) == [TensorVar(x), TensorVar(y)];
    SortedPair(TensorVar(x), TensorVar(y));
    NamesFollowIds([x, y]);
    assert Alphabetical(TensorVars([x, y])) <==> AtMost(TensorVars([x, y])[0], TensorVars([x, y])[1]);
  }

  lemma SignatureOfTwoAndTen()
    ensures SortNames(TensorVars([2, 10])) == ["t10", "t2"]
  {
    assert Digits(2) == "2" && Digits(1) == "1" && Digits(10) == "10";
    assert TensorVar(2) == "t2" && TensorVar(10) == "t10";
    PairSignature(2, 10);
    TenBeforeTwo();
  }
}
