/** Facts about sequences that several components share. */
module Sequences {

  ghost predicate NoDuplicates<T>(s: seq<T>) {
    forall i, j :: 0 <= i < j < |s| ==> s[i] != s[j]
  }

  /** Induction from lo up to hi. */
  lemma {:induction false} StepByStep(p: nat -> bool, lo: nat, hi: nat)
    requires lo <= hi && p(lo) && forall k: nat :: lo <= k < hi && p(k) ==> p(k + 1)
    ensures p(hi)
    decreases hi
  {
    if lo < hi { StepByStep(p, lo, hi - 1); }
  }
}
