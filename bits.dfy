/** The bit-level facts about PHP's integer `&` and `|` that the role bitmask relies on.
    Each fact is proved once on the bare operators (`Raw...`, one fact per lemma, so
    that the solver checks it on its own) and restated over the two predicates below,
    which is the form the sequence and heap proofs use. */
module Bits {

  /** `$mask & $role` is truthy. */
  predicate Shares(mask: bv64, role: bv64) {
    mask & role != 0
  }

  /** Every bit of `sub` is set in `mask`. */
  predicate Includes(mask: bv64, sub: bv64) {
    sub & mask == sub
  }

  lemma RawZero(x: bv64)
    ensures 0 & x == 0
  {
  }

  lemma RawOrAndDistributes(a: bv64, b: bv64, x: bv64)
    ensures (a | b) & x == (a & x) | (x & b)
  {
  }

  lemma RawOrNonzero(p: bv64, q: bv64)
    ensures p | q != 0 <==> p != 0 || q != 0
  {
  }

  lemma RawOrKeepsLeft(a: bv64, b: bv64)
    ensures a & (a | b) == a
  {
  }

  lemma RawOrKeepsRight(a: bv64, b: bv64)
    ensures b & (a | b) == b
  {
  }

  lemma RawOrGrants(a: bv64, b: bv64)
    ensures b != 0 ==> (a | b) & b != 0
  {
  }

  lemma RawAndOrMonotone(r: bv64, a: bv64, b: bv64)
    requires r & a == r
    ensures r & (a | b) == r
  {
  }

  lemma ZeroSharesNothing(x: bv64)
    ensures !Shares(0, x)
  {
    RawZero(x);
  }

  lemma OrShares(a: bv64, b: bv64, x: bv64)
    ensures Shares(a | b, x) <==> Shares(a, x) || Shares(x, b)
  {
    RawOrAndDistributes(a, b, x);
    RawOrNonzero(a & x, x & b);
  }

  lemma OrIncludes(a: bv64, b: bv64)
    ensures Includes(a | b, a) && Includes(a | b, b)
  {
    RawOrKeepsLeft(a, b);
    RawOrKeepsRight(a, b);
  }

  lemma OrGrants(a: bv64, b: bv64)
    ensures b != 0 ==> Shares(a | b, b)
  {
    RawOrGrants(a, b);
  }

  lemma IncludesOr(r: bv64, a: bv64, b: bv64)
    requires Includes(a, r)
    ensures Includes(a | b, r)
  {
    RawAndOrMonotone(r, a, b);
  }
}
