/// Index arithmetic shared by every Kronecker product, direct sum and
/// product-decoding step: a pair of indices (a, b) with b < m is stored at
/// the single index a * m + b, and `/` and `%` by m recover the pair.
module Pairing {

  /** The index given to the pair (a, b) when the right factor has m indices. */
  function Pair(a: nat, b: nat, m: nat): nat {
    a * m + b
  }

  /** Encoding stays inside the product range. */
  lemma {:induction false} PairBound(a: nat, b: nat, n: nat, m: nat)
    requires a < n && b < m
    ensures Pair(a, b, m) < n * m
  {
    calc {
      Pair(a, b, m);
    <  a * m + m;
    == (a + 1) * m;
    <= { MulMonotone(a + 1, n, m); }
      n * m;
    }
  }

  lemma MulMonotone(x: nat, y: nat, m: nat)
    requires x <= y
    ensures x * m <= y * m
  {
  }

  /** Decoding inverts encoding: `/` gives back the left index, `%` the right one. */
  lemma {:induction false} UnpairPair(a: nat, b: nat, m: nat)
    requires b < m
    ensures Pair(a, b, m) / m == a
    ensures Pair(a, b, m) % m == b
  {
    var p := Pair(a, b, m);
    var q, r := p / m, p % m;
    assert p == q * m + r;
    assert 0 <= r < m;
    if q < a {
      MulMonotone(q + 1, a, m);
      assert false;
    } else if q > a {
      MulMonotone(a + 1, q, m);
      assert false;
    }
  }

  /** Encoding decodes back: every index below n * m is the pair of its quotient and remainder. */
  lemma {:induction false} PairUnpair(p: nat, n: nat, m: nat)
    requires p < n * m
    ensures m > 0
    ensures p / m < n && p % m < m
    ensures Pair(p / m, p % m, m) == p
  {
    if m == 0 {
      assert false;
    }
    var q := p / m;
    if q >= n {
      MulMonotone(n, q, m);
      assert false;
    }
  }

  /** The quotient and remainder of a natural number by a positive one are natural. */
  lemma Quotient(p: nat, m: nat)
    requires m > 0
    ensures 0 <= p / m && 0 <= p % m < m
  {
  }

  /** Distinct pairs get distinct indices. */
  lemma PairInjective(a1: nat, b1: nat, a2: nat, b2: nat, m: nat)
    requires b1 < m && b2 < m
    requires Pair(a1, b1, m) == Pair(a2, b2, m)
    ensures a1 == a2 && b1 == b2
  {
    UnpairPair(a1, b1, m);
    UnpairPair(a2, b2, m);
  }
}
