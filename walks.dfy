/// Labelled walks through a family of square boolean matrices, one matrix
/// per symbol. This is the meaning of every decomposition in the program:
/// entry (i, j) of the matrix for `s` is an edge i -s-> j, a word labels a
/// walk, the transitive closure holds the pairs joined by a non-empty
/// walk, and the Kronecker product of two families walks both at once.
module Walks {
  import opened Pairing
  import opened BoolMatrix

  type Symbol = string

  /** One boolean matrix per symbol. */
  type Family = map<Symbol, Matrix>

  /** Every matrix of the family is a valid n x n matrix. */
  predicate Square(f: Family, n: nat) {
    forall s | s in f :: f[s].rows == n && f[s].cols == n && f[s].Valid()
  }

  /** The word w labels a walk from i to j. */
  ghost predicate Walk(f: Family, i: nat, w: seq<Symbol>, j: nat)
    decreases |w|
  {
    if |w| == 0 then i == j
    else w[0] in f && exists k: nat :: (i, k) in f[w[0]].cells && Walk(f, k, w[1..], j)
  }

  /** Some non-empty word labels a walk from i to j. */
  ghost predicate Connected(f: Family, i: nat, j: nat) {
    exists w: seq<Symbol> :: |w| > 0 && Walk(f, i, w, j)
  }

  /** Every matrix of f is contained in the matrix of g for the same symbol. */
  ghost predicate Sub(f: Family, g: Family) {
    forall s | s in f :: s in g && f[s].cells <= g[s].cells
  }

  /** A first edge followed by a walk along the rest of the word is a walk along the word. */
  lemma WalkCons(f: Family, i: nat, w: seq<Symbol>, k: nat, j: nat)
    requires |w| > 0 && w[0] in f && (i, k) in f[w[0]].cells && Walk(f, k, w[1..], j)
    ensures Walk(f, i, w, j)
  {
  }

  lemma WalkStep(f: Family, i: nat, s: Symbol, k: nat, w: seq<Symbol>, j: nat)
    requires s in f && (i, k) in f[s].cells && Walk(f, k, w, j)
    ensures Walk(f, i, [s] + w, j)
  {
    assert ([s] + w)[1..] == w;
  }

  lemma {:induction false} WalkConcat(f: Family, i: nat, w1: seq<Symbol>, k: nat, w2: seq<Symbol>, j: nat)
    requires Walk(f, i, w1, k) && Walk(f, k, w2, j)
    ensures Walk(f, i, w1 + w2, j)
    decreases |w1|
  {
    if |w1| == 0 {
      assert w1 + w2 == w2;
    } else {
      var m: nat :| (i, m) in f[w1[0]].cells && Walk(f, m, w1[1..], k);
      WalkConcat(f, m, w1[1..], k, w2, j);
      assert (w1 + w2)[1..] == w1[1..] + w2;
    }
  }

  /** A single edge is a walk along a one-symbol word. */
  lemma WalkEdge(f: Family, i: nat, s: Symbol, j: nat)
    requires s in f && (i, j) in f[s].cells
    ensures Walk(f, i, [s], j)
  {
    WalkStep(f, i, s, j, [], j);
    assert [s] + [] == [s];
  }

  /** Extending a walk by one edge at its end. */
  lemma WalkSnoc(f: Family, i: nat, w: seq<Symbol>, k: nat, s: Symbol, j: nat)
    requires Walk(f, i, w, k) && s in f && (k, j) in f[s].cells
    ensures Walk(f, i, w + [s], j)
  {
    assert Walk(f, j, [], j);
    WalkStep(f, k, s, j, [], j);
    assert [s] + [] == [s];
    WalkConcat(f, i, w, k, [s], j);
  }

  /** A non-empty walk ends with one edge after a walk along the rest of the word. */
  lemma {:induction false} WalkSplitLast(f: Family, i: nat, w: seq<Symbol>, j: nat) returns (k: nat)
    requires |w| > 0 && Walk(f, i, w, j)
    ensures Walk(f, i, w[..|w| - 1], k)
    ensures w[|w| - 1] in f && (k, j) in f[w[|w| - 1]].cells
    decreases |w|
  {
    var m: nat :| (i, m) in f[w[0]].cells && Walk(f, m, w[1..], j);
    if |w| == 1 {
      k := i;
      assert w[..0] == [];
      assert w[1..] == [];
    } else {
      k := WalkSplitLast(f, m, w[1..], j);
      assert w[1..][..|w[1..]| - 1] == w[..|w| - 1][1..];
      assert w[1..][|w[1..]| - 1] == w[|w| - 1];
      WalkStep(f, i, w[0], m, w[1..][..|w[1..]| - 1], k);
      assert [w[0]] + w[..|w| - 1][1..] == w[..|w| - 1];
    }
  }

  /** Walks survive adding entries to the family. */
  lemma {:induction false} WalkMono(f: Family, g: Family, i: nat, w: seq<Symbol>, j: nat)
    requires Sub(f, g) && Walk(f, i, w, j)
    ensures Walk(g, i, w, j)
    decreases |w|
  {
    if |w| > 0 {
      var m: nat :| (i, m) in f[w[0]].cells && Walk(f, m, w[1..], j);
      WalkMono(f, g, m, w[1..], j);
      WalkCons(g, i, w, m, j);
    }
  }

  /** A non-empty walk starts and ends inside the matrices' range. */
  lemma {:induction false} WalkInRange(f: Family, n: nat, i: nat, w: seq<Symbol>, j: nat)
    requires Square(f, n) && |w| > 0 && Walk(f, i, w, j)
    ensures i < n && j < n
  {
    var m: nat :| (i, m) in f[w[0]].cells && Walk(f, m, w[1..], j);
    var k := WalkSplitLast(f, i, w, j);
  }

  /** The OR of every matrix of the family (Python's `sum` over boolean matrices). */
  function Union(f: Family, n: nat): (u: Matrix)
    requires Square(f, n)
    ensures u.Valid() && u.rows == n && u.cols == n
    ensures forall c :: c in u.cells <==> exists s :: s in f && c in f[s].cells
  {
    Matrix(n, n, set s, c | s in f && c in f[s].cells :: c)
  }

  /** An entry of the square of a matrix of connected pairs is connected. */
  lemma ConnectedProduct(f: Family, c: Matrix, i: nat, j: nat)
    requires c.Valid() && c.rows == c.cols
    requires forall x, y :: (x, y) in c.cells ==> Connected(f, x, y)
    requires (i, j) in Mul(c, c).cells
    ensures Connected(f, i, j)
  {
    var k := MulElim(c, c, i, j);
    assert Connected(f, i, k) && Connected(f, k, j);
    var w1: seq<Symbol> :| |w1| > 0 && Walk(f, i, w1, k);
    var w2: seq<Symbol> :| |w2| > 0 && Walk(f, k, w2, j);
    WalkConcat(f, i, w1, k, w2, j);
    assert |w1 + w2| > 0;
  }

  /**
   * A matrix that contains every symbol's matrix and is closed under
   * squaring contains every pair joined by a non-empty walk.
   */
  lemma {:induction false} ClosedContainsWalks(f: Family, n: nat, c: Matrix, i: nat, w: seq<Symbol>, j: nat)
    requires Square(f, n) && c.Valid() && c.rows == n && c.cols == n
    requires Union(f, n).cells <= c.cells
    requires Mul(c, c).cells <= c.cells
    requires |w| > 0 && Walk(f, i, w, j)
    ensures (i, j) in c.cells
    decreases |w|
  {
    var m: nat :| (i, m) in f[w[0]].cells && Walk(f, m, w[1..], j);
    assert (i, m) in Union(f, n).cells;
    if |w| > 1 {
      ClosedContainsWalks(f, n, c, m, w[1..], j);
      MulIntro(c, c, i, m, j);
    } else {
      assert m == j;
    }
  }

  /** The Kronecker product of two families over their common symbols. */
  function KronFamily(a: Family, n: nat, b: Family, m: nat): (p: Family)
    requires Square(a, n) && Square(b, m)
    ensures Square(p, n * m)
    ensures p.Keys == a.Keys * b.Keys && forall s | s in p :: p[s] == Kron(a[s], b[s])
  {
    var p := map s | s in a.Keys * b.Keys :: Kron(a[s], b[s]);
    assert Square(p, n * m) by {
      forall s | s in p
        ensures p[s].Valid()
      {
        KronValid(a[s], b[s]);
      }
    }
    p
  }

  /** An edge of a Kronecker product leaving an encoded pair reaches an encoded pair, one edge in each factor. */
  lemma KronSuccessor(fa: Matrix, fb: Matrix, ia: nat, ib: nat, k: nat) returns (ka: nat, kb: nat)
    requires fa.Valid() && fb.Valid() && ib < fb.rows
    requires (Pair(ia, ib, fb.rows), k) in Kron(fa, fb).cells
    ensures kb < fb.cols && k == Pair(ka, kb, fb.cols)
    ensures (ia, ka) in fa.cells && (ib, kb) in fb.cells
  {
    var x, y :| x in fa.cells && y in fb.cells
      && (Pair(ia, ib, fb.rows), k) == KronCell(x, y, fb.rows, fb.cols);
    PairInjective(ia, ib, x.0, y.0, fb.rows);
    ka, kb := x.1, y.1;
  }

  /** A walk in the product projects to a walk in each factor. */
  lemma {:induction false} KronWalkSplit(a: Family, n: nat, b: Family, m: nat,
                                         ia: nat, ib: nat, w: seq<Symbol>, ja: nat, jb: nat)
    requires Square(a, n) && Square(b, m)
    requires ib < m && jb < m
    requires Walk(KronFamily(a, n, b, m), Pair(ia, ib, m), w, Pair(ja, jb, m))
    ensures Walk(a, ia, w, ja) && Walk(b, ib, w, jb)
    decreases |w|
  {
    var p := KronFamily(a, n, b, m);
    if |w| == 0 {
      PairInjective(ia, ib, ja, jb, m);
    } else {
      var s := w[0];
      var k: nat :| (Pair(ia, ib, m), k) in p[s].cells && Walk(p, k, w[1..], Pair(ja, jb, m));
      assert p[s] == Kron(a[s], b[s]);
      var ka, kb := KronSuccessor(a[s], b[s], ia, ib, k);
      KronWalkSplit(a, n, b, m, ka, kb, w[1..], ja, jb);
      WalkCons(a, ia, w, ka, ja);
      WalkCons(b, ib, w, kb, jb);
    }
  }

  /** Walks in both factors along one word combine into a walk in the product. */
  lemma {:induction false} KronWalkJoin(a: Family, n: nat, b: Family, m: nat,
                                        ia: nat, ib: nat, w: seq<Symbol>, ja: nat, jb: nat)
    requires Square(a, n) && Square(b, m)
    requires ib < m && jb < m
    requires Walk(a, ia, w, ja) && Walk(b, ib, w, jb)
    ensures Walk(KronFamily(a, n, b, m), Pair(ia, ib, m), w, Pair(ja, jb, m))
    decreases |w|
  {
    var p := KronFamily(a, n, b, m);
    if |w| > 0 {
      var s := w[0];
      var ka: nat :| (ia, ka) in a[s].cells && Walk(a, ka, w[1..], ja);
      var kb: nat :| (ib, kb) in b[s].cells && Walk(b, kb, w[1..], jb);
      KronEntryPair(a[s], b[s], ia, ka, ib, kb);
      KronWalkJoin(a, n, b, m, ka, kb, w[1..], ja, jb);
      WalkCons(p, Pair(ia, ib, m), w, Pair(ka, kb, m), Pair(ja, jb, m));
    }
  }

  /**
   * A word labels a walk in the product between two encoded pairs exactly
   * when it labels a walk in each factor between the components.
   */
  lemma KronWalk(a: Family, n: nat, b: Family, m: nat,
                 ia: nat, ib: nat, w: seq<Symbol>, ja: nat, jb: nat)
    requires Square(a, n) && Square(b, m)
    requires ib < m && jb < m
    ensures Walk(KronFamily(a, n, b, m), Pair(ia, ib, m), w, Pair(ja, jb, m))
        <==> (Walk(a, ia, w, ja) && Walk(b, ib, w, jb))
  {
    if Walk(KronFamily(a, n, b, m), Pair(ia, ib, m), w, Pair(ja, jb, m)) {
      KronWalkSplit(a, n, b, m, ia, ib, w, ja, jb);
    }
    if Walk(a, ia, w, ja) && Walk(b, ib, w, jb) {
      KronWalkJoin(a, n, b, m, ia, ib, w, ja, jb);
    }
  }
}
