/// The initial fronts of the constrained search and the entries each one
/// seeds. A pooled front has one row per constraint state, holding its own
/// state bit and every start vertex; the separated front stacks copies of
/// it; the corrected front gives block b only the constraint's start states
/// and the single start vertex of that block.
module Fronts {
  import opened Pairing
  import opened BoolMatrix
  import opened Walks
  import opened Frontier

  /** Row c.0 of a pooled front: its own state bit and the start vertex bits. */
  predicate FrontCell(k: nat, rows: set<nat>, starts: set<nat>, c: Cell) {
    c.0 in rows && (c.1 == c.0 || (c.1 >= k && c.1 - k in starts))
  }

  /** `_construct_front`: k rows and k + n columns; each listed row gets its own bit and the start vertices. */
  function FrontOf(k: nat, n: nat, rows: set<nat>, starts: set<nat>): (f: Matrix)
    requires forall i | i in rows :: i < k
    requires forall u | u in starts :: u < n
    ensures f.Valid() && f.rows == k && f.cols == k + n
    ensures forall c :: c in f.cells <==> FrontCell(k, rows, starts, c)
  {
    Matrix(k, k + n, set c | c in Grid(k, k + n) && FrontCell(k, rows, starts, c))
  }

  /** The pooled front is a well-shaped search start. */
  lemma PooledGood(c: Family, k: nat, g: Family, n: nat, rows: set<nat>, starts: set<nat>)
    requires Square(c, k) && Square(g, n)
    requires (forall i | i in rows :: i < k) && forall u | u in starts :: u < n
    ensures Setting(c, k, g, n, FrontOf(k, n, rows, starts)).Good()
  {
    var f := FrontOf(k, n, rows, starts);
    forall e | e in f.cells
      ensures e.0 < k && e.0 % k == e.0 && (e.1 < k ==> e.1 == e.0)
    {
      assert FrontCell(k, rows, starts, e);
      SmallDiv(e.0, k);
    }
  }

  /** In the pooled front, each listed row is seeded with every start vertex. */
  lemma PooledSeed(c: Family, k: nat, g: Family, n: nat, rows: set<nat>, starts: set<nat>, i: nat, u: nat)
    requires (forall i | i in rows :: i < k) && forall u | u in starts :: u < n
    ensures Setting(c, k, g, n, FrontOf(k, n, rows, starts)).Seed(i, u) <==> i in rows && u in starts
  {
    if i in rows {
      SmallDiv(i, k);
      assert FrontCell(k, rows, starts, (i, k + u)) <==> u in starts;
    }
  }

  lemma {:induction false} SmallDiv(i: nat, k: nat)
    requires i < k
    ensures i / k == 0 && i % k == i
  {
  }

  /** Hit in the pooled front: a non-empty word from a listed constraint state to r and from a start vertex to v. */
  ghost predicate PooledWalk(st: Setting, rows: set<nat>, starts: set<nat>, r: nat, v: nat) {
    exists q: nat, u: nat, w: seq<Symbol> ::
      q in rows && u in starts && |w| > 0 && Walk(st.c, q, w, r) && Walk(st.g, u, w, v)
  }

  /**
   * From the pooled front, row r reaches vertex v exactly when a non-empty
   * word leads in the constraint from a listed state to r and in the graph
   * from a start vertex to v.
   */
  lemma PooledHit(st: Setting, rows: set<nat>, starts: set<nat>, r: nat, v: nat)
    requires (forall i | i in rows :: i < st.k) && forall u | u in starts :: u < st.n
    requires st.front == FrontOf(st.k, st.n, rows, starts) && r < st.k
    ensures st.Hit(r, v) <==> PooledWalk(st, rows, starts, r, v)
  {
    if st.Hit(r, v) {
      PooledHitElim(st, rows, starts, r, v);
    }
    if PooledWalk(st, rows, starts, r, v) {
      var q: nat, u: nat, w: seq<Symbol> :|
        q in rows && u in starts && |w| > 0 && Walk(st.c, q, w, r) && Walk(st.g, u, w, v);
      PooledHitIntro(st, rows, starts, r, v, q, u, w);
    }
  }

  lemma PooledHitElim(st: Setting, rows: set<nat>, starts: set<nat>, r: nat, v: nat)
    requires (forall i | i in rows :: i < st.k) && forall u | u in starts :: u < st.n
    requires st.front == FrontOf(st.k, st.n, rows, starts) && r < st.k
    requires st.Hit(r, v)
    ensures PooledWalk(st, rows, starts, r, v)
  {
    var i: nat, u: nat, w: seq<Symbol> :| |w| > 0 && st.Witness(r, v, i, u, w);
    PooledSeed(st.c, st.k, st.g, st.n, rows, starts, i, u);
    SmallDiv(i, st.k);
    SmallDiv(r, st.k);
  }

  lemma PooledHitIntro(st: Setting, rows: set<nat>, starts: set<nat>, r: nat, v: nat, q: nat, u: nat, w: seq<Symbol>)
    requires (forall i | i in rows :: i < st.k) && forall u | u in starts :: u < st.n
    requires st.front == FrontOf(st.k, st.n, rows, starts) && r < st.k
    requires q in rows && u in starts && |w| > 0 && Walk(st.c, q, w, r) && Walk(st.g, u, w, v)
    ensures st.Hit(r, v)
  {
    PooledSeed(st.c, st.k, st.g, st.n, rows, starts, q, u);
    SmallDiv(q, st.k);
    SmallDiv(r, st.k);
    assert st.Witness(r, v, q, u, w);
  }

  /** `_construct_sep_front`: one copy of the pooled front per start vertex found. */
  function SepFront(k: nat, n: nat, rows: set<nat>, starts: set<nat>, copies: nat): (f: Matrix)
    requires forall i | i in rows :: i < k
    requires forall u | u in starts :: u < n
    ensures f.rows == copies * k && f.cols == k + n
  {
    Stack(FrontOf(k, n, rows, starts), copies)
  }

  lemma {:induction false} BlocksFit(copies: nat, k: nat)
    ensures RowsFit(copies * k, k)
  {
    if k > 0 {
      UnpairPair(copies, 0, k);
    }
  }

  /** The stacked front is a well-shaped search start. */
  lemma SepGood(c: Family, k: nat, g: Family, n: nat, rows: set<nat>, starts: set<nat>, copies: nat)
    requires Square(c, k) && Square(g, n)
    requires (forall i | i in rows :: i < k) && forall u | u in starts :: u < n
    ensures Setting(c, k, g, n, SepFront(k, n, rows, starts, copies)).Good()
  {
    var f := FrontOf(k, n, rows, starts);
    var s := SepFront(k, n, rows, starts, copies);
    BlocksFit(copies, k);
    StackEntry(f, copies, 0, 0);
    forall e | e in s.cells
      ensures k > 0 && (e.1 < k ==> e.1 == e.0 % k) && (e.0, e.0 % k) in s.cells
    {
      StackEntry(f, copies, e.0, e.1);
      assert k > 0;
      assert FrontCell(k, rows, starts, (e.0 % k, e.1));
      StackEntry(f, copies, e.0, e.0 % k);
    }
  }

  /** In the stacked front, each listed row of every copy is seeded with every start vertex. */
  lemma SepSeed(c: Family, k: nat, g: Family, n: nat, rows: set<nat>, starts: set<nat>, copies: nat, i: nat, u: nat)
    requires (forall i | i in rows :: i < k) && forall u | u in starts :: u < n
    ensures Setting(c, k, g, n, SepFront(k, n, rows, starts, copies)).Seed(i, u)
        <==> i < copies * k && i % k in rows && u in starts
  {
    var f := FrontOf(k, n, rows, starts);
    if k > 0 {
      StackEntry(f, copies, i, i % k);
      StackEntry(f, copies, i, k + u);
      assert FrontCell(k, rows, starts, (i % k, k + u)) <==> i % k in rows && u in starts;
    }
  }

  /** Hit in the stacked front: a non-empty word from a listed constraint state to r % k and from a start vertex to v. */
  ghost predicate SepWalk(st: Setting, rows: set<nat>, starts: set<nat>, r: nat, v: nat)
    requires st.k > 0
  {
    exists q: nat, u: nat, w: seq<Symbol> ::
      q in rows && u in starts && |w| > 0 && Walk(st.c, q, w, r % st.k) && Walk(st.g, u, w, v)
  }

  /**
   * From the stacked front, every copy reaches what the pooled front
   * reaches: row r hits v exactly when a non-empty word leads in the
   * constraint from a listed state to r % k and in the graph from a start
   * vertex to v. The copy a row lies in does not matter.
   */
  lemma SepHit(st: Setting, rows: set<nat>, starts: set<nat>, copies: nat, r: nat, v: nat)
    requires (forall i | i in rows :: i < st.k) && forall u | u in starts :: u < st.n
    requires st.front == SepFront(st.k, st.n, rows, starts, copies) && r < copies * st.k
    ensures st.k > 0 && (st.Hit(r, v) <==> SepWalk(st, rows, starts, r, v))
  {
    if st.Hit(r, v) {
      SepHitElim(st, rows, starts, copies, r, v);
    }
    if SepWalk(st, rows, starts, r, v) {
      var q: nat, u: nat, w: seq<Symbol> :|
        q in rows && u in starts && |w| > 0 && Walk(st.c, q, w, r % st.k) && Walk(st.g, u, w, v);
      SepHitIntro(st, rows, starts, copies, r, v, q, u, w);
    }
  }

  lemma SepHitElim(st: Setting, rows: set<nat>, starts: set<nat>, copies: nat, r: nat, v: nat)
    requires (forall i | i in rows :: i < st.k) && forall u | u in starts :: u < st.n
    requires st.front == SepFront(st.k, st.n, rows, starts, copies) && r < copies * st.k
    requires st.Hit(r, v)
    ensures st.k > 0 && SepWalk(st, rows, starts, r, v)
  {
    var i: nat, u: nat, w: seq<Symbol> :| |w| > 0 && st.Witness(r, v, i, u, w);
    SepSeed(st.c, st.k, st.g, st.n, rows, starts, copies, i, u);
    assert i % st.k < st.k;
  }

  lemma SepHitIntro(st: Setting, rows: set<nat>, starts: set<nat>, copies: nat, r: nat, v: nat,
                    q: nat, u: nat, w: seq<Symbol>)
    requires (forall i | i in rows :: i < st.k) && forall u | u in starts :: u < st.n
    requires st.front == SepFront(st.k, st.n, rows, starts, copies) && r < copies * st.k
    requires q in rows && u in starts && |w| > 0 && Walk(st.c, q, w, r % st.k) && Walk(st.g, u, w, v)
    ensures st.Hit(r, v)
  {
    var i := Anchor(r, q, st.k);
    BlocksFit(copies, st.k);
    AnchorFacts(r, q, st.k, copies * st.k);
    SepSeed(st.c, st.k, st.g, st.n, rows, starts, copies, i, u);
    assert st.Witness(r, v, i, u, w);
  }

  /**
   * Row c.0 of the corrected separated front: block b = c.0 / k serves the
   * start vertex starts[b], and only rows of constraint start states are
   * seeded.
   */
  predicate FixedCell(k: nat, cstart: set<nat>, starts: seq<nat>, c: Cell) {
    && k > 0 && c.0 / k < |starts| && c.0 % k in cstart
    && (c.1 == c.0 % k || c.1 == k + starts[c.0 / k])
  }

  /** The corrected separated front: one block per start vertex, seeded at the constraint's start states. */
  function FixedFront(k: nat, n: nat, cstart: set<nat>, starts: seq<nat>): (f: Matrix)
    ensures f.Valid() && f.rows == |starts| * k && f.cols == k + n
  {
    Matrix(|starts| * k, k + n, set c | c in Grid(|starts| * k, k + n) && FixedCell(k, cstart, starts, c))
  }

  /** The entries of the corrected front are exactly its cells. */
  lemma FixedEntry(k: nat, n: nat, cstart: set<nat>, starts: seq<nat>, c: Cell)
    requires forall q | q in cstart :: q < k
    requires forall b | 0 <= b < |starts| :: starts[b] < n
    ensures c in FixedFront(k, n, cstart, starts).cells <==> FixedCell(k, cstart, starts, c)
  {
    if FixedCell(k, cstart, starts, c) {
      FixedRow(k, |starts|, c.0);
      assert c.1 < k + n;
    }
  }

  /** A row whose block is below b lies below b * k. */
  lemma {:induction false} FixedRow(k: nat, b: nat, r: nat)
    requires k > 0 && r / k < b
    ensures r < b * k
  {
    MulMonotone(r / k + 1, b, k);
  }

  lemma FixedGood(c: Family, k: nat, g: Family, n: nat, cstart: set<nat>, starts: seq<nat>)
    requires Square(c, k) && Square(g, n)
    requires forall q | q in cstart :: q < k
    requires forall b | 0 <= b < |starts| :: starts[b] < n
    ensures Setting(c, k, g, n, FixedFront(k, n, cstart, starts)).Good()
  {
    var f := FixedFront(k, n, cstart, starts);
    BlocksFit(|starts|, k);
    forall e | e in f.cells
      ensures k > 0 && (e.1 < k ==> e.1 == e.0 % k) && (e.0, e.0 % k) in f.cells
    {
      FixedEntry(k, n, cstart, starts, e);
      FixedEntry(k, n, cstart, starts, (e.0, e.0 % k));
    }
  }

  /** In the corrected front, row i is seeded exactly with the start vertex of its block, at a constraint start state. */
  lemma FixedSeed(c: Family, k: nat, g: Family, n: nat, cstart: set<nat>, starts: seq<nat>, i: nat, u: nat)
    requires forall q | q in cstart :: q < k
    requires forall b | 0 <= b < |starts| :: starts[b] < n
    ensures Setting(c, k, g, n, FixedFront(k, n, cstart, starts)).Seed(i, u)
        <==> k > 0 && i / k < |starts| && i % k in cstart && u == starts[i / k]
  {
    if k > 0 && i / k < |starts| {
      FixedEntry(k, n, cstart, starts, (i, k + u));
      FixedEntry(k, n, cstart, starts, (i, i % k));
    }
  }

  /** Hit in the corrected front: a non-empty word from a constraint start state to r % k and from r's own start vertex to v. */
  ghost predicate FixedWalk(st: Setting, cstart: set<nat>, starts: seq<nat>, r: nat, v: nat)
    requires st.k > 0 && r / st.k < |starts|
  {
    exists q: nat, w: seq<Symbol> ::
      q in cstart && |w| > 0 && Walk(st.c, q, w, r % st.k) && Walk(st.g, starts[r / st.k], w, v)
  }

  /**
   * From the corrected front, row r hits v exactly when a non-empty word
   * leads in the constraint from a start state to r % k and in the graph
   * from the start vertex of r's block to v.
   */
  lemma FixedHit(st: Setting, cstart: set<nat>, starts: seq<nat>, r: nat, v: nat)
    requires forall q | q in cstart :: q < st.k
    requires forall b | 0 <= b < |starts| :: starts[b] < st.n
    requires st.front == FixedFront(st.k, st.n, cstart, starts) && st.k > 0 && r / st.k < |starts|
    ensures st.Hit(r, v) <==> FixedWalk(st, cstart, starts, r, v)
  {
    if st.Hit(r, v) {
      FixedHitElim(st, cstart, starts, r, v);
    }
    if FixedWalk(st, cstart, starts, r, v) {
      var q: nat, w: seq<Symbol> :|
        q in cstart && |w| > 0 && Walk(st.c, q, w, r % st.k) && Walk(st.g, starts[r / st.k], w, v);
      FixedHitIntro(st, cstart, starts, r, v, q, w);
    }
  }

  lemma FixedHitElim(st: Setting, cstart: set<nat>, starts: seq<nat>, r: nat, v: nat)
    requires forall q | q in cstart :: q < st.k
    requires forall b | 0 <= b < |starts| :: starts[b] < st.n
    requires st.front == FixedFront(st.k, st.n, cstart, starts) && st.k > 0 && r / st.k < |starts|
    requires st.Hit(r, v)
    ensures FixedWalk(st, cstart, starts, r, v)
  {
    var i: nat, u: nat, w: seq<Symbol> :| |w| > 0 && st.Witness(r, v, i, u, w);
    FixedSeed(st.c, st.k, st.g, st.n, cstart, starts, i, u);
  }

  lemma FixedHitIntro(st: Setting, cstart: set<nat>, starts: seq<nat>, r: nat, v: nat, q: nat, w: seq<Symbol>)
    requires forall q | q in cstart :: q < st.k
    requires forall b | 0 <= b < |starts| :: starts[b] < st.n
    requires st.front == FixedFront(st.k, st.n, cstart, starts) && st.k > 0 && r / st.k < |starts|
    requires q in cstart && |w| > 0 && Walk(st.c, q, w, r % st.k) && Walk(st.g, starts[r / st.k], w, v)
    ensures st.Hit(r, v)
  {
    var k := st.k;
    var i := Anchor(r, q, k);
    FixedRow(k, |starts|, r);
    BlocksFit(|starts|, k);
    AnchorFacts(r, q, k, |starts| * k);
    FixedSeed(st.c, k, st.g, st.n, cstart, starts, i, starts[r / k]);
    assert st.Witness(r, v, i, starts[r / k], w);
  }
}
