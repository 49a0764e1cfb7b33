/// The matrices of the constrained breadth-first search and what their
/// entries mean. The search runs over the block-diagonal direct sum of a
/// constraint automaton (k states, left block) and a graph (n vertices,
/// right block). A front or visited matrix has rows grouped in blocks of k;
/// row r stands for constraint state r % k in block r / k, its left part
/// holds the single bit r % k and its right part the graph vertices reached
/// in that state. `Transform` re-anchors the rows of a product so that this
/// shape is kept.
module Frontier {
  import opened Pairing
  import opened BoolMatrix
  import opened Walks

  /** The row that state j of the block containing row i occupies. */
  function Anchor(i: nat, j: nat, k: nat): nat
    requires j < k
  {
    Pair(i / k, j, k)
  }

  /** Rows come in whole blocks of k. */
  predicate RowsFit(rows: nat, k: nat) {
    k == 0 || rows % k == 0
  }

  lemma {:induction false} AnchorFacts(i: nat, j: nat, k: nat, rows: nat)
    requires j < k && i < rows && RowsFit(rows, k)
    ensures Anchor(i, j, k) < rows
    ensures Anchor(i, j, k) / k == i / k && Anchor(i, j, k) % k == j
  {
    UnpairPair(i / k, j, k);
    PairUnpair(i, rows / k, k);
    PairBound(i / k, j, rows / k, k);
  }

  /** A row is its own anchor for its own state. */
  lemma {:induction false} AnchorSelf(r: nat, k: nat)
    requires k > 0
    ensures Anchor(r, r % k, k) == r
  {
    PairUnpair(r, r / k + 1, k);
  }

  /** The columns k onward that are true in row i. */
  function RightPart(x: Matrix, i: nat, k: nat): set<nat> {
    set d | d in x.cells && d.0 == i && d.1 >= k :: d.1
  }

  /**
   * What one true entry (i, j) of a product contributes: when j is a
   * constraint column and row i reached some vertex, row Anchor(i, j) gets
   * bit j and all of row i's vertex bits.
   */
  function Contribution(x: Matrix, c: Cell, k: nat): set<Cell> {
    if c.1 < k && RightPart(x, c.0, k) != {} then
      {(Anchor(c.0, c.1, k), c.1)} + set col | col in RightPart(x, c.0, k) :: (Anchor(c.0, c.1, k), col)
    else {}
  }

  function TransformOf(x: Matrix, part: set<Cell>, k: nat): set<Cell> {
    set c, e | c in part && e in Contribution(x, c, k) :: e
  }

  /** The re-anchored matrix: the union of the contributions of every entry. */
  function Transform(x: Matrix, k: nat): (t: Matrix)
    requires x.Valid() && RowsFit(x.rows, k) && k <= x.cols
    ensures t.Valid() && t.rows == x.rows && t.cols == x.cols
  {
    var t := Matrix(x.rows, x.cols, TransformOf(x, x.cells, k));
    assert t.Valid() by {
      forall e | e in t.cells
        ensures e.0 < x.rows && e.1 < x.cols
      {
        var c :| c in x.cells && e in Contribution(x, c, k);
        AnchorFacts(c.0, c.1, k, x.rows);
      }
    }
    t
  }

  /** An entry of the re-anchored matrix comes from a constraint entry (i, j) of row i. */
  lemma TransformElim(x: Matrix, k: nat, r: nat, col: nat) returns (i: nat, j: nat)
    requires x.Valid() && RowsFit(x.rows, k) && k <= x.cols
    requires (r, col) in Transform(x, k).cells
    ensures (i, j) in x.cells && j < k && r == Anchor(i, j, k)
    ensures (col == j && RightPart(x, i, k) != {}) || (col >= k && (i, col) in x.cells)
  {
    var c :| c in x.cells && (r, col) in Contribution(x, c, k);
    i, j := c.0, c.1;
  }

  /**
   * A constraint entry (i, j) of a row with vertex bit col puts bit j and
   * bit col into row Anchor(i, j), and so into any set holding the result.
   */
  lemma TransformIntro(x: Matrix, k: nat, into: set<Cell>, i: nat, j: nat, col: nat)
    requires x.Valid() && RowsFit(x.rows, k) && k <= x.cols
    requires Transform(x, k).cells <= into
    requires (i, j) in x.cells && j < k && (i, col) in x.cells && col >= k
    ensures (Anchor(i, j, k), j) in into && (Anchor(i, j, k), col) in into
  {
    assert col in RightPart(x, i, k);
    assert (Anchor(i, j, k), j) in Contribution(x, (i, j), k);
    assert (Anchor(i, j, k), col) in Contribution(x, (i, j), k);
  }

  /** The direct sum over the common symbols: constraint block top-left, graph block bottom-right. */
  function DirectSumFamily(c: Family, k: nat, g: Family, n: nat): (d: Family)
    requires Square(c, k) && Square(g, n)
    ensures Square(d, k + n) && d.Keys == c.Keys * g.Keys
    ensures forall s | s in d :: d[s] == BlockDiag(c[s], g[s])
  {
    map s | s in c.Keys * g.Keys :: BlockDiag(c[s], g[s])
  }

  /** A search: constraint family, graph family and the initial front. */
  datatype Setting = Setting(c: Family, k: nat, g: Family, n: nat, front: Matrix) {

    /** Left bits sit on the block diagonal and right bits only in rows that carry theirs. */
    ghost predicate Good() {
      && Square(c, k) && Square(g, n)
      && front.Valid() && front.cols == k + n && RowsFit(front.rows, k)
      && (k == 0 ==> front.rows == 0)
      && (forall e | e in front.cells :: e.1 < k ==> e.1 == e.0 % k)
      && (forall e | e in front.cells :: e.1 >= k ==> k > 0 && (e.0, e.0 % k) in front.cells)
    }

    function Sum(): Family
      requires Square(c, k) && Square(g, n)
    {
      DirectSumFamily(c, k, g, n)
    }

    /** Row i of the front starts in its own state at graph vertex u. */
    ghost predicate Seed(i: nat, u: nat) {
      k > 0 && (i, i % k) in front.cells && (i, k + u) in front.cells
    }

    /**
     * Word w leads from seed (i, u) to state r % k and vertex v, where i lies
     * in the block of r.
     */
    ghost predicate Witness(r: nat, v: nat, i: nat, u: nat, w: seq<Symbol>) {
      && k > 0 && i < front.rows && i / k == r / k && Seed(i, u)
      && Walk(c, i % k, w, r % k) && Walk(g, u, w, v)
    }

    /** Row r reaches vertex v by a non-empty word. */
    ghost predicate Hit(r: nat, v: nat) {
      exists i: nat, u: nat, w: seq<Symbol> :: |w| > 0 && Witness(r, v, i, u, w)
    }

    /** Row r reaches vertex v by a possibly empty word. */
    ghost predicate Reach(r: nat, v: nat) {
      exists i: nat, u: nat, w: seq<Symbol> :: Witness(r, v, i, u, w)
    }

    ghost predicate RowHit(r: nat) {
      exists v: nat :: Hit(r, v)
    }

    /** The entries the search must end with. */
    ghost predicate Reached(e: Cell) {
      && e.0 < front.rows
      && ((e.1 >= k && Hit(e.0, e.1 - k)) || (e.1 < k && e.1 == e.0 % k && RowHit(e.0)))
    }

    /** Rows shaped like the front whose vertex bits are all reachable. */
    ghost predicate RowsSound(x: Matrix) {
      && (forall e | e in x.cells :: e.1 < k ==> e.1 == e.0 % k)
      && (forall e | e in x.cells :: e.1 >= k ==> k > 0 && (e.0, e.0 % k) in x.cells && Reach(e.0, e.1 - k))
    }

    /** One step under every common symbol, re-anchored, adds nothing to x. */
    ghost predicate StepClosed(from: Matrix, x: Matrix)
      requires Square(c, k) && Square(g, n)
      requires from.Valid() && from.cols == k + n && RowsFit(from.rows, k)
    {
      forall s | s in Sum() :: Transform(Mul(from, Sum()[s]), k).cells <= x.cells
    }
  }

  /** The shapes of one step: a k x k constraint block, an n x n graph block and x with k + n columns. */
  predicate StepShape(cs: Matrix, k: nat, gs: Matrix, n: nat, x: Matrix) {
    && cs.Valid() && cs.rows == k && cs.cols == k
    && gs.Valid() && gs.rows == n && gs.cols == n
    && x.Valid() && x.cols == k + n
  }

  /** The entries of one step of the product, split by block. */
  lemma StepLeftElim(cs: Matrix, k: nat, gs: Matrix, n: nat, x: Matrix, i: nat, j: nat) returns (q: nat)
    requires StepShape(cs, k, gs, n, x)
    requires (i, j) in Mul(x, BlockDiag(cs, gs)).cells && j < k
    ensures q < k && (i, q) in x.cells && (q, j) in cs.cells
  {
    q := MulElim(x, BlockDiag(cs, gs), i, j);
    BlockDiagUpperElim(cs, gs, q, j);
  }

  lemma StepRightElim(cs: Matrix, k: nat, gs: Matrix, n: nat, x: Matrix, i: nat, col: nat) returns (u: nat, v: nat)
    requires StepShape(cs, k, gs, n, x)
    requires (i, col) in Mul(x, BlockDiag(cs, gs)).cells && col >= k
    ensures col == k + v
    ensures (i, k + u) in x.cells && (u, v) in gs.cells
  {
    var mid := MulElim(x, BlockDiag(cs, gs), i, col);
    u, v := BlockDiagLowerElim(cs, gs, mid, col);
    assert mid == k + u;
  }

  lemma StepLeftIntro(cs: Matrix, k: nat, gs: Matrix, n: nat, x: Matrix, i: nat, q: nat, j: nat)
    requires StepShape(cs, k, gs, n, x)
    requires (i, q) in x.cells && (q, j) in cs.cells
    ensures (i, j) in Mul(x, BlockDiag(cs, gs)).cells
  {
    BlockDiagUpperIntro(cs, gs, q, j);
    MulIntro(x, BlockDiag(cs, gs), i, q, j);
  }

  lemma StepRightIntro(cs: Matrix, k: nat, gs: Matrix, n: nat, x: Matrix, i: nat, u: nat, v: nat)
    requires StepShape(cs, k, gs, n, x)
    requires (i, k + u) in x.cells && (u, v) in gs.cells
    ensures (i, k + v) in Mul(x, BlockDiag(cs, gs)).cells
  {
    BlockDiagLowerIntro(cs, gs, u, v);
    MulIntro(x, BlockDiag(cs, gs), i, k + u, k + v);
  }

  /** The front itself is sound: its vertex bits are reached by the empty word. */
  lemma FrontSound(st: Setting)
    requires st.Good()
    ensures st.RowsSound(st.front)
  {
    forall e | e in st.front.cells && e.1 >= st.k
      ensures st.Reach(e.0, e.1 - st.k)
    {
      var u := e.1 - st.k;
      assert st.k > 0;
      assert st.Witness(e.0, u, e.0, u, []);
    }
  }

  /** Entries that are all reached make sound rows. */
  lemma ReachedSound(st: Setting, x: Matrix)
    requires st.Good()
    requires forall e | e in x.cells :: st.Reached(e)
    requires forall e | e in x.cells :: e.1 >= st.k ==> st.k > 0 && (e.0, e.0 % st.k) in x.cells
    ensures st.RowsSound(x)
  {
    forall e | e in x.cells && e.1 >= st.k
      ensures st.Reach(e.0, e.1 - st.k)
    {
      assert st.Hit(e.0, e.1 - st.k);
      var i: nat, u: nat, w: seq<Symbol> :| |w| > 0 && st.Witness(e.0, e.1 - st.k, i, u, w);
    }
  }

  lemma SoundReach(st: Setting, x: Matrix, i: nat, u: nat)
    requires st.RowsSound(x) && (i, st.k + u) in x.cells
    ensures st.Reach(i, u)
  {
    var e := (i, st.k + u);
    assert e in x.cells && e.1 >= st.k;
  }

  /** Extending the word of a reach by one symbol taken in both blocks gives a hit. */
  lemma {:induction false} ReachStep(st: Setting, i: nat, u: nat, s: Symbol, j: nat, v: nat)
    requires st.Good() && st.k > 0 && j < st.k && i < st.front.rows
    requires st.Reach(i, u) && s in st.c && s in st.g
    requires (i % st.k, j) in st.c[s].cells && (u, v) in st.g[s].cells
    ensures st.Hit(Anchor(i, j, st.k), v)
  {
    var i0: nat, u0: nat, w: seq<Symbol> :| st.Witness(i, u, i0, u0, w);
    var r := Anchor(i, j, st.k);
    AnchorFacts(i, j, st.k, st.front.rows);
    WalkSnoc(st.c, i0 % st.k, w, i % st.k, s, j);
    WalkSnoc(st.g, u0, w, u, s, v);
    assert st.Witness(r, v, i0, u0, w + [s]);
  }

  /**
   * An entry of a re-anchored matrix y: it sits in row Anchor(i, j) for a
   * constraint entry (i, j) of y, and row i of y has a vertex bit d, which
   * is the entry's own column when that column is a vertex.
   */
  lemma TransformEntry(y: Matrix, k: nat, r: nat, col: nat) returns (i: nat, j: nat, d: nat)
    requires y.Valid() && RowsFit(y.rows, k) && k <= y.cols
    requires (r, col) in Transform(y, k).cells
    ensures (i, j) in y.cells && j < k && r == Anchor(i, j, k)
    ensures (i, d) in y.cells && d >= k
    ensures (col >= k ==> d == col) && (col < k ==> col == j)
  {
    i, j := TransformElim(y, k, r, col);
    if col >= k {
      d := col;
    } else {
      d :| d in RightPart(y, i, k);
    }
  }

  /**
   * Where the entries of one step from x come from: row i of x sat in state
   * q and at vertex u, and the symbol's edges lead from q to j and from u to v.
   */
  lemma StepBack(cs: Matrix, k: nat, gs: Matrix, n: nat, x: Matrix, i: nat, j: nat, d: nat)
      returns (q: nat, u: nat, v: nat)
    requires StepShape(cs, k, gs, n, x)
    requires (i, j) in Mul(x, BlockDiag(cs, gs)).cells && j < k
    requires (i, d) in Mul(x, BlockDiag(cs, gs)).cells && d >= k
    ensures (i, q) in x.cells && (q, j) in cs.cells
    ensures (i, k + u) in x.cells && (u, v) in gs.cells && d == k + v
  {
    q := StepLeftElim(cs, k, gs, n, x, i, j);
    u, v := StepRightElim(cs, k, gs, n, x, i, d);
  }

  lemma ReachedVertex(st: Setting, r: nat, v: nat, col: nat)
    requires r < st.front.rows && col == st.k + v && st.Hit(r, v)
    ensures st.Reached((r, col))
  {
  }

  /** Every entry a step adds to sound rows is reached. */
  lemma StepSound(st: Setting, x: Matrix, s: Symbol, r: nat, col: nat)
    requires st.Good() && x.Valid() && x.rows == st.front.rows && x.cols == st.k + st.n
    requires st.RowsSound(x) && s in st.Sum()
    requires (r, col) in Transform(Mul(x, st.Sum()[s]), st.k).cells
    ensures st.Reached((r, col))
  {
    var i, j, u, v := StepOrigin(st.c, st.k, st.g, st.n, x, s, r, col);
    SoundReach(st, x, i, u);
    ReachStep(st, i, u, s, j, v);
    if col >= st.k {
      ReachedVertex(st, r, v, col);
    } else {
      AnchorFacts(i, j, st.k, x.rows);
      assert st.RowHit(r);
    }
  }

  /**
   * An entry of a re-anchored step from x: row i of x sat in state i % k at
   * vertex u, the symbol's edges lead to state j and vertex v, and the entry
   * is vertex bit v or state bit j of row Anchor(i, j).
   */
  lemma StepOrigin(c: Family, k: nat, g: Family, n: nat, x: Matrix, s: Symbol, r: nat, col: nat)
      returns (i: nat, j: nat, u: nat, v: nat)
    requires Square(c, k) && Square(g, n)
    requires x.Valid() && x.cols == k + n && RowsFit(x.rows, k)
    requires forall e | e in x.cells :: e.1 < k ==> e.1 == e.0 % k
    requires s in DirectSumFamily(c, k, g, n)
    requires (r, col) in Transform(Mul(x, DirectSumFamily(c, k, g, n)[s]), k).cells
    ensures k > 0 && i < x.rows && j < k && r == Anchor(i, j, k)
    ensures s in c && s in g && (i % k, j) in c[s].cells && (i, k + u) in x.cells && (u, v) in g[s].cells
    ensures (col >= k ==> col == k + v) && (col < k ==> col == j)
  {
    var cs, gs := c[s], g[s];
    assert StepShape(cs, k, gs, n, x);
    assert DirectSumFamily(c, k, g, n)[s] == BlockDiag(cs, gs);
    var d;
    i, j, d := TransformEntry(Mul(x, BlockDiag(cs, gs)), k, r, col);
    var q;
    q, u, v := StepBack(cs, k, gs, n, x, i, j, d);
    assert q == i % k;
  }

  /** Row r is the anchor of its own state in any row of its block. */
  lemma AnchorBlock(i: nat, r: nat, k: nat)
    requires k > 0 && i / k == r / k
    ensures Anchor(i, r % k, k) == r
  {
    AnchorSelf(r, k);
  }

  /**
   * One step forward: row i of x in state q at vertex u, with edges q -> j
   * and u -> v under one symbol, gives row i of the product bit j and
   * vertex bit v.
   */
  lemma StepForward(cs: Matrix, k: nat, gs: Matrix, n: nat, x: Matrix, i: nat, q: nat, u: nat, j: nat, v: nat, col: nat)
    requires StepShape(cs, k, gs, n, x)
    requires (i, q) in x.cells && (q, j) in cs.cells
    requires (i, k + u) in x.cells && (u, v) in gs.cells && col == k + v
    ensures j < k && (i, j) in Mul(x, BlockDiag(cs, gs)).cells
    ensures (i, col) in Mul(x, BlockDiag(cs, gs)).cells
  {
    StepLeftIntro(cs, k, gs, n, x, i, q, j);
    StepRightIntro(cs, k, gs, n, x, i, u, v);
  }

  /** Closure under every common symbol, read off for one symbol. */
  lemma ClosedAt(st: Setting, from: Matrix, x: Matrix, s: Symbol)
    requires Square(st.c, st.k) && Square(st.g, st.n)
    requires from.Valid() && from.cols == st.k + st.n && RowsFit(from.rows, st.k)
    requires st.StepClosed(from, x) && s in st.c && s in st.g
    ensures StepShape(st.c[s], st.k, st.g[s], st.n, from)
    ensures Transform(Mul(from, BlockDiag(st.c[s], st.g[s])), st.k).cells <= x.cells
  {
    assert s in st.Sum() && st.Sum()[s] == BlockDiag(st.c[s], st.g[s]);
  }

  /** One step forward from row i lands, re-anchored, inside any set holding the re-anchored step. */
  lemma StepInto(cs: Matrix, k: nat, gs: Matrix, n: nat, x: Matrix, into: set<Cell>,
                 i: nat, q: nat, u: nat, j: nat, v: nat, col: nat)
    requires StepShape(cs, k, gs, n, x) && RowsFit(x.rows, k)
    requires Transform(Mul(x, BlockDiag(cs, gs)), k).cells <= into
    requires (i, q) in x.cells && (q, j) in cs.cells
    requires (i, k + u) in x.cells && (u, v) in gs.cells && col == k + v
    ensures (Anchor(i, j, k), j) in into && (Anchor(i, j, k), col) in into
  {
    StepForward(cs, k, gs, n, x, i, q, u, j, v, col);
    TransformIntro(Mul(x, BlockDiag(cs, gs)), k, into, i, j, col);
  }

  /** A step from `from` under a common symbol lands inside x when x is closed under it. */
  lemma ClosedStep(st: Setting, from: Matrix, x: Matrix, s: Symbol, i: nat, q: nat, u: nat, j: nat, v: nat)
    requires Square(st.c, st.k) && Square(st.g, st.n)
    requires from.Valid() && from.cols == st.k + st.n && RowsFit(from.rows, st.k)
    requires st.StepClosed(from, x) && s in st.c && s in st.g
    requires (i, q) in from.cells && (q, j) in st.c[s].cells
    requires (i, st.k + u) in from.cells && (u, v) in st.g[s].cells
    ensures (Anchor(i, j, st.k), j) in x.cells && (Anchor(i, j, st.k), st.k + v) in x.cells
  {
    ClosedAt(st, from, x, s);
    StepInto(st.c[s], st.k, st.g[s], st.n, from, x.cells, i, q, u, j, v, st.k + v);
  }

  /**
   * A matrix holding the first step from the front and closed under further
   * steps holds every hit, together with the row's own state bit.
   */
  lemma {:induction false} HitsVisited(st: Setting, x: Matrix, r: nat, v: nat, i: nat, u: nat, w: seq<Symbol>)
    requires st.Good() && x.Valid() && x.rows == st.front.rows && x.cols == st.k + st.n
    requires st.StepClosed(st.front, x) && st.StepClosed(x, x)
    requires |w| > 0 && st.Witness(r, v, i, u, w)
    ensures (r, st.k + v) in x.cells && (r, r % st.k) in x.cells
    decreases |w|
  {
    var k := st.k;
    var w' := w[..|w| - 1];
    var s := w[|w| - 1];
    var q := WalkSplitLast(st.c, i % k, w, r % k);
    var v' := WalkSplitLast(st.g, u, w, v);
    AnchorFacts(i, r % k, k, st.front.rows);
    AnchorBlock(i, r, k);
    if |w'| == 0 {
      assert q == i % k && v' == u;
      ClosedStep(st, st.front, x, s, i, i % k, u, r % k, v);
    } else {
      var r' := Anchor(r, q, k);
      AnchorFacts(r, q, k, st.front.rows);
      assert st.Witness(r', v', i, u, w');
      HitsVisited(st, x, r', v', i, u, w');
      AnchorBlock(r', r, k);
      ClosedStep(st, x, x, s, r', q, v', r % k, v);
    }
  }

  /**
   * The search's characterisation of a finished visited matrix: sound and
   * step-closed means it holds exactly the reached entries.
   */
  lemma VisitedExact(st: Setting, x: Matrix, e: Cell)
    requires st.Good() && x.Valid() && x.rows == st.front.rows && x.cols == st.k + st.n
    requires forall e | e in x.cells :: st.Reached(e)
    requires st.StepClosed(st.front, x) && st.StepClosed(x, x)
    ensures e in x.cells <==> st.Reached(e)
  {
    if st.Reached(e) {
      if e.1 >= st.k {
        var i: nat, u: nat, w: seq<Symbol> :| |w| > 0 && st.Witness(e.0, e.1 - st.k, i, u, w);
        HitsVisited(st, x, e.0, e.1 - st.k, i, u, w);
      } else {
        var v: nat :| st.Hit(e.0, v);
        var i: nat, u: nat, w: seq<Symbol> :| |w| > 0 && st.Witness(e.0, v, i, u, w);
        HitsVisited(st, x, e.0, v, i, u, w);
      }
    }
  }
}
