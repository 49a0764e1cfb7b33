/// Boolean matrices as the set of their true entries with explicit
/// dimensions. Only the nonzero pattern of the sparse matrices of the
/// program matters, so `Nnz` is the size of `cells`, `+` on boolean
/// matrices is `Or`, `@` is `Mul`, `kron` is `Kron`, `bmat` with two
/// diagonal blocks is `BlockDiag` and `vstack` of copies is `Stack`.
module BoolMatrix {
  import opened Pairing

  type Cell = (nat, nat)

  /** The position c lies in a rows x cols matrix. */
  predicate Inside(c: Cell, rows: nat, cols: nat) {
    c.0 < rows && c.1 < cols
  }

  datatype Matrix = Matrix(rows: nat, cols: nat, cells: set<Cell>) {

    /** Every true entry lies inside the dimensions. */
    predicate Valid() {
      forall c | c in cells :: Inside(c, rows, cols)
    }

    /** The number of true entries (scipy's `nnz`). */
    function Nnz(): nat {
      |cells|
    }
  }

  /** All positions of a rows x cols matrix. */
  function Grid(rows: nat, cols: nat): (g: set<Cell>)
    ensures forall c :: c in g <==> c.0 < rows && c.1 < cols
  {
    set i: nat, j: nat | i < rows && j < cols :: (i, j)
  }

  function Zero(rows: nat, cols: nat): (z: Matrix)
    ensures z.Valid() && z.rows == rows && z.cols == cols && z.cells == {}
  {
    Matrix(rows, cols, {})
  }

  /** Setting one entry to true; nothing else changes. */
  function SetEntry(m: Matrix, i: nat, j: nat): (r: Matrix)
    requires m.Valid() && i < m.rows && j < m.cols
    ensures r.Valid() && r.rows == m.rows && r.cols == m.cols
    ensures r.cells == m.cells + {(i, j)}
  {
    Matrix(m.rows, m.cols, m.cells + {(i, j)})
  }

  /** Entrywise OR of two matrices of one shape. */
  function Or(a: Matrix, b: Matrix): (r: Matrix)
    requires a.rows == b.rows && a.cols == b.cols
    requires a.Valid() && b.Valid()
    ensures r.Valid() && r.rows == a.rows && r.cols == a.cols
    ensures forall c :: c in r.cells <==> c in a.cells || c in b.cells
  {
    Matrix(a.rows, a.cols, a.cells + b.cells)
  }

  /** Boolean matrix product: (i, j) is true iff some k has (i, k) in a and (k, j) in b. */
  function Mul(a: Matrix, b: Matrix): (r: Matrix)
    requires a.cols == b.rows && a.Valid() && b.Valid()
    ensures r.Valid() && r.rows == a.rows && r.cols == b.cols
  {
    Matrix(a.rows, b.cols, set x, y | x in a.cells && y in b.cells && x.1 == y.0 :: (x.0, y.1))
  }

  lemma MulEntry(a: Matrix, b: Matrix, i: nat, j: nat)
    requires a.cols == b.rows && a.Valid() && b.Valid()
    ensures (i, j) in Mul(a, b).cells <==> exists k: nat :: (i, k) in a.cells && (k, j) in b.cells
  {
    if exists k: nat :: (i, k) in a.cells && (k, j) in b.cells {
      var k: nat :| (i, k) in a.cells && (k, j) in b.cells;
      MulIntro(a, b, i, k, j);
    }
    if (i, j) in Mul(a, b).cells {
      var k := MulElim(a, b, i, j);
    }
  }

  /** A middle index joining i to j puts (i, j) in the product. */
  lemma MulIntro(a: Matrix, b: Matrix, i: nat, k: nat, j: nat)
    requires a.cols == b.rows && a.Valid() && b.Valid()
    requires (i, k) in a.cells && (k, j) in b.cells
    ensures (i, j) in Mul(a, b).cells
  {
    var x, y := (i, k), (k, j);
    assert (x.0, y.1) == (i, j);
  }

  /** Every entry of the product has a middle index. */
  lemma MulElim(a: Matrix, b: Matrix, i: nat, j: nat) returns (k: nat)
    requires a.cols == b.rows && a.Valid() && b.Valid()
    requires (i, j) in Mul(a, b).cells
    ensures (i, k) in a.cells && (k, j) in b.cells
  {
    var x, y :| x in a.cells && y in b.cells && x.1 == y.0 && (i, j) == (x.0, y.1);
    k := x.1;
  }

  /** The entry of a Kronecker product made from entry x of the left factor and entry y of a right factor of shape rows x cols. */
  function KronCell(x: Cell, y: Cell, rows: nat, cols: nat): Cell {
    (Pair(x.0, y.0, rows), Pair(x.1, y.1, cols))
  }

  /** Kronecker product: block (ia, ja) of the result is b scaled by a[ia][ja]. */
  function Kron(a: Matrix, b: Matrix): (r: Matrix)
    requires a.Valid() && b.Valid()
    ensures r.rows == a.rows * b.rows && r.cols == a.cols * b.cols
  {
    Matrix(a.rows * b.rows, a.cols * b.cols,
      set x, y | x in a.cells && y in b.cells :: KronCell(x, y, b.rows, b.cols))
  }

  /** The entry of the Kronecker product at an encoded position is the AND of the two factors. */
  lemma {:induction false} KronEntryPair(a: Matrix, b: Matrix, ia: nat, ja: nat, ib: nat, jb: nat)
    requires a.Valid() && b.Valid()
    requires ib < b.rows && jb < b.cols
    ensures (Pair(ia, ib, b.rows), Pair(ja, jb, b.cols)) in Kron(a, b).cells
        <==> (ia, ja) in a.cells && (ib, jb) in b.cells
  {
    var p, q := Pair(ia, ib, b.rows), Pair(ja, jb, b.cols);
    if (p, q) in Kron(a, b).cells {
      var x, y :| x in a.cells && y in b.cells
        && (p, q) == KronCell(x, y, b.rows, b.cols);
      PairInjective(ia, ib, x.0, y.0, b.rows);
      PairInjective(ja, jb, x.1, y.1, b.cols);
    }
  }

  /** Every entry of the Kronecker product decodes, by `/` and `%`, into an entry of each factor. */
  lemma {:induction false} KronEntry(a: Matrix, b: Matrix, p: nat, q: nat)
    requires a.Valid() && b.Valid()
    ensures Kron(a, b).Valid()
    ensures (p, q) in Kron(a, b).cells
        <==> (p < a.rows * b.rows && q < a.cols * b.cols
          && (p / b.rows, q / b.cols) in a.cells && (p % b.rows, q % b.cols) in b.cells)
  {
    KronValid(a, b);
    if p < a.rows * b.rows && q < a.cols * b.cols {
      PairUnpair(p, a.rows, b.rows);
      PairUnpair(q, a.cols, b.cols);
      KronEntryPair(a, b, p / b.rows, q / b.cols, p % b.rows, q % b.cols);
    }
  }

  lemma KronValid(a: Matrix, b: Matrix)
    requires a.Valid() && b.Valid()
    ensures Kron(a, b).Valid()
  {
    forall c | c in Kron(a, b).cells
      ensures c.0 < a.rows * b.rows && c.1 < a.cols * b.cols
    {
      var x, y :| x in a.cells && y in b.cells
        && c == KronCell(x, y, b.rows, b.cols);
      PairBound(x.0, y.0, a.rows, b.rows);
      PairBound(x.1, y.1, a.cols, b.cols);
    }
  }

  /** Block-diagonal composition [[a, 0], [0, b]]. */
  function BlockDiag(a: Matrix, b: Matrix): (r: Matrix)
    requires a.Valid() && b.Valid()
    ensures r.Valid() && r.rows == a.rows + b.rows && r.cols == a.cols + b.cols
  {
    Matrix(a.rows + b.rows, a.cols + b.cols,
      set c | c in Grid(a.rows + b.rows, a.cols + b.cols) && InBlocks(a, b, c))
  }

  /** c lies in a's block as an entry of a, or in b's block as an entry of b. */
  predicate InBlocks(a: Matrix, b: Matrix, c: Cell) {
    || c in a.cells
    || (c.0 >= a.rows && c.1 >= a.cols && (c.0 - a.rows, c.1 - a.cols) in b.cells)
  }

  /** An entry of a stays in the top-left block. */
  lemma BlockDiagUpperIntro(a: Matrix, b: Matrix, p: nat, q: nat)
    requires a.Valid() && b.Valid() && (p, q) in a.cells
    ensures (p, q) in BlockDiag(a, b).cells
  {
    assert InBlocks(a, b, (p, q));
  }

  /** An entry of b appears shifted into the bottom-right block. */
  lemma BlockDiagLowerIntro(a: Matrix, b: Matrix, u: nat, v: nat)
    requires a.Valid() && b.Valid() && (u, v) in b.cells
    ensures (a.rows + u, a.cols + v) in BlockDiag(a, b).cells
  {
    var c := (a.rows + u, a.cols + v);
    assert (c.0 - a.rows, c.1 - a.cols) == (u, v);
    assert InBlocks(a, b, c);
  }

  /** An entry right of the top-left block lies in the bottom-right block and comes from b. */
  lemma BlockDiagLowerElim(a: Matrix, b: Matrix, p: nat, q: nat) returns (u: nat, v: nat)
    requires a.Valid() && b.Valid()
    requires (p, q) in BlockDiag(a, b).cells && q >= a.cols
    ensures p == a.rows + u && q == a.cols + v && (u, v) in b.cells
  {
    assert InBlocks(a, b, (p, q));
    u, v := p - a.rows, q - a.cols;
  }

  /** An entry left of column a.cols comes from a. */
  lemma BlockDiagUpperElim(a: Matrix, b: Matrix, p: nat, q: nat)
    requires a.Valid() && b.Valid()
    requires (p, q) in BlockDiag(a, b).cells && q < a.cols
    ensures (p, q) in a.cells
  {
    assert InBlocks(a, b, (p, q));
  }

  /** `copies` copies of m stacked vertically. */
  function Stack(m: Matrix, copies: nat): (r: Matrix)
    requires m.Valid()
    ensures r.rows == copies * m.rows && r.cols == m.cols
  {
    Matrix(copies * m.rows, m.cols,
      set b: nat, c | b < copies && c in m.cells :: (Pair(b, c.0, m.rows), c.1))
  }

  /** Row b * rows + i of the stack is row i of m, for every copy b. */
  lemma {:induction false} StackEntry(m: Matrix, copies: nat, p: nat, q: nat)
    requires m.Valid()
    ensures Stack(m, copies).Valid()
    ensures (p, q) in Stack(m, copies).cells
        <==> p < copies * m.rows && (p % m.rows, q) in m.cells
  {
    forall c | c in Stack(m, copies).cells
      ensures c.0 < copies * m.rows && c.1 < m.cols
    {
      var b: nat, d :| b < copies && d in m.cells && c == (Pair(b, d.0, m.rows), d.1);
      PairBound(b, d.0, copies, m.rows);
    }
    if (p, q) in Stack(m, copies).cells {
      var b: nat, d :| b < copies && d in m.cells && (p, q) == (Pair(b, d.0, m.rows), d.1);
      UnpairPair(b, d.0, m.rows);
    }
    if p < copies * m.rows && (p % m.rows, q) in m.cells {
      PairUnpair(p, copies, m.rows);
      var d := (p % m.rows, q);
      assert (Pair(p / m.rows, d.0, m.rows), d.1) == (p, q);
    }
  }

  /** A valid matrix has at most rows * cols true entries. */
  lemma NnzBound(m: Matrix)
    requires m.Valid()
    ensures m.Nnz() <= m.rows * m.cols
  {
    CellsBound(m.cells, m.rows, m.cols);
  }

  lemma {:induction false} CellsBound(cells: set<Cell>, rows: nat, cols: nat)
    requires forall c | c in cells :: c.0 < rows && c.1 < cols
    ensures |cells| <= rows * cols
    decreases rows
  {
    if rows == 0 {
      assert cells == {} by {
        if c :| c in cells {
          assert false;
        }
      }
    } else {
      var last := set c | c in cells && c.0 == rows - 1;
      var rest := cells - last;
      RowBound(last, rows - 1, cols);
      CellsBound(rest, rows - 1, cols);
      SplitCard(cells, last);
      MulPred(rows, cols);
    }
  }

  /** Taking a subset out of a set removes exactly its elements from the count. */
  lemma SplitCard<T>(s: set<T>, part: set<T>)
    requires part <= s
    ensures |s| == |s - part| + |part|
  {
    assert s == (s - part) + part;
  }

  lemma MulPred(rows: nat, cols: nat)
    requires rows > 0
    ensures (rows - 1) * cols + cols == rows * cols
  {
  }

  /** The entries of one row number at most cols. */
  lemma {:induction false} RowBound(cells: set<Cell>, r: nat, cols: nat)
    requires forall c | c in cells :: c.0 == r && c.1 < cols
    ensures |cells| <= cols
    decreases cols
  {
    if cols == 0 {
      assert cells == {} by {
        if c :| c in cells {
          assert false;
        }
      }
    } else {
      var rest := cells - {(r, cols - 1)};
      RowBound(rest, r, cols - 1);
      assert cells <= rest + {(r, cols - 1)};
      SubsetCard(cells, rest + {(r, cols - 1)});
    }
  }

  lemma SubsetCard(small: set<Cell>, big: set<Cell>)
    requires small <= big
    ensures |small| <= |big|
  {
    assert big == small + (big - small) && small * (big - small) == {};
  }

  /** Growth detected by the entry count: when a matrix only gains entries, an equal count means no change. */
  lemma SameCountNoGrowth(small: set<Cell>, big: set<Cell>)
    requires small <= big && |small| == |big|
    ensures small == big
  {
    assert big * small == small;
    assert |big - small| == 0;
    assert big == small + (big - small);
  }
}
