/// The imperative core of the constrained breadth-first search: building
/// the initial front, re-anchoring the rows of a product
/// (`_transform_rows`), the fixpoint loop on the visited matrix and the
/// extraction of answers from it.
module Bfs {
  import opened Pairing
  import opened BoolMatrix
  import opened Walks
  import opened Frontier
  import opened Outcome
  import opened Fronts
  import opened Answers

  /** Adding one entry to the scanned part adds exactly that entry's contribution. */
  lemma TransformOfAdd(x: Matrix, done: set<Cell>, c: Cell, k: nat)
    ensures TransformOf(x, done + {c}, k) == TransformOf(x, done, k) + Contribution(x, c, k)
  {
    var lhs, rhs := TransformOf(x, done + {c}, k), TransformOf(x, done, k) + Contribution(x, c, k);
    forall e | e in lhs
      ensures e in rhs
    {
      var d :| d in done + {c} && e in Contribution(x, d, k);
    }
    forall e | e in rhs
      ensures e in lhs
    {
      if e !in Contribution(x, c, k) {
        var d :| d in done && e in Contribution(x, d, k);
        assert d in done + {c};
      }
    }
  }

  /** The row operations of one entry write exactly its contribution. */
  lemma RowUpdate(x: Matrix, i: nat, j: nat, k: nat, r: nat)
    requires j < k && RightPart(x, i, k) != {} && r == i / k * k + j
    ensures Contribution(x, (i, j), k) == {(r, j)} + set col: nat | col in RightPart(x, i, k) :: (r, col)
  {
    assert Anchor(i, j, k) == r;
  }

  /**
   * `_transform_rows`: every constraint entry (i, j) of a row with some
   * vertex bit sets bit j of row (i / k) * k + j and ORs row i's vertex
   * bits into that row; nothing else is written.
   */
  method TransformRows(x: Matrix, k: nat) returns (t: Matrix)
    requires x.Valid() && RowsFit(x.rows, k) && k <= x.cols
    ensures t == Transform(x, k)
  {
    var cells: set<Cell> := {};
    var todo := x.cells;
    while todo != {}
      invariant todo <= x.cells
      invariant cells == TransformOf(x, x.cells - todo, k)
      decreases todo
    {
      var c :| c in todo;
      var i, j := c.0, c.1;
      if j < k {
        var right := RightPart(x, i, k);
        if right != {} {
          var r: nat := i / k * k + j;
          cells := cells + {(r, j)} + set col: nat | col in right :: (r, col);
          RowUpdate(x, i, j, k, r);
        }
      }
      TransformOfAdd(x, x.cells - todo, c, k);
      assert (x.cells - todo) + {c} == x.cells - (todo - {c});
      todo := todo - {c};
    }
    assert x.cells - todo == x.cells;
    t := Matrix(x.rows, x.cols, cells);
  }

  /** Left bits sit on the block diagonal and every vertex bit has its row's own left bit. */
  ghost predicate Shaped(x: Matrix, k: nat) {
    && (forall e | e in x.cells :: e.1 < k ==> e.1 == e.0 % k)
    && (forall e | e in x.cells :: e.1 >= k ==> k > 0 && (e.0, e.0 % k) in x.cells)
  }

  /** Re-anchoring always yields the shape of a front. */
  lemma TransformShaped(y: Matrix, k: nat)
    requires y.Valid() && RowsFit(y.rows, k) && k <= y.cols
    ensures Shaped(Transform(y, k), k)
  {
    var t := Transform(y, k);
    forall e | e in t.cells
      ensures e.1 < k ==> e.1 == e.0 % k
      ensures e.1 >= k ==> k > 0 && (e.0, e.0 % k) in t.cells
    {
      var i, j := TransformElim(y, k, e.0, e.1);
      AnchorFacts(i, j, k, y.rows);
      if e.1 >= k {
        TransformIntro(y, k, t.cells, i, j, e.1);
      }
    }
  }

  /** Entries every step adds from sound rows are reached and shaped. */
  lemma StepAdds(st: Setting, src: Matrix, s: Symbol)
    requires st.Good() && src.Valid() && src.rows == st.front.rows && src.cols == st.k + st.n
    requires st.RowsSound(src) && s in st.Sum()
    ensures forall e | e in Transform(Mul(src, st.Sum()[s]), st.k).cells :: st.Reached(e)
    ensures Shaped(Transform(Mul(src, st.Sum()[s]), st.k), st.k)
  {
    var y := Mul(src, st.Sum()[s]);
    TransformShaped(y, st.k);
    forall e | e in Transform(y, st.k).cells
      ensures st.Reached(e)
    {
      StepSound(st, src, s, e.0, e.1);
    }
  }

  /** Closure under a step survives growing the target. */
  lemma StepClosedGrow(st: Setting, from: Matrix, x: Matrix, y: Matrix)
    requires Square(st.c, st.k) && Square(st.g, st.n)
    requires from.Valid() && from.cols == st.k + st.n && RowsFit(from.rows, st.k)
    requires st.StepClosed(from, x) && x.cells <= y.cells
    ensures st.StepClosed(from, y)
  {
  }

  /** A matrix without entries steps to nothing. */
  lemma EmptyStepClosed(st: Setting, x: Matrix)
    requires Square(st.c, st.k) && Square(st.g, st.n)
    requires x.Valid() && x.cols == st.k + st.n && RowsFit(x.rows, st.k) && x.cells == {}
    ensures st.StepClosed(x, x)
  {
    forall s | s in st.Sum()
      ensures Transform(Mul(x, st.Sum()[s]), st.k).cells <= x.cells
    {
      assert Mul(x, st.Sum()[s]).cells == {};
    }
  }

  /** Steps from `from` under the symbols `syms` land inside x. */
  ghost predicate ClosedOn(st: Setting, from: Matrix, x: Matrix, syms: set<Symbol>)
    requires Square(st.c, st.k) && Square(st.g, st.n)
    requires from.Valid() && from.cols == st.k + st.n && RowsFit(from.rows, st.k)
  {
    forall s | s in syms && s in st.Sum() :: Transform(Mul(from, st.Sum()[s]), st.k).cells <= x.cells
  }

  /** One more symbol whose step landed inside the grown matrix. */
  lemma ClosedOnAdd(st: Setting, from: Matrix, x: Matrix, y: Matrix, all: set<Symbol>, rest: set<Symbol>, s: Symbol)
    requires Square(st.c, st.k) && Square(st.g, st.n)
    requires from.Valid() && from.cols == st.k + st.n && RowsFit(from.rows, st.k)
    requires ClosedOn(st, from, x, all - rest) && x.cells <= y.cells && s in st.Sum()
    requires Transform(Mul(from, st.Sum()[s]), st.k).cells <= y.cells
    ensures ClosedOn(st, from, y, all - (rest - {s}))
  {
  }

  /** Closed on every symbol of the direct sum is step-closed. */
  lemma ClosedOnAll(st: Setting, from: Matrix, x: Matrix)
    requires Square(st.c, st.k) && Square(st.g, st.n)
    requires from.Valid() && from.cols == st.k + st.n && RowsFit(from.rows, st.k)
    requires ClosedOn(st, from, x, st.Sum().Keys - {})
    ensures st.StepClosed(from, x)
  {
    assert st.Sum().Keys - {} == st.Sum().Keys;
  }

  /**
   * One step of a pass keeps the pass invariants: the entries stay reached
   * and shaped, and while nothing has changed since the pass began every
   * symbol done so far is closed.
   */
  lemma PassStep(st: Setting, first: bool, previous: Matrix, before: Matrix, s: Symbol, rest: set<Symbol>)
      returns (after: Matrix)
    requires st.Good() && s in st.Sum()
    requires before.Valid() && before.rows == st.front.rows && before.cols == st.k + st.n
    requires previous.Valid() && previous.rows == st.front.rows && previous.cols == st.k + st.n
    requires previous.cells <= before.cells
    requires forall e | e in before.cells :: st.Reached(e)
    requires Shaped(before, st.k)
    requires first ==> ClosedOn(st, st.front, before, st.Sum().Keys - rest)
    requires !first && before.cells == previous.cells ==> ClosedOn(st, previous, before, st.Sum().Keys - rest)
    ensures after == Or(before, Transform(Mul(if first then st.front else before, st.Sum()[s]), st.k))
    ensures previous.cells <= after.cells
    ensures forall e | e in after.cells :: st.Reached(e)
    ensures Shaped(after, st.k)
    ensures first ==> ClosedOn(st, st.front, after, st.Sum().Keys - (rest - {s}))
    ensures !first && after.cells == previous.cells ==> ClosedOn(st, previous, after, st.Sum().Keys - (rest - {s}))
  {
    var source := if first then st.front else before;
    if first {
      FrontSound(st);
    } else {
      ReachedSound(st, before);
    }
    StepAdds(st, source, s);
    var step := Transform(Mul(source, st.Sum()[s]), st.k);
    after := Or(before, step);
    if first {
      ClosedOnAdd(st, st.front, before, after, st.Sum().Keys, rest, s);
    } else if after.cells == previous.cells {
      assert before == previous;
      ClosedOnAdd(st, previous, before, after, st.Sum().Keys, rest, s);
    }
  }

  /**
   * One pass of the loop of `constraint_bfs`: for every matrix of the direct
   * sum, the front (first pass) or the current visited matrix is multiplied
   * by it, re-anchored and ORed into visited. Entries stay reached; the first
   * pass takes in every step from the front, and a pass that changes nothing
   * leaves visited closed under steps from itself.
   */
  method Pass(sum: Family, k: nat, front: Matrix, ghost st: Setting, first: bool, previous: Matrix)
      returns (visited: Matrix)
    requires st.Good() && st.front == front && st.k == k && sum == st.Sum()
    requires previous.Valid() && previous.rows == front.rows && previous.cols == front.cols
    requires forall e | e in previous.cells :: st.Reached(e)
    requires Shaped(previous, k)
    ensures visited.Valid() && visited.rows == front.rows && visited.cols == front.cols
    ensures previous.cells <= visited.cells
    ensures forall e | e in visited.cells :: st.Reached(e)
    ensures Shaped(visited, k)
    ensures first ==> st.StepClosed(front, visited)
    ensures !first && visited.cells == previous.cells ==> st.StepClosed(previous, visited)
  {
    visited := previous;
    var symbols := sum.Keys;
    while symbols != {}
      invariant symbols <= sum.Keys
      invariant visited.Valid() && visited.rows == front.rows && visited.cols == front.cols
      invariant previous.cells <= visited.cells
      invariant forall e | e in visited.cells :: st.Reached(e)
      invariant Shaped(visited, k)
      invariant first ==> ClosedOn(st, front, visited, sum.Keys - symbols)
      invariant !first && visited.cells == previous.cells ==> ClosedOn(st, previous, visited, sum.Keys - symbols)
      decreases symbols
    {
      var s :| s in symbols;
      var source := if first then front else visited;
      ghost var next := PassStep(st, first, previous, visited, s, symbols);
      var step := TransformRows(Mul(source, sum[s]), k);
      visited := Or(visited, step);
      symbols := symbols - {s};
    }
    if first {
      ClosedOnAll(st, front, visited);
    } else if visited.cells == previous.cells {
      ClosedOnAll(st, previous, visited);
    }
  }

  /**
   * The loop of `constraint_bfs`: passes repeat until one leaves the number
   * of true entries unchanged. What it returns is exactly the set of
   * reached entries.
   */
  method Search(sum: Family, k: nat, front: Matrix, ghost st: Setting) returns (visited: Matrix)
    requires st.Good() && st.front == front && st.k == k && sum == st.Sum()
    ensures visited.Valid() && visited.rows == front.rows && visited.cols == front.cols
    ensures forall e :: e in visited.cells <==> st.Reached(e)
  {
    visited := Zero(front.rows, front.cols);
    var first := true;
    while true
      invariant visited.Valid() && visited.rows == front.rows && visited.cols == front.cols
      invariant forall e | e in visited.cells :: st.Reached(e)
      invariant Shaped(visited, k)
      invariant first ==> visited.cells == {}
      invariant !first ==> st.StepClosed(front, visited)
      invariant visited.Nnz() <= front.rows * front.cols
      decreases front.rows * front.cols - visited.Nnz()
    {
      var previous := visited;
      visited := Pass(sum, k, front, st, first, previous);
      if !first {
        StepClosedGrow(st, front, previous, visited);
      }
      first := false;
      if visited.Nnz() == previous.Nnz() {
        SameCountNoGrowth(previous.cells, visited.cells);
        if previous.cells == {} {
          EmptyStepClosed(st, visited);
        }
        break;
      }
      SubsetCard(previous.cells, visited.cells);
      NnzBound(visited);
    }
    forall e
      ensures e in visited.cells <==> st.Reached(e)
    {
      VisitedExact(st, visited, e);
    }
  }
}
