/// The boolean decomposition used by the tensor algorithm
/// (`project/cfg/cf_bd.py`): built either from a recursive state machine
/// (one automaton, a box, per nonterminal, with every state tagged by its
/// box) or from a graph automaton, intersected by Kronecker products with
/// pair states, and closed transitively.
module GrammarDecomposition {
  import opened Pairing
  import opened BoolMatrix
  import opened Walks
  import opened Automata
  import opened Decomposition

  /** Nonterminals are named by strings, as the matrix labels are. */
  type Variable = string

  /** A state of this decomposition: a graph vertex, a box state tagged by its box, or a product pair. */
  datatype Node = Vertex(id: State) | Boxed(box: Variable, local: State) | Paired(left: Node, right: Node)

  /** A transition of one box. */
  datatype BoxEdge = BoxEdge(box: Variable, edge: Transition)

  /** An enumeration of a set: no node listed twice. */
  predicate Listed(order: seq<Node>) {
    forall i, j | 0 <= i < j < |order| :: order[i] != order[j]
  }

  /** `{s: i for i, s in enumerate(order)}`. */
  function NodeIndex(order: seq<Node>): (m: map<Node, nat>)
    requires Listed(order)
    ensures m.Keys == set x | x in order
    ensures forall i | 0 <= i < |order| :: m[order[i]] == i
    ensures forall x | x in m :: m[x] < |order| && order[m[x]] == x
  {
    map i | 0 <= i < |order| :: order[i] := i
  }

  /** Which states of a box a tagged set collects. */
  datatype Mark = AllStates | Starts | Finals

  /** The state st of box a is one that `mark` selects. */
  predicate Marks(a: Nfa, st: State, mark: Mark) {
    match mark
    case AllStates => true
    case Starts => st in a.startStates
    case Finals => st in a.finalStates
  }

  /** The states selected by `mark` of the boxes named in `keys`, tagged by their box. */
  function TaggedOf(boxes: map<Variable, Nfa>, keys: set<Variable>, mark: Mark): set<Node> {
    set n, st | n in keys && n in boxes && st in boxes[n].states && Marks(boxes[n], st, mark) :: Boxed(n, st)
  }

  /** `TaggedOf` stated element by element. */
  ghost predicate TaggedAs(s: set<Node>, boxes: map<Variable, Nfa>, keys: set<Variable>, mark: Mark) {
    && (forall x | x in s ::
          x.Boxed? && x.box in keys && x.box in boxes && x.local in boxes[x.box].states && Marks(boxes[x.box], x.local, mark))
    && (forall n, st | n in keys && n in boxes && st in boxes[n].states && Marks(boxes[n], st, mark) :: Boxed(n, st) in s)
  }

  lemma TaggedAsIs(s: set<Node>, boxes: map<Variable, Nfa>, keys: set<Variable>, mark: Mark)
    requires TaggedAs(s, boxes, keys, mark)
    ensures s == TaggedOf(boxes, keys, mark)
  {
  }

  /** Every transition of every box. */
  function BoxEdges(boxes: map<Variable, Nfa>): set<BoxEdge> {
    set n, t | n in boxes && t in boxes[n].transitions :: BoxEdge(n, t)
  }

  /** The transitions `trans` of box n. */
  function EdgesOf(n: Variable, trans: set<Transition>): set<BoxEdge> {
    set t | t in trans :: BoxEdge(n, t)
  }

  /** Every box is well formed. */
  predicate BoxesWellFormed(boxes: map<Variable, Nfa>) {
    forall n | n in boxes :: WellFormed(boxes[n])
  }

  /** A box transition as a transition between the numbers of its tagged endpoints. */
  function Numbered(e: BoxEdge, index: map<Node, nat>): Transition
    requires Boxed(e.box, e.edge.from) in index && Boxed(e.box, e.edge.to) in index
  {
    Transition(index[Boxed(e.box, e.edge.from)], e.edge.symbol, index[Boxed(e.box, e.edge.to)])
  }

  /** All box transitions of `edges` between numbered states. */
  function NumberedEdges(edges: set<BoxEdge>, index: map<Node, nat>): set<Transition>
    requires forall e | e in edges :: Boxed(e.box, e.edge.from) in index && Boxed(e.box, e.edge.to) in index
  {
    set e | e in edges :: Numbered(e, index)
  }

  /** The numbers 0, ..., n - 1 as their own index. */
  function Numbers(n: nat): (m: map<State, nat>)
    ensures forall i: nat :: i in m <==> i < n
    ensures forall i | i in m :: m[i] == i
  {
    if n == 0 then map[] else Numbers(n - 1)[n - 1 := n - 1]
  }

  /** The matrices `from_rsm` builds: an entry per box transition between the numbers of its tagged endpoints. */
  function RsmFamily(boxes: map<Variable, Nfa>, index: map<Node, nat>, n: nat): (f: Family)
    requires forall e | e in BoxEdges(boxes) :: Boxed(e.box, e.edge.from) in index && Boxed(e.box, e.edge.to) in index
    requires forall x | x in index :: index[x] < n
  {
    TransitionFamily(NumberedEdges(BoxEdges(boxes), index), Numbers(n), n)
  }

  /** The matrices `from_automata` builds: one per symbol, all false for a symbol no transition carries. */
  function SymbolFamily(a: Nfa, symbols: set<Symbol>): (f: Family)
    requires WellFormed(a)
    ensures Square(f, |a.states|) && f.Keys == symbols
  {
    map s | s in symbols :: Matrix(|a.states|, |a.states|, LabelEntries(a.transitions, IndexMap(a.states), s))
  }

  /** The graph vertices, numbered by enumeration. */
  function VertexIndex(states: seq<State>): (m: map<Node, nat>)
    requires Distinct(states)
    ensures forall x | x in m :: x.Vertex? && x.id in states && m[x] < |states| && states[m[x]] == x.id
    ensures forall i | 0 <= i < |states| :: Vertex(states[i]) in m && m[Vertex(states[i])] == i
  {
    map i | 0 <= i < |states| :: Vertex(states[i]) := i
  }

  /** The vertex nodes of a set of states. */
  function Vertices(s: set<State>): set<Node> {
    set x | x in s :: Vertex(x)
  }

  /** The pair nodes of the keys of two maps with the pair index `left index * |right| + right index`. */
  function ProductIndex(left: map<Node, nat>, right: map<Node, nat>): (m: map<Node, nat>)
    ensures m.Keys == PairNodes(left.Keys, right.Keys)
    ensures forall a, b | a in left && b in right :: m[Paired(a, b)] == Pair(left[a], right[b], |right|)
  {
    map p | p in PairNodes(left.Keys, right.Keys) :: Pair(left[p.left], right[p.right], |right|)
  }

  /** The pairs (a, b) with a in A and b in B. */
  function PairNodes(A: set<Node>, B: set<Node>): set<Node> {
    set a, b | a in A && b in B :: Paired(a, b)
  }

  /** The pairs (a, b) with b in B. */
  function RowNodes(a: Node, B: set<Node>): set<Node> {
    set b | b in B :: Paired(a, b)
  }

  class BooleanDecomposition {
    var indexedStates: map<Node, nat>
    var startStates: set<Node>
    var finalStates: set<Node>
    var matrices: Family

    /** Every matrix is square over the numbered states, and the numbers are below their count. */
    ghost predicate Valid()
      reads this
    {
      && Square(matrices, |indexedStates|)
      && forall x | x in indexedStates :: indexedStates[x] < |indexedStates|
    }

    /** `__init__`: the four fields as given. */
    constructor (indexedStates: map<Node, nat>, startStates: set<Node>, finalStates: set<Node>, matrices: Family)
      ensures this.indexedStates == indexedStates && this.startStates == startStates
      ensures this.finalStates == finalStates && this.matrices == matrices
    {
      this.indexedStates := indexedStates;
      this.startStates := startStates;
      this.finalStates := finalStates;
      this.matrices := matrices;
    }

    /**
     * `from_rsm`: every box state tagged by its box, numbered in the
     * enumeration order of the tagged set, and one entry per box
     * transition between the numbers of its tagged endpoints, the matrix
     * of a label created when it is first needed.
     */
    static method FromRsm(boxes: map<Variable, Nfa>, order: seq<Node>) returns (d: BooleanDecomposition)
      requires BoxesWellFormed(boxes) && Listed(order)
      requires forall x :: x in order <==> x in TaggedOf(boxes, boxes.Keys, AllStates)
      ensures fresh(d) && d.Valid()
      ensures d.indexedStates == NodeIndex(order)
      ensures d.startStates == TaggedOf(boxes, boxes.Keys, Starts)
      ensures d.finalStates == TaggedOf(boxes, boxes.Keys, Finals)
      ensures d.matrices == RsmFamily(boxes, NodeIndex(order), |order|)
    {
      var states, start, final := TagStates(boxes);
      var index := NodeIndex(order);
      NodeIndexSize(order);
      TaggedIndexed(boxes, order);
      var matrices := RsmMatrices(boxes, index, |order|);
      d := new BooleanDecomposition(index, start, final, matrices);
    }

    /**
     * `from_automata`: the states numbered by enumeration, an n x n matrix
     * for every symbol of the automaton (all false when no transition
     * carries it), and the start and final states copied.
     */
    static method FromAutomata(a: Nfa, symbols: set<Symbol>) returns (d: BooleanDecomposition)
      requires WellFormed(a) && Labels(a.transitions) <= symbols
      ensures fresh(d) && d.Valid()
      ensures d.indexedStates == VertexIndex(a.states)
      ensures d.startStates == Vertices(a.startStates) && d.finalStates == Vertices(a.finalStates)
      ensures d.matrices == SymbolFamily(a, symbols)
    {
      var index := VertexIndex(a.states);
      VertexCard(a.states);
      var matrices := SymbolMatrices(a, symbols);
      d := new BooleanDecomposition(index, Vertices(a.startStates), Vertices(a.finalStates), matrices);
    }

    /**
     * `transitive_closure`: the sum of all matrices over the numbered
     * states, returned at once when it has no entry, otherwise squared and
     * added until the count of entries stops changing. It holds exactly
     * the pairs joined by a non-empty walk.
     */
    method TransitiveClosure() returns (closure: Matrix)
      requires Valid()
      ensures closure.Valid() && closure.rows == |indexedStates| && closure.cols == |indexedStates|
      ensures forall i: nat, j: nat :: (i, j) in closure.cells <==> Connected(matrices, i, j)
    {
      var f, n := matrices, |indexedStates|;
      closure := Union(f, n);
      forall x, y | (x, y) in closure.cells
        ensures Connected(f, x, y)
      {
        var s :| s in f && (x, y) in f[s].cells;
        WalkEdge(f, x, s, y);
      }
      NnzBound(closure);
      if closure.Nnz() == 0 {
        forall i: nat, j: nat | Connected(f, i, j)
          ensures false
        {
        }
        return;
      }
      var first := true;
      var prev, curr := 0, closure.Nnz();
      while first || prev != curr
        invariant closure.Valid() && closure.rows == n && closure.cols == n
        invariant Union(f, n).cells <= closure.cells
        invariant forall x, y :: (x, y) in closure.cells ==> Connected(f, x, y)
        invariant curr == closure.Nnz() && prev <= curr && curr <= n * n
        invariant !first && prev == curr ==> Mul(closure, closure).cells <= closure.cells
        decreases n * n - curr + (if first || prev != curr then 1 else 0)
      {
        var before := closure;
        closure := Or(closure, Mul(closure, closure));
        forall x, y | (x, y) in closure.cells
          ensures Connected(f, x, y)
        {
          if (x, y) !in before.cells {
            ConnectedProduct(f, before, x, y);
          }
        }
        SubsetCard(before.cells, closure.cells);
        NnzBound(closure);
        if closure.Nnz() == before.Nnz() {
          SameCountNoGrowth(before.cells, closure.cells);
        }
        first := false;
        prev, curr := curr, closure.Nnz();
      }
      forall i: nat, j: nat | Connected(f, i, j)
        ensures (i, j) in closure.cells
      {
        var w: seq<Symbol> :| |w| > 0 && Walk(f, i, w, j);
        ClosedContainsWalks(f, n, closure, i, w, j);
      }
    }

    /**
     * `intersect`: Kronecker products over the common labels, and every
     * pair of states numbered `self index * |other| + other index`; a
     * pair is a start (final) state exactly when both components are.
     */
    method Intersect(other: BooleanDecomposition) returns (result: BooleanDecomposition)
      requires Valid() && other.Valid()
      ensures fresh(result) && result.Valid()
      ensures result.matrices == KronFamily(matrices, |indexedStates|, other.matrices, |other.indexedStates|)
      ensures result.indexedStates == ProductIndex(indexedStates, other.indexedStates)
      ensures result.startStates == PairNodes(indexedStates.Keys * startStates, other.indexedStates.Keys * other.startStates)
      ensures result.finalStates == PairNodes(indexedStates.Keys * finalStates, other.indexedStates.Keys * other.finalStates)
    {
      var left, right := indexedStates, other.indexedStates;
      var product := KronFamily(matrices, |left|, other.matrices, |right|);
      var index, start, final := PairAll(left, right, startStates, other.startStates, finalStates, other.finalStates);
      PairNodesCard(left.Keys, right.Keys);
      ProductIndexBound(left, right);
      result := new BooleanDecomposition(index, start, final, product);
    }
  }

  /** s holds exactly the pairs (a, b) of A and B with a in lm and b in rm. */
  ghost predicate PairsOf(s: set<Node>, A: set<Node>, lm: set<Node>, B: set<Node>, rm: set<Node>) {
    && (forall p | p in s :: p.Paired? && p.left in A && p.left in lm && p.right in B && p.right in rm)
    && (forall a, b | a in A && a in lm && b in B && b in rm :: Paired(a, b) in s)
  }
  lemma PairsOfIs(s: set<Node>, A: set<Node>, lm: set<Node>, B: set<Node>, rm: set<Node>)
    requires PairsOf(s, A, lm, B, rm)
    ensures s == PairNodes(A * lm, B * rm)
  {
  }
  /** index numbers exactly the pairs (a, b) with a in A, by `Pair` of their indices. */
  ghost predicate IndexOf(index: map<Node, nat>, A: set<Node>, left: map<Node, nat>, right: map<Node, nat>) {
    && (forall p | p in index :: p.Paired? && p.left in A && p.left in left && p.right in right
                                && index[p] == Pair(left[p.left], right[p.right], |right|))
    && (forall a, b | a in A && b in right :: Paired(a, b) in index)
  }

  /** Adding the row of a fresh node a keeps `IndexOf`. */
  lemma IndexStep(index: map<Node, nat>, row: map<Node, nat>, A: set<Node>, a: Node, left: map<Node, nat>, right: map<Node, nat>)
    requires a in left && IndexOf(index, A, left, right)
    requires forall p | p in row :: p.Paired? && p.left == a && p.right in right && row[p] == Pair(left[a], right[p.right], |right|)
    requires forall b | b in right :: Paired(a, b) in row
    ensures IndexOf(index + row, A + {a}, left, right)
  {
  }

  /** An index of every pair is the product index. */
  lemma IndexIs(index: map<Node, nat>, left: map<Node, nat>, right: map<Node, nat>)
    requires IndexOf(index, left.Keys, left, right)
    ensures index == ProductIndex(left, right)
  {
    PairsOfIs(index.Keys, left.Keys, left.Keys, right.Keys, right.Keys);
  }

  /** Adding the marked row of a fresh node a keeps `PairsOf`. */
  lemma PairsStep(s: set<Node>, row: set<Node>, A: set<Node>, lm: set<Node>, B: set<Node>, rm: set<Node>, a: Node)
    requires PairsOf(s, A, lm, B, rm)
    requires RowOf(row, a, B, if a in lm then rm else {})
    ensures PairsOf(s + row, A + {a}, lm, B, rm)
  {
  }

  /**
   * The loops of `intersect`: every state of the left decomposition paired
   * with every state of the right one, numbered by `Pair`, and marked start
   * (final) when both components are.
   */
  method PairAll(left: map<Node, nat>, right: map<Node, nat>, ls: set<Node>, rs: set<Node>, lf: set<Node>, rf: set<Node>)
    returns (index: map<Node, nat>, start: set<Node>, final: set<Node>)
    ensures index == ProductIndex(left, right)
    ensures start == PairNodes(left.Keys * ls, right.Keys * rs)
    ensures final == PairNodes(left.Keys * lf, right.Keys * rf)
  {
    index, start, final := map[], {}, {};
    var todo := left.Keys;
    ghost var done: set<Node> := {};
    while todo != {}
      invariant todo <= left.Keys && done == left.Keys - todo
      invariant IndexOf(index, done, left, right)
      invariant PairsOf(start, done, ls, right.Keys, rs)
      invariant PairsOf(final, done, lf, right.Keys, rf)
      decreases todo
    {
      var a :| a in todo;
      var rowIndex, rowStart, rowFinal := PairWith(a, left[a], right, if a in ls then rs else {}, if a in lf then rf else {});
      IndexStep(index, rowIndex, done, a, left, right);
      PairsStep(start, rowStart, done, ls, right.Keys, rs, a);
      PairsStep(final, rowFinal, done, lf, right.Keys, rf, a);
      index := index + rowIndex;
      start, final := start + rowStart, final + rowFinal;
      MoveDone(left.Keys, todo, done, a);
      done, todo := done + {a}, todo - {a};
    }
    PairsOfIs(start, left.Keys, ls, right.Keys, rs);
    PairsOfIs(final, left.Keys, lf, right.Keys, rf);
    IndexIs(index, left, right);
  }

  /** Moving one element from the work set to the done set keeps them complementary. */
  lemma MoveDone<T>(all: set<T>, todo: set<T>, done: set<T>, x: T)
    requires todo <= all && done == all - todo && x in todo
    ensures done + {x} == all - (todo - {x})
  {
  }

  /** s holds exactly the pairs (a, b) with b in B and b in marked. */
  ghost predicate RowOf(s: set<Node>, a: Node, B: set<Node>, marked: set<Node>) {
    && (forall p | p in s :: p.Paired? && p.left == a && p.right in B && p.right in marked)
    && (forall b | b in B && b in marked :: Paired(a, b) in s)
  }
  /**
   * The inner loop of `intersect`: the state a, numbered ia, paired with
   * every state of the right decomposition; `rs` (`rf`) are the right
   * states that make a start (final) pair with a.
   */
  method PairWith(a: Node, ia: nat, right: map<Node, nat>, rs: set<Node>, rf: set<Node>)
    returns (index: map<Node, nat>, start: set<Node>, final: set<Node>)
    ensures forall p | p in index :: p.Paired? && p.left == a && p.right in right && index[p] == Pair(ia, right[p.right], |right|)
    ensures forall b | b in right :: Paired(a, b) in index
    ensures RowOf(start, a, right.Keys, rs)
    ensures RowOf(final, a, right.Keys, rf)
  {
    index, start, final := map[], {}, {};
    var todo := right.Keys;
    ghost var done: set<Node> := {};
    while todo != {}
      invariant todo <= right.Keys && done == right.Keys - todo
      invariant forall p | p in index :: p.Paired? && p.left == a && p.right in done && index[p] == Pair(ia, right[p.right], |right|)
      invariant forall b | b in done :: Paired(a, b) in index
      invariant RowOf(start, a, done, rs)
      invariant RowOf(final, a, done, rf)
      decreases todo
    {
      var b :| b in todo;
      index := index[Paired(a, b) := Pair(ia, right[b], |right|)];
      if b in rs {
        start := start + {Paired(a, b)};
      }
      if b in rf {
        final := final + {Paired(a, b)};
      }
      MoveDone(right.Keys, todo, done, b);
      done, todo := done + {b}, todo - {b};
    }
  }

  lemma AddColumn(a: Node, B: set<Node>, b: Node)
    ensures RowNodes(a, B + {b}) == RowNodes(a, B) + {Paired(a, b)}
  {
  }

  lemma AddRow(A: set<Node>, B: set<Node>, a: Node)
    ensures PairNodes(A + {a}, B) == PairNodes(A, B) + RowNodes(a, B)
  {
  }

  /** A row of a node not yet paired shares no pair with the rows before it. */
  lemma RowsApart(A: set<Node>, B: set<Node>, a: Node)
    requires a !in A
    ensures PairNodes(A, B) !! RowNodes(a, B)
  {
  }

  /** There are |A| * |B| pairs of A and B. */
  lemma {:induction false} PairNodesCard(A: set<Node>, B: set<Node>)
    ensures |PairNodes(A, B)| == |A| * |B|
    decreases |A|
  {
    if A != {} {
      var x :| x in A;
      var rest := A - {x};
      PairNodesCard(rest, B);
      RowCard(x, B);
      AddRow(rest, B, x);
      RowsApart(rest, B, x);
      assert rest + {x} == A;
      SuccTimes(|rest|, |B|);
    }
  }

  lemma SuccTimes(x: nat, y: nat)
    ensures (x + 1) * y == x * y + y
  {
  }

  /** The pairs of one node with B are as many as B. */
  lemma {:induction false} RowCard(x: Node, B: set<Node>)
    ensures |RowNodes(x, B)| == |B|
    decreases |B|
  {
    if B != {} {
      var y :| y in B;
      var rest := B - {y};
      RowCard(x, rest);
      AddColumn(x, rest, y);
      assert rest + {y} == B;
    }
  }

  /** Pair numbers of valid numberings stay below the product of the sizes. */
  lemma ProductIndexBound(left: map<Node, nat>, right: map<Node, nat>)
    requires forall x | x in left :: left[x] < |left|
    requires forall x | x in right :: right[x] < |right|
    ensures var m := ProductIndex(left, right);
            forall x | x in m :: m[x] < |left| * |right|
  {
    var m := ProductIndex(left, right);
    forall x | x in m
      ensures m[x] < |left| * |right|
    {
      PairBound(left[x.left], right[x.right], |left|, |right|);
    }
  }

  /** The states of box n that `mark` selects, among `sts`, tagged by n. */
  ghost predicate BoxTagged(s: set<Node>, n: Variable, box: Nfa, sts: seq<State>, mark: Mark) {
    && (forall x | x in s :: x.Boxed? && x.box == n && x.local in sts && Marks(box, x.local, mark))
    && (forall st | st in sts && Marks(box, st, mark) :: Boxed(n, st) in s)
  }

  /** The inner loop of the tagging in `from_rsm`: the states of one box. */
  method TagBox(n: Variable, box: Nfa) returns (states: set<Node>, start: set<Node>, final: set<Node>)
    ensures BoxTagged(states, n, box, box.states, AllStates)
    ensures BoxTagged(start, n, box, box.states, Starts)
    ensures BoxTagged(final, n, box, box.states, Finals)
  {
    states, start, final := {}, {}, {};
    for i := 0 to |box.states|
      invariant BoxTagged(states, n, box, box.states[..i], AllStates)
      invariant BoxTagged(start, n, box, box.states[..i], Starts)
      invariant BoxTagged(final, n, box, box.states[..i], Finals)
    {
      var st := box.states[i];
      assert box.states[..i + 1] == box.states[..i] + [st];
      states := states + {Boxed(n, st)};
      if st in box.startStates {
        start := start + {Boxed(n, st)};
      }
      if st in box.finalStates {
        final := final + {Boxed(n, st)};
      }
    }
    assert box.states[..|box.states|] == box.states;
  }

  /** The tagging loops of `from_rsm`: all, start and final states of every box, tagged by the box. */
  method TagStates(boxes: map<Variable, Nfa>) returns (states: set<Node>, start: set<Node>, final: set<Node>)
    ensures states == TaggedOf(boxes, boxes.Keys, AllStates)
    ensures start == TaggedOf(boxes, boxes.Keys, Starts)
    ensures final == TaggedOf(boxes, boxes.Keys, Finals)
  {
    states, start, final := {}, {}, {};
    var todo := boxes.Keys;
    ghost var done: set<Variable> := {};
    while todo != {}
      invariant todo <= boxes.Keys && done == boxes.Keys - todo
      invariant TaggedAs(states, boxes, done, AllStates)
      invariant TaggedAs(start, boxes, done, Starts)
      invariant TaggedAs(final, boxes, done, Finals)
      decreases todo
    {
      var n :| n in todo;
      var s, b, f := TagBox(n, boxes[n]);
      states, start, final := states + s, start + b, final + f;
      MoveDone(boxes.Keys, todo, done, n);
      done, todo := done + {n}, todo - {n};
    }
    TaggedAsIs(states, boxes, boxes.Keys, AllStates);
    TaggedAsIs(start, boxes, boxes.Keys, Starts);
    TaggedAsIs(final, boxes, boxes.Keys, Finals);
  }

  /** The transitions `trans` of box n between the numbers of their tagged endpoints. */
  function Renumbered(n: Variable, trans: set<Transition>, index: map<Node, nat>): set<Transition>
    requires forall t | t in trans :: Boxed(n, t.from) in index && Boxed(n, t.to) in index
  {
    set t | t in trans :: Numbered(BoxEdge(n, t), index)
  }

  /** The inner matrix loop of `from_rsm`: the transitions of box n, with every endpoint numbered, added to a family. */
  method AddBox(f: Family, n: Variable, box: Nfa, index: map<Node, nat>, size: nat, ghost T: set<Transition>)
    returns (g: Family)
    requires WellFormed(box)
    requires forall st | st in box.states :: Boxed(n, st) in index
    requires forall x | x in index :: index[x] < size
    requires forall u | u in T :: u.from < size && u.to < size
    requires f == TransitionFamily(T, Numbers(size), size)
    ensures g == TransitionFamily(T + Renumbered(n, box.transitions, index), Numbers(size), size)
  {
    g := f;
    var todo := box.transitions;
    ghost var done: set<Transition> := {};
    assert T + Renumbered(n, done, index) == T;
    while todo != {}
      invariant todo <= box.transitions && done <= box.transitions
      invariant forall u | u in box.transitions :: u in done || u in todo
      invariant g == TransitionFamily(T + Renumbered(n, done, index), Numbers(size), size)
      decreases todo
    {
      var t :| t in todo;
      var from, to := index[Boxed(n, t.from)], index[Boxed(n, t.to)];
      var m := if t.symbol in g then g[t.symbol] else Zero(size, size);
      AddBoxStep(g, T, n, done, t, index, size);
      g := g[t.symbol := SetEntry(m, from, to)];
      done, todo := done + {t}, todo - {t};
    }
    assert done == box.transitions;
  }

  /** One transition of box n, numbered, sets one entry of its symbol's matrix. */
  lemma AddBoxStep(g: Family, T: set<Transition>, n: Variable, done: set<Transition>, t: Transition, index: map<Node, nat>, size: nat)
    requires Boxed(n, t.from) in index && Boxed(n, t.to) in index
    requires forall u | u in done :: Boxed(n, u.from) in index && Boxed(n, u.to) in index
    requires forall x | x in index :: index[x] < size
    requires forall u | u in T :: u.from < size && u.to < size
    requires g == TransitionFamily(T + Renumbered(n, done, index), Numbers(size), size)
    ensures var m := if t.symbol in g then g[t.symbol] else Zero(size, size);
            g[t.symbol := SetEntry(m, index[Boxed(n, t.from)], index[Boxed(n, t.to)])]
            == TransitionFamily(T + Renumbered(n, done + {t}, index), Numbers(size), size)
  {
    var u, before := Transition(index[Boxed(n, t.from)], t.symbol, index[Boxed(n, t.to)]), T + Renumbered(n, done, index);
    assert Renumbered(n, done + {t}, index) == Renumbered(n, done, index) + {u};
    assert T + Renumbered(n, done + {t}, index) == before + {u};
    TransitionFamilyAdd(before, u, Numbers(size), size);
  }

  lemma NumberedAdd(E: set<BoxEdge>, n: Variable, trans: set<Transition>, index: map<Node, nat>)
    requires forall e | e in E :: Boxed(e.box, e.edge.from) in index && Boxed(e.box, e.edge.to) in index
    requires forall t | t in trans :: Boxed(n, t.from) in index && Boxed(n, t.to) in index
    ensures NumberedEdges(E + EdgesOf(n, trans), index) == NumberedEdges(E, index) + Renumbered(n, trans, index)
  {
  }

  /** The matrix loops of `from_rsm`: every transition of every box, between tagged numbers. */
  method RsmMatrices(boxes: map<Variable, Nfa>, index: map<Node, nat>, size: nat) returns (f: Family)
    requires BoxesWellFormed(boxes)
    requires forall n, st | n in boxes && st in boxes[n].states :: Boxed(n, st) in index
    requires forall x | x in index :: index[x] < size
    ensures f == RsmFamily(boxes, index, size)
  {
    f := map[];
    var todo := boxes.Keys;
    ghost var done: set<Variable> := {};
    ghost var E: set<BoxEdge> := {};
    while todo != {}
      invariant todo <= boxes.Keys && done == boxes.Keys - todo
      invariant EdgesOfBoxes(E, boxes, done)
      invariant f == TransitionFamily(NumberedEdges(E, index), Numbers(size), size)
      decreases todo
    {
      var n :| n in todo;
      f := AddBox(f, n, boxes[n], index, size, NumberedEdges(E, index));
      NumberedAdd(E, n, boxes[n].transitions, index);
      EdgesStep(E, boxes, done, n);
      E := E + EdgesOf(n, boxes[n].transitions);
      MoveDone(boxes.Keys, todo, done, n);
      done, todo := done + {n}, todo - {n};
    }
    EdgesAll(E, boxes);
  }

  /** E holds exactly the transitions of the boxes named in `done`. */
  ghost predicate EdgesOfBoxes(E: set<BoxEdge>, boxes: map<Variable, Nfa>, done: set<Variable>) {
    && (forall e | e in E :: e.box in done && e.box in boxes && e.edge in boxes[e.box].transitions)
    && (forall n, t | n in done && n in boxes && t in boxes[n].transitions :: BoxEdge(n, t) in E)
  }

  /** Adding the transitions of box n keeps `EdgesOfBoxes`. */
  lemma EdgesStep(E: set<BoxEdge>, boxes: map<Variable, Nfa>, done: set<Variable>, n: Variable)
    requires n in boxes && EdgesOfBoxes(E, boxes, done)
    ensures EdgesOfBoxes(E + EdgesOf(n, boxes[n].transitions), boxes, done + {n})
  {
  }

  /** The transitions of all the boxes are `BoxEdges`. */
  lemma EdgesAll(E: set<BoxEdge>, boxes: map<Variable, Nfa>)
    requires EdgesOfBoxes(E, boxes, boxes.Keys)
    ensures E == BoxEdges(boxes)
  {
  }

  /** The entries of the matrix of one label: `(index from, index to)` for each transition with that symbol. */
  method LabelMatrix(trans: set<Transition>, index: map<State, nat>, size: nat, symbol: Symbol) returns (m: Matrix)
    requires forall t | t in trans :: t.from in index && t.to in index
    requires forall s | s in index :: index[s] < size
    ensures m == Matrix(size, size, LabelEntries(trans, index, symbol))
  {
    m := Zero(size, size);
    var todo := trans;
    ghost var done: set<Transition> := {};
    while todo != {}
      invariant todo <= trans && done == trans - todo
      invariant m == Matrix(size, size, LabelEntries(done, index, symbol))
      decreases todo
    {
      var t :| t in todo;
      LabelEntriesAdd(done, t, index, symbol);
      if t.symbol == symbol {
        m := SetEntry(m, index[t.from], index[t.to]);
      }
      MoveDone(trans, todo, done, t);
      done, todo := done + {t}, todo - {t};
    }
    assert done == trans;
  }

  /** The symbol loop of `from_automata`: one matrix for every symbol. */
  method SymbolMatrices(a: Nfa, symbols: set<Symbol>) returns (f: Family)
    requires WellFormed(a)
    ensures f == SymbolFamily(a, symbols)
  {
    var index, size := IndexMap(a.states), |a.states|;
    f := map[];
    var todo := symbols;
    while todo != {}
      invariant todo <= symbols && f.Keys == symbols - todo
      invariant forall s | s in f :: f[s] == Matrix(size, size, LabelEntries(a.transitions, index, s))
      decreases todo
    {
      var symbol :| symbol in todo;
      var m := LabelMatrix(a.transitions, index, size, symbol);
      f := f[symbol := m];
      todo := todo - {symbol};
    }
    assert f.Keys == symbols;
  }

  /** Numbering a listing gives as many keys as the listing has entries. */
  lemma NodeIndexSize(order: seq<Node>)
    requires Listed(order)
    ensures |NodeIndex(order)| == |order|
  {
    ListedCard(order);
  }

  /** When the listing holds the tagged states, every box state is numbered. */
  lemma TaggedIndexed(boxes: map<Variable, Nfa>, order: seq<Node>)
    requires Listed(order)
    requires forall x :: x in order <==> x in TaggedOf(boxes, boxes.Keys, AllStates)
    ensures forall n, st | n in boxes && st in boxes[n].states :: Boxed(n, st) in NodeIndex(order)
  {
    forall n, st | n in boxes && st in boxes[n].states
      ensures Boxed(n, st) in NodeIndex(order)
    {
      assert Boxed(n, st) in TaggedOf(boxes, boxes.Keys, AllStates);
    }
  }

  lemma {:induction false} ListedCard(order: seq<Node>)
    requires Listed(order)
    ensures |set x | x in order| == |order|
    decreases |order|
  {
    if order != [] {
      var k := |order| - 1;
      var prefix := order[..k];
      ListedCard(prefix);
      assert (set x | x in order) == (set x | x in prefix) + {order[k]};
      assert order[k] !in (set x | x in prefix);
    }
  }

  /** The graph vertices are numbered by as many numbers as there are states. */
  lemma VertexCard(states: seq<State>)
    requires Distinct(states)
    ensures |VertexIndex(states)| == |states|
  {
    var order := seq(|states|, i requires 0 <= i < |states| => Vertex(states[i]));
    assert Listed(order);
    forall x | x in VertexIndex(states)
      ensures x in order
    {
      assert order[VertexIndex(states)[x]] == x;
    }
    assert VertexIndex(states).Keys == set x | x in order;
    ListedCard(order);
  }

  /**
   * An entry (i, j) of the matrix of s built by `from_rsm` is exactly a
   * transition labelled s inside one box, from the state numbered i to
   * the state numbered j: no entry joins the states of two boxes.
   */
  lemma RsmEntry(boxes: map<Variable, Nfa>, order: seq<Node>, s: Symbol, i: nat, j: nat)
    requires BoxesWellFormed(boxes) && Listed(order)
    requires forall x :: x in order <==> x in TaggedOf(boxes, boxes.Keys, AllStates)
    requires i < |order| && j < |order|
    ensures var f := RsmFamily(boxes, NodeIndex(order), |order|);
            (s in f && (i, j) in f[s].cells)
            <==> (&& order[i].Boxed? && order[j].Boxed? && order[i].box == order[j].box && order[i].box in boxes
                  && Transition(order[i].local, s, order[j].local) in boxes[order[i].box].transitions)
  {
    var index, size := NodeIndex(order), |order|;
    NumbersEntry(NumberedEdges(BoxEdges(boxes), index), size, s, i, j);
    NumberedEdge(boxes, order, s, i, j);
  }

  /** Over the numbers as their own index, an entry is exactly a transition between the numbers. */
  lemma NumbersEntry(T: set<Transition>, size: nat, s: Symbol, i: nat, j: nat)
    requires forall u | u in T :: u.from < size && u.to < size
    ensures var f := TransitionFamily(T, Numbers(size), size);
            (s in f && (i, j) in f[s].cells) <==> Transition(i, s, j) in T
  {
    var f := TransitionFamily(T, Numbers(size), size);
    if s in f && (i, j) in f[s].cells {
      var t :| t in T && t.symbol == s && (Numbers(size)[t.from], Numbers(size)[t.to]) == (i, j);
      assert t == Transition(i, s, j);
    }
    if Transition(i, s, j) in T {
      assert s in Labels(T);
      assert (Numbers(size)[i], Numbers(size)[j]) in f[s].cells;
    }
  }

  /** A numbered box transition between i and j is a transition of one box between the nodes listed at i and j. */
  lemma NumberedEdge(boxes: map<Variable, Nfa>, order: seq<Node>, s: Symbol, i: nat, j: nat)
    requires BoxesWellFormed(boxes) && Listed(order)
    requires forall x :: x in order <==> x in TaggedOf(boxes, boxes.Keys, AllStates)
    requires i < |order| && j < |order|
    ensures Transition(i, s, j) in NumberedEdges(BoxEdges(boxes), NodeIndex(order))
            <==> (&& order[i].Boxed? && order[j].Boxed? && order[i].box == order[j].box && order[i].box in boxes
                  && Transition(order[i].local, s, order[j].local) in boxes[order[i].box].transitions)
  {
    var index := NodeIndex(order);
    if Transition(i, s, j) in NumberedEdges(BoxEdges(boxes), index) {
      var e :| e in BoxEdges(boxes) && Numbered(e, index) == Transition(i, s, j);
      assert order[i] == Boxed(e.box, e.edge.from) && order[j] == Boxed(e.box, e.edge.to);
    }
    if order[i].Boxed? && order[j].Boxed? && order[i].box == order[j].box && order[i].box in boxes
       && Transition(order[i].local, s, order[j].local) in boxes[order[i].box].transitions
    {
      var e := BoxEdge(order[i].box, Transition(order[i].local, s, order[j].local));
      assert e in BoxEdges(boxes);
      assert Numbered(e, index) == Transition(i, s, j);
    }
  }

  /**
   * An entry (i, j) of the matrix of s built by `from_automata` is exactly
   * a transition labelled s between the i-th and the j-th state, for the
   * symbols of the automaton.
   */
  lemma SymbolEntry(a: Nfa, symbols: set<Symbol>, s: Symbol, i: nat, j: nat)
    requires WellFormed(a) && i < |a.states| && j < |a.states|
    ensures var f := SymbolFamily(a, symbols);
            (s in f && (i, j) in f[s].cells) <==> s in symbols && Transition(a.states[i], s, a.states[j]) in a.transitions
  {
    var index := IndexMap(a.states);
    if s in symbols && (i, j) in LabelEntries(a.transitions, index, s) {
      var t :| t in a.transitions && t.symbol == s && (index[t.from], index[t.to]) == (i, j);
      assert t == Transition(a.states[i], s, a.states[j]);
    }
    if s in symbols && Transition(a.states[i], s, a.states[j]) in a.transitions {
      assert (index[a.states[i]], index[a.states[j]]) in LabelEntries(a.transitions, index, s);
    }
  }

  /**
   * The number of a product pair decodes, by `//` and `%` with the size of
   * the right decomposition, into the numbers of its components.
   */
  lemma PairDecode(left: map<Node, nat>, right: map<Node, nat>, p: Node)
    requires forall x | x in right :: right[x] < |right|
    requires p in ProductIndex(left, right)
    ensures p.Paired? && p.left in left && p.right in right
    ensures ProductIndex(left, right)[p] / |right| == left[p.left]
    ensures ProductIndex(left, right)[p] % |right| == right[p.right]
  {
    UnpairPair(left[p.left], right[p.right], |right|);
  }
}
