/// The tensor algorithm (`_tensor_prod` in `project/cfg/cfpq_algo.py`): the
/// grammar as a recursive state machine (one automaton, a box, per
/// nonterminal) and the graph as one boolean matrix per label. Each round
/// intersects the two by Kronecker products, closes the product
/// transitively, and for every closure entry from a box start state to a
/// final state writes an edge labelled with the box's nonterminal into the
/// graph's matrices. The rounds stop when the closure's entry count stops
/// changing. The graph matrices are then the least family that contains
/// the graph's edges and the nullable self-loops and is closed under that
/// box rule.
module Tensor {
  import opened Pairing
  import opened BoolMatrix
  import opened Walks
  import opened Automata
  import opened Grammars
  import GD = GrammarDecomposition
  import MC = MatrixClosure

  /**
   * The decomposition of the state machine as the rounds read it: its
   * states in numbering order (`cfg_indexed_states`), its start and final
   * states, and its matrices.
   */
  datatype Machine = Machine(order: seq<GD.Node>, start: set<GD.Node>, final: set<GD.Node>, matrices: Family)

  /** The matrices are square over the numbered states, and every state is a box state. */
  predicate MachineValid(m: Machine) {
    && Square(m.matrices, |m.order|)
    && forall x | x in m.order :: x.Boxed?
  }

  /** Every box state of a well-formed machine is numbered. */
  lemma RsmIndexed(boxes: map<GD.Variable, Nfa>, order: seq<GD.Node>)
    requires GD.BoxesWellFormed(boxes) && GD.Listed(order)
    requires forall x :: x in order <==> x in GD.TaggedOf(boxes, boxes.Keys, GD.AllStates)
    ensures forall e | e in GD.BoxEdges(boxes) ::
              GD.Boxed(e.box, e.edge.from) in GD.NodeIndex(order) && GD.Boxed(e.box, e.edge.to) in GD.NodeIndex(order)
  {
    forall e | e in GD.BoxEdges(boxes)
      ensures GD.Boxed(e.box, e.edge.from) in GD.NodeIndex(order) && GD.Boxed(e.box, e.edge.to) in GD.NodeIndex(order)
    {
      var n, t :| n in boxes && t in boxes[n].transitions && e == GD.BoxEdge(n, t);
      assert GD.Boxed(n, t.from) in GD.TaggedOf(boxes, boxes.Keys, GD.AllStates);
      assert GD.Boxed(n, t.to) in GD.TaggedOf(boxes, boxes.Keys, GD.AllStates);
    }
  }

  /** The machine `from_rsm` builds from the boxes, its states numbered in the order given. */
  function RsmMachine(boxes: map<GD.Variable, Nfa>, order: seq<GD.Node>): (m: Machine)
    requires GD.BoxesWellFormed(boxes) && GD.Listed(order)
    requires forall x :: x in order <==> x in GD.TaggedOf(boxes, boxes.Keys, GD.AllStates)
    ensures MachineValid(m) && m.order == order
    ensures forall x | x in order :: x.box in boxes
  {
    RsmIndexed(boxes, order);
    Machine(order, GD.TaggedOf(boxes, boxes.Keys, GD.Starts), GD.TaggedOf(boxes, boxes.Keys, GD.Finals),
            GD.RsmFamily(boxes, GD.NodeIndex(order), |order|))
  }

  /**
   * Closed under the box rule: whenever a non-empty word leads from a start
   * state of a box to a final state in the machine and along a walk from
   * gi to gj in the graph matrices, the matrix of the box's nonterminal
   * has the entry (gi, gj).
   */
  ghost predicate BoxClosed(m: Machine, f: Family, n: nat)
    requires MachineValid(m)
  {
    forall ci: nat, cj: nat, gi: nat, gj: nat, w: seq<Symbol> |
      && ci < |m.order| && cj < |m.order| && gi < n && gj < n
      && m.order[ci] in m.start && m.order[cj] in m.final && |w| > 0
      && Walk(m.matrices, ci, w, cj) && Walk(f, gi, w, gj)
      :: MC.Holds(f, Fact(m.order[ci].box, gi, gj))
  }

  /**
   * f is the least family of n x n matrices that contains the seeds and is
   * closed under the box rule.
   */
  ghost predicate TensorLeast(m: Machine, seeds: Family, f: Family, n: nat)
    requires MachineValid(m)
  {
    && Square(f, n) && Sub(seeds, f) && BoxClosed(m, f, n)
    && forall s: Family | Square(s, n) && Sub(seeds, s) && BoxClosed(m, s, n) :: Sub(f, s)
  }

  /** The pairs (i, i) for i < n. */
  function Diagonal(n: nat): (d: set<Cell>)
    ensures forall c :: c in d <==> c.0 == c.1 && c.0 < n
  {
    set i | i in Vertices(n) :: (i, i)
  }

  /**
   * The graph matrices after the nullable loop: a self-loop on every state
   * in the matrix of every nullable nonterminal. A matrix is created on its
   * first write, so with no graph state no matrix is created.
   */
  function NullableLoops(f: Family, nullable: set<Symbol>, n: nat): (r: Family)
    requires Square(f, n)
    ensures Square(r, n) && r.Keys == f.Keys + (if n > 0 then nullable else {})
    ensures forall z :: MC.Holds(r, z) <==> MC.Holds(f, z) || (z.v in nullable && z.i == z.j && z.i < n)
  {
    map v | v in f.Keys + (if n > 0 then nullable else {}) ::
      Matrix(n, n, (if v in f then f[v].cells else {}) + (if v in nullable then Diagonal(n) else {}))
  }

  /**
   * A write through the `defaultdict` of graph matrices: entry (i, j) of
   * the matrix keyed v, created all false when v has none yet.
   */
  function Put(f: Family, v: Symbol, i: nat, j: nat, n: nat): (r: Family)
    requires Square(f, n) && i < n && j < n
    ensures Square(r, n) && r.Keys == f.Keys + {v}
    ensures forall z :: MC.Holds(r, z) <==> MC.Holds(f, z) || z == Fact(v, i, j)
    ensures Sub(f, r)
  {
    f[v := SetEntry(if v in f then f[v] else Zero(n, n), i, j)]
  }

  /** A write either finds its entry already there and changes nothing, or adds a fact. */
  lemma PutGrows(f: Family, v: Symbol, i: nat, j: nat, n: nat)
    requires Square(f, n) && i < n && j < n
    ensures Put(f, v, i, j, n) == f || MC.FactsOf(f) < MC.FactsOf(Put(f, v, i, j, n))
  {
    var r := Put(f, v, i, j, n);
    if MC.Holds(f, Fact(v, i, j)) {
      assert f[v].cells + {(i, j)} == f[v].cells;
      assert r == f;
    } else {
      assert Fact(v, i, j) in MC.FactsOf(r) - MC.FactsOf(f);
    }
  }

  /** The nullable loop: `for non_term in nullable: for j in range(n): graph_matrices[non_term][j, j] = True`. */
  method SeedNullable(f: Family, nullable: set<Symbol>, n: nat) returns (r: Family)
    requires Square(f, n)
    ensures r == NullableLoops(f, nullable, n)
  {
    r := f;
    var todo := nullable;
    while todo != {}
      invariant todo <= nullable
      invariant Square(r, n) && r.Keys == f.Keys + (if n > 0 then nullable - todo else {})
      invariant forall z :: MC.Holds(r, z) <==> MC.Holds(f, z) || (z.v in nullable - todo && z.i == z.j && z.i < n)
      decreases todo
    {
      var v :| v in todo;
      for j := 0 to n
        invariant Square(r, n) && r.Keys == f.Keys + (if n > 0 then nullable - todo else {}) + (if j > 0 then {v} else {})
        invariant forall z :: MC.Holds(r, z) <==> MC.Holds(f, z) || (z.v in nullable - todo && z.i == z.j && z.i < n)
                                                  || (z.v == v && z.i == z.j && z.i < j)
      {
        r := Put(r, v, j, j, n);
      }
      todo := todo - {v};
    }
    SameFamily(r, NullableLoops(f, nullable, n), n);
  }

  /** Two square families over the same keys with the same facts are equal. */
  lemma SameFamily(f: Family, g: Family, n: nat)
    requires Square(f, n) && Square(g, n) && f.Keys == g.Keys
    requires forall z :: MC.Holds(f, z) <==> MC.Holds(g, z)
    ensures f == g
  {
    forall v | v in f
      ensures f[v] == g[v]
    {
      forall c | c in f[v].cells
        ensures c in g[v].cells
      {
        assert MC.Holds(f, Fact(v, c.0, c.1));
      }
      forall c | c in g[v].cells
        ensures c in f[v].cells
      {
        assert MC.Holds(g, Fact(v, c.0, c.1));
      }
    }
  }

  /** The graph matrices after the round's writes hold the conclusion of every closure entry in cells. */
  ghost predicate Recorded(m: Machine, f: Family, n: nat, cells: set<Cell>)
    requires MachineValid(m)
  {
    forall ci: nat, gi: nat, cj: nat, gj: nat |
      && ci < |m.order| && gi < n && cj < |m.order| && gj < n
      && (Pair(ci, gi, n), Pair(cj, gj, n)) in cells
      && m.order[ci] in m.start && m.order[cj] in m.final
      :: MC.Holds(f, Fact(m.order[ci].box, gi, gj))
  }

  /** The product of the machine with the graph matrices, as `intersect` builds it. */
  function Product(m: Machine, f: Family, n: nat): (p: Family)
    requires MachineValid(m) && Square(f, n)
    ensures Square(p, |m.order| * n)
  {
    KronFamily(m.matrices, |m.order|, f, n)
  }

  /** Adding entries to the graph matrices adds entries to the product. */
  lemma ProductGrows(m: Machine, f: Family, g: Family, n: nat)
    requires MachineValid(m) && Square(f, n) && Square(g, n) && Sub(f, g)
    ensures Sub(Product(m, f, n), Product(m, g, n))
  {
    forall s | s in Product(m, f, n)
      ensures s in Product(m, g, n) && Product(m, f, n)[s].cells <= Product(m, g, n)[s].cells
    {
      var a, b, c := m.matrices[s], f[s], g[s];
      forall e | e in Kron(a, b).cells
        ensures e in Kron(a, c).cells
      {
        var x, y :| x in a.cells && y in b.cells && e == KronCell(x, y, b.rows, b.cols);
        assert y in c.cells;
      }
    }
  }

  /** A pair connected in the product stays connected when the graph matrices grow. */
  lemma ConnectedGrows(m: Machine, f: Family, g: Family, n: nat, p: nat, q: nat)
    requires MachineValid(m) && Square(f, n) && Square(g, n) && Sub(f, g)
    requires Connected(Product(m, f, n), p, q)
    ensures Connected(Product(m, g, n), p, q)
  {
    var w: seq<Symbol> :| |w| > 0 && Walk(Product(m, f, n), p, w, q);
    ProductGrows(m, f, g, n);
    WalkMono(Product(m, f, n), Product(m, g, n), p, w, q);
  }

  /**
   * The conclusion of a connected start-to-final product entry is in
   * every closed family that contains the graph matrices.
   */
  lemma EntrySound(m: Machine, f: Family, s: Family, n: nat, ci: nat, gi: nat, cj: nat, gj: nat)
    requires MachineValid(m) && Square(f, n) && Square(s, n) && Sub(f, s) && BoxClosed(m, s, n)
    requires ci < |m.order| && gi < n && cj < |m.order| && gj < n
    requires m.order[ci] in m.start && m.order[cj] in m.final
    requires Connected(Product(m, f, n), Pair(ci, gi, n), Pair(cj, gj, n))
    ensures MC.Holds(s, Fact(m.order[ci].box, gi, gj))
  {
    ConnectedGrows(m, f, s, n, Pair(ci, gi, n), Pair(cj, gj, n));
    var w: seq<Symbol> :| |w| > 0 && Walk(Product(m, s, n), Pair(ci, gi, n), w, Pair(cj, gj, n));
    KronWalkSplit(m.matrices, |m.order|, s, n, ci, gi, w, cj, gj);
  }

  /** Every closed family containing the seeds contains f. */
  ghost predicate Below(m: Machine, seeds: Family, f: Family, n: nat)
    requires MachineValid(m)
  {
    forall s: Family | Square(s, n) && Sub(seeds, s) && BoxClosed(m, s, n) :: Sub(f, s)
  }

  /** The invariant of the writes of one round, started from the graph matrices `before`. */
  ghost predicate Recording(m: Machine, seeds: Family, before: Family, f: Family, n: nat, keys: set<Symbol>, done: set<Cell>)
    requires MachineValid(m) && Square(before, n)
  {
    && Square(f, n) && f.Keys <= keys && Sub(before, f)
    && (f == before || MC.FactsOf(before) < MC.FactsOf(f))
    && Below(m, seeds, f, n)
    && Recorded(m, f, n, done)
  }

  /**
   * The body of the round's `for i, j in zip(*tc.nonzero())`: the entry
   * (p, q) decodes into machine states p // n, q // n and graph states
   * p % n, q % n; when the first is a start state and the second a final
   * one, the graph matrix of the first state's nonterminal gets the entry.
   */
  method RecordEntry(m: Machine, ghost seeds: Family, ghost before: Family, f: Family, n: nat, ghost keys: set<Symbol>,
                     ghost done: set<Cell>, c: Cell)
    returns (f': Family)
    requires MachineValid(m) && Square(before, n) && Sub(seeds, before)
    requires forall x | x in m.order :: x.box in keys
    requires Recording(m, seeds, before, f, n, keys, done)
    requires Connected(Product(m, before, n), c.0, c.1)
    ensures Recording(m, seeds, before, f', n, keys, done + {c})
  {
    WalkRange(m, before, n, c.0, c.1);
    var fire, v, ci, gi, cj, gj := Decode(m, n, c.0, c.1);
    if fire {
      f' := Put(f, v, gi, gj, n);
    } else {
      f' := f;
    }
    RecordingStep(m, seeds, before, f, f', n, keys, done, c.0, c.1, fire, v, ci, gi, cj, gj);
  }

  /**
   * `cfg_i, cfg_j = i // n, j // n` and `graph_i, graph_j = i % n, j % n`:
   * whether the machine state of p is a start state and that of q a final
   * one, the nonterminal of p's box, and the graph states.
   */
  method Decode(m: Machine, n: nat, p: nat, q: nat) returns (fire: bool, v: Symbol, ci: nat, gi: nat, cj: nat, gj: nat)
    requires MachineValid(m) && p < |m.order| * n && q < |m.order| * n
    ensures ci < |m.order| && cj < |m.order| && gi < n && gj < n
    ensures Pair(ci, gi, n) == p && Pair(cj, gj, n) == q
    ensures fire <==> m.order[ci] in m.start && m.order[cj] in m.final
    ensures v == m.order[ci].box
  {
    PairUnpair(p, |m.order|, n);
    PairUnpair(q, |m.order|, n);
    ci, cj := p / n, q / n;
    gi, gj := p % n, q % n;
    var from, to := m.order[ci], m.order[cj];
    fire := from in m.start && to in m.final;
    v := from.box;
  }

  /** The write for one entry keeps `Recording`, with the entry now done. */
  lemma RecordingStep(m: Machine, seeds: Family, before: Family, f: Family, f': Family, n: nat, keys: set<Symbol>,
                      done: set<Cell>, p: nat, q: nat, fire: bool, v: Symbol, ci: nat, gi: nat, cj: nat, gj: nat)
    requires MachineValid(m) && Square(before, n) && Sub(seeds, before)
    requires forall x | x in m.order :: x.box in keys
    requires Recording(m, seeds, before, f, n, keys, done)
    requires Connected(Product(m, before, n), p, q)
    requires ci < |m.order| && cj < |m.order| && gi < n && gj < n
    requires Pair(ci, gi, n) == p && Pair(cj, gj, n) == q
    requires fire <==> m.order[ci] in m.start && m.order[cj] in m.final
    requires v == m.order[ci].box
    requires f' == if fire then Put(f, v, gi, gj, n) else f
    ensures Recording(m, seeds, before, f', n, keys, done + {(p, q)})
  {
    if fire {
      PutGrows(f, v, gi, gj, n);
      RecordSound(m, seeds, before, f, n, ci, gi, cj, gj);
      assert m.order[ci] in m.order;
    }
    RecordedStep(m, f, f', n, done, p, q, ci, gi, cj, gj);
  }

  /** A connected product entry lies inside the product's range. */
  lemma WalkRange(m: Machine, f: Family, n: nat, p: nat, q: nat)
    requires MachineValid(m) && Square(f, n)
    requires Connected(Product(m, f, n), p, q)
    ensures p < |m.order| * n && q < |m.order| * n
  {
    var w: seq<Symbol> :| |w| > 0 && Walk(Product(m, f, n), p, w, q);
    WalkInRange(Product(m, f, n), |m.order| * n, p, w, q);
  }

  /** Writing the conclusion of a connected start-to-final entry keeps f below every closed family. */
  lemma RecordSound(m: Machine, seeds: Family, before: Family, f: Family, n: nat, ci: nat, gi: nat, cj: nat, gj: nat)
    requires MachineValid(m) && Square(before, n) && Square(f, n) && Sub(seeds, before) && Sub(before, f)
    requires Below(m, seeds, f, n)
    requires ci < |m.order| && gi < n && cj < |m.order| && gj < n
    requires m.order[ci] in m.start && m.order[cj] in m.final
    requires Connected(Product(m, before, n), Pair(ci, gi, n), Pair(cj, gj, n))
    ensures Below(m, seeds, Put(f, m.order[ci].box, gi, gj, n), n)
  {
    var v := m.order[ci].box;
    forall s: Family | Square(s, n) && Sub(seeds, s) && BoxClosed(m, s, n)
      ensures Sub(Put(f, v, gi, gj, n), s)
    {
      assert Sub(f, s);
      SubTrans(before, f, s);
      EntrySound(m, before, s, n, ci, gi, cj, gj);
      PutSub(f, v, gi, gj, n, s);
    }
  }

  /** A write of a fact that s holds keeps a family below s. */
  lemma PutSub(f: Family, v: Symbol, i: nat, j: nat, n: nat, s: Family)
    requires Square(f, n) && i < n && j < n && Sub(f, s) && MC.Holds(s, Fact(v, i, j))
    ensures Sub(Put(f, v, i, j, n), s)
  {
    var r := Put(f, v, i, j, n);
    forall k | k in r
      ensures k in s && r[k].cells <= s[k].cells
    {
      if k == v {
        assert r[k].cells == (if v in f then f[v].cells else {}) + {(i, j)};
      } else {
        assert r[k] == f[k];
      }
    }
  }

  lemma SubTrans(f: Family, g: Family, h: Family)
    requires Sub(f, g) && Sub(g, h)
    ensures Sub(f, h)
  {
  }

  /** After the write for (p, q), the entries done and (p, q) are recorded. */
  lemma RecordedStep(m: Machine, f: Family, f': Family, n: nat, done: set<Cell>, p: nat, q: nat,
                     ci: nat, gi: nat, cj: nat, gj: nat)
    requires MachineValid(m) && Square(f, n) && Square(f', n) && Sub(f, f')
    requires Recorded(m, f, n, done)
    requires ci < |m.order| && cj < |m.order| && gi < n && gj < n
    requires Pair(ci, gi, n) == p && Pair(cj, gj, n) == q
    requires m.order[ci] in m.start && m.order[cj] in m.final ==> MC.Holds(f', Fact(m.order[ci].box, gi, gj))
    ensures Recorded(m, f', n, done + {(p, q)})
  {
    forall ci': nat, gi': nat, cj': nat, gj': nat |
      && ci' < |m.order| && gi' < n && cj' < |m.order| && gj' < n
      && (Pair(ci', gi', n), Pair(cj', gj', n)) in done + {(p, q)}
      && m.order[ci'] in m.start && m.order[cj'] in m.final
      ensures MC.Holds(f', Fact(m.order[ci'].box, gi', gj'))
    {
      if (Pair(ci', gi', n), Pair(cj', gj', n)) in done {
        assert MC.Holds(f, Fact(m.order[ci'].box, gi', gj'));
      } else {
        PairInjective(ci', gi', ci, gi, n);
        PairInjective(cj', gj', cj, gj, n);
      }
    }
  }

  /**
   * The writes of one round over every entry of the closure, each entry
   * connected in the product of the graph matrices the round started from.
   */
  method RecordAll(m: Machine, ghost seeds: Family, f: Family, n: nat, ghost keys: set<Symbol>, cells: set<Cell>)
    returns (f': Family)
    requires MachineValid(m) && Square(f, n) && Sub(seeds, f) && f.Keys <= keys
    requires forall x | x in m.order :: x.box in keys
    requires Below(m, seeds, f, n)
    requires forall c | c in cells :: Connected(Product(m, f, n), c.0, c.1)
    ensures Recording(m, seeds, f, f', n, keys, cells)
  {
    f' := f;
    var todo := cells;
    ghost var done: set<Cell> := {};
    while todo != {}
      invariant done + todo == cells
      invariant Recording(m, seeds, f, f', n, keys, done)
      decreases todo
    {
      var c :| c in todo;
      f' := RecordEntry(m, seeds, f, f', n, keys, done, c);
      todo, done := todo - {c}, done + {c};
    }
  }

  /**
   * When every connected pair of the product is an entry whose conclusion
   * is recorded, the graph matrices are closed under the box rule.
   */
  lemma ExitClosed(m: Machine, f: Family, n: nat, cells: set<Cell>)
    requires MachineValid(m) && Square(f, n)
    requires forall p: nat, q: nat :: Connected(Product(m, f, n), p, q) ==> (p, q) in cells
    requires Recorded(m, f, n, cells)
    ensures BoxClosed(m, f, n)
  {
    forall ci: nat, cj: nat, gi: nat, gj: nat, w: seq<Symbol> |
      && ci < |m.order| && cj < |m.order| && gi < n && gj < n
      && m.order[ci] in m.start && m.order[cj] in m.final && |w| > 0
      && Walk(m.matrices, ci, w, cj) && Walk(f, gi, w, gj)
      ensures MC.Holds(f, Fact(m.order[ci].box, gi, gj))
    {
      KronWalkJoin(m.matrices, |m.order|, f, n, ci, gi, w, cj, gj);
      assert Connected(Product(m, f, n), Pair(ci, gi, n), Pair(cj, gj, n));
    }
  }

  /** Square matrices whose keys are in `keys` list only facts of `Universe(keys, n)`. */
  lemma FactsBounded(f: Family, keys: set<Symbol>, n: nat)
    requires Square(f, n) && f.Keys <= keys
    ensures MC.FactsOf(f) <= Universe(keys, n)
  {
  }

  /**
   * The triples `(graph_indexed_states[i], non_term, graph_indexed_states[j])`
   * of the true entries of the graph matrices.
   */
  function Triples(f: Family, states: seq<State>): (r: set<(State, Symbol, State)>)
    requires Distinct(states) && Square(f, |states|)
    ensures forall t :: t in r <==>
              t.0 in states && t.2 in states && MC.Holds(f, Fact(t.1, IndexMap(states)[t.0], IndexMap(states)[t.2]))
  {
    set v, c | v in f && c in f[v].cells :: (states[c.0], v, states[c.1])
  }

  /**
   * The invariant of the rounds: the graph matrices contain the seeds, stay
   * below every closed family that contains them, and hold the conclusion
   * of every entry of the previous closure, each of which is connected in
   * the current product; once a round wrote nothing new, the previous
   * closure has every connected pair.
   */
  ghost predicate Progress(m: Machine, seeds: Family, keys: set<Symbol>, f: Family, n: nat, prev: Matrix, synced: bool)
    requires MachineValid(m)
  {
    && Square(f, n) && Sub(seeds, f) && f.Keys <= keys
    && Below(m, seeds, f, n)
    && prev.Valid()
    && (forall p, q | (p, q) in prev.cells :: Connected(Product(m, f, n), p, q))
    && Recorded(m, f, n, prev.cells)
    && (synced ==> forall p: nat, q: nat :: Connected(Product(m, f, n), p, q) ==> (p, q) in prev.cells)
  }

  /**
   * One round after the closure `tc` of the product is computed: stop when
   * it has as many entries as the previous closure, and otherwise write
   * the conclusions of its start-to-final entries into the graph matrices.
   * A stop leaves the least family; a write keeps the invariant and either
   * adds a fact or, writing nothing new, marks the previous closure as
   * complete.
   */
  method Round(m: Machine, ghost seeds: Family, ghost keys: set<Symbol>, f: Family, n: nat,
               prev: Matrix, ghost synced: bool, tc: Matrix)
    returns (stop: bool, f': Family, prev': Matrix, ghost synced': bool)
    requires MachineValid(m) && forall x | x in m.order :: x.box in keys
    requires Progress(m, seeds, keys, f, n, prev, synced)
    requires tc.Valid() && forall p: nat, q: nat :: (p, q) in tc.cells <==> Connected(Product(m, f, n), p, q)
    ensures stop ==> TensorLeast(m, seeds, f, n)
    ensures !stop ==> Progress(m, seeds, keys, f', n, prev', synced')
    ensures !stop ==> (f' == f && !synced && synced') || Universe(keys, n) - MC.FactsOf(f') < Universe(keys, n) - MC.FactsOf(f)
  {
    assert prev.cells <= tc.cells;
    if synced {
      forall c | c in tc.cells
        ensures c in prev.cells
      {
        assert Connected(Product(m, f, n), c.0, c.1);
      }
      assert tc.cells == prev.cells;
    }
    if prev.Nnz() == tc.Nnz() {
      SameCountNoGrowth(prev.cells, tc.cells);
      ExitClosed(m, f, n, prev.cells);
      return true, f, prev, synced;
    }
    stop, prev' := false, tc;
    f' := RecordAll(m, seeds, f, n, keys, tc.cells);
    forall p, q | (p, q) in prev'.cells
      ensures Connected(Product(m, f', n), p, q)
    {
      ConnectedGrows(m, f, f', n, p, q);
    }
    synced' := f' == f;
    if !synced' {
      FactsBounded(f', keys, n);
      MC.Shrinks(Universe(keys, n), MC.FactsOf(f), MC.FactsOf(f'));
    }
  }

  /**
   * The rounds of `_tensor_prod`: intersect the machine with the graph
   * matrices, close the product, and run a round, until a round stops.
   * Starting below every closed family that contains the seeds, the graph
   * matrices end as the least such family.
   */
  method Saturate(cfg: GD.BooleanDecomposition, graph: GD.BooleanDecomposition, m: Machine,
                  ghost seeds: Family, ghost keys: set<Symbol>)
    modifies graph
    requires graph != cfg && cfg.Valid() && graph.Valid() && MachineValid(m)
    requires |cfg.indexedStates| == |m.order| && cfg.matrices == m.matrices
    requires cfg.startStates == m.start && cfg.finalStates == m.final
    requires Sub(seeds, graph.matrices) && graph.matrices.Keys <= keys
    requires forall x | x in m.order :: x.box in keys
    requires Below(m, seeds, graph.matrices, |graph.indexedStates|)
    ensures graph.indexedStates == old(graph.indexedStates)
    ensures TensorLeast(m, seeds, graph.matrices, |graph.indexedStates|)
  {
    var n := |graph.indexedStates|;
    var size := |cfg.indexedStates| * n;
    var prev := Zero(size, size);
    ghost var synced := false;
    while true
      invariant graph.indexedStates == old(graph.indexedStates) && graph.Valid()
      invariant Progress(m, seeds, keys, graph.matrices, n, prev, synced)
      decreases Universe(keys, n) - MC.FactsOf(graph.matrices), if synced then 0 else 1
    {
      var intersection := cfg.Intersect(graph);
      var tc := intersection.TransitiveClosure();
      assert intersection.matrices == Product(m, graph.matrices, n);
      var stop, f', prev', synced' := Round(m, seeds, keys, graph.matrices, n, prev, synced, tc);
      if stop {
        break;
      }
      graph.matrices, prev, synced := f', prev', synced';
    }
  }

  /**
   * `_tensor_prod` on the boxes of the grammar's state machine (their
   * states tagged and listed in `order`), the graph's automaton `a` and
   * the grammar's nullable nonterminals: the graph matrices it ends with
   * are the least family containing the graph's edges and the nullable
   * self-loops that is closed under the box rule, and the result lists
   * their entries as (vertex, nonterminal or label, vertex).
   */
  method TensorProd(boxes: map<GD.Variable, Nfa>, order: seq<GD.Node>, a: Nfa, nullable: set<Symbol>)
    returns (r: set<(State, Symbol, State)>, ghost f: Family)
    requires GD.BoxesWellFormed(boxes) && GD.Listed(order)
    requires forall x :: x in order <==> x in GD.TaggedOf(boxes, boxes.Keys, GD.AllStates)
    requires WellFormed(a)
    ensures TensorLeast(RsmMachine(boxes, order), NullableLoops(GD.SymbolFamily(a, Labels(a.transitions)), nullable, |a.states|),
                        f, |a.states|)
    ensures r == Triples(f, a.states)
  {
    var cfg := GD.BooleanDecomposition.FromRsm(boxes, order);
    var graph := GD.BooleanDecomposition.FromAutomata(a, Labels(a.transitions));
    var n := |a.states|;
    var m := Machine(order, cfg.startStates, cfg.finalStates, cfg.matrices);
    assert m == RsmMachine(boxes, order);
    ghost var keys := Labels(a.transitions) + nullable + boxes.Keys;
    GD.ListedCard(order);
    GD.VertexCard(a.states);
    graph.matrices := SeedNullable(graph.matrices, nullable, n);
    ghost var seeds := graph.matrices;
    assert |graph.indexedStates| == n;
    Saturate(cfg, graph, m, seeds, keys);
    assert |graph.indexedStates| == n;
    r := Triples(graph.matrices, a.states);
    f := graph.matrices;
  }
}
