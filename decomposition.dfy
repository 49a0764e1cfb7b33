/// The boolean decomposition of an automaton (`project/re/boolean_decomposition.py`
/// and its csr twin `project/boolean_decomposition.py`): states numbered by
/// enumeration and one n x n boolean matrix per symbol, with conversion back
/// to an automaton, Kronecker-product intersection, transitive closure and
/// the block-diagonal direct sum used by the constrained search.
module Decomposition {
  import opened Pairing
  import opened BoolMatrix
  import opened Walks
  import opened Automata
  import opened Frontier
  import opened Fronts
  import opened Outcome
  import opened Answers
  import opened Bfs
  import opened Reports

  /** The indices, in enumeration order, of the states that lie in `s`. */
  function IndicesIn(states: seq<State>, s: set<State>): (r: seq<nat>)
    ensures forall x: nat :: x in r <==> x < |states| && states[x] in s
    ensures forall a, b | 0 <= a < b < |r| :: r[a] < r[b]
  {
    if |states| == 0 then []
    else
      var last := |states| - 1;
      var rest := IndicesIn(states[..last], s);
      assert forall a | 0 <= a < |rest| :: rest[a] in rest && rest[a] < last;
      rest + (if states[last] in s then [last] else [])
  }

  /** The set of positions of `IndicesIn`. */
  function IndexSetOf(states: seq<State>, s: set<State>): (r: set<nat>)
    ensures forall x: nat :: x in r <==> x < |states| && states[x] in s
  {
    set x | x in IndicesIn(states, s)
  }

  /** The indices the map gives to the states of `s`. */
  function IndexSet(index: map<State, nat>, s: set<State>): set<nat> {
    set x | x in index && x in s :: index[x]
  }

  /** The pair indices i * m + j of i in a and j in b. */
  function PairSet(a: set<nat>, b: set<nat>, m: nat): set<nat> {
    set i, j | i in a && j in b :: Pair(i, j, m)
  }

  /** A map sending each element of s to itself. */
  function Identity(s: set<nat>): (m: map<State, nat>)
    ensures m.Keys == s && forall x | x in s :: m[x] == x
  {
    map x | x in s :: x
  }

  /** The product states made from the pairs of keys in `lk` x `rk` that lie in `ls` x `rs`. */
  function ProductPart(left: map<State, nat>, ls: set<State>, right: map<State, nat>, rs: set<State>, m: nat,
                       lk: set<State>, rk: set<State>): set<nat>
  {
    set l, r | l in lk && r in rk && l in left && r in right && l in ls && r in rs :: Pair(left[l], right[r], m)
  }

  /** Index transitions with each endpoint index replaced by the state it numbers. */
  function Relabel(trans: set<Transition>, states: seq<State>): set<Transition> {
    set t | t in trans && t.from < |states| && t.to < |states| :: Transition(states[t.from], t.symbol, states[t.to])
  }

  /** The product states of keys in `ls` and `rs`: left index times m plus right index. */
  function ProductStates(left: map<State, nat>, ls: set<State>, right: map<State, nat>, rs: set<State>, m: nat): set<nat> {
    ProductPart(left, ls, right, rs, m, left.Keys, right.Keys)
  }

  /** The states a sequence lists. */
  function Elements(s: seq<State>): set<State> {
    set x | x in s
  }

  /** States shifted past the first n numbers. */
  function Shift(s: set<State>, n: nat): set<State> {
    set x | x in s :: x + n
  }

  /** The transitions read back from the matrices, endpoints turned back into states by their index. */
  function StateTransitions(f: Family, states: seq<State>): set<Transition> {
    Relabel(EntryTransitions(f), states)
  }

  class BooleanDecomposition {
    var states: seq<State>
    var startStates: set<State>
    var finalStates: set<State>
    var numOfStates: nat
    var indexedStates: map<State, nat>
    var booleanMatrices: Family

    /** Every matrix is numOfStates x numOfStates and every index is a row. */
    ghost predicate Valid()
      reads this
    {
      && Square(booleanMatrices, numOfStates)
      && forall s | s in indexedStates :: indexedStates[s] < numOfStates
    }

    /** Built from an automaton: the states are numbered by their enumeration. */
    ghost predicate Enumerated()
      reads this
    {
      && Valid() && Distinct(states) && numOfStates == |states|
      && indexedStates == IndexMap(states)
    }

    /** `BooleanDecomposition()`: no states and no matrices. */
    constructor Empty()
      ensures states == [] && startStates == {} && finalStates == {}
      ensures numOfStates == 0 && indexedStates == map[] && booleanMatrices == map[]
      ensures Enumerated()
    {
      states, startStates, finalStates := [], {}, {};
      numOfStates := 0;
      indexedStates := map[];
      booleanMatrices := map[];
    }

    /**
     * `BooleanDecomposition(automaton)`: the states numbered 0..n-1 in
     * enumeration order and one matrix per symbol used by a transition.
     */
    constructor FromNfa(a: Nfa)
      requires WellFormed(a)
      ensures states == a.states && startStates == a.startStates && finalStates == a.finalStates
      ensures numOfStates == |a.states| && indexedStates == IndexMap(a.states)
      ensures booleanMatrices == TransitionFamily(a.transitions, IndexMap(a.states), |a.states|)
      ensures Enumerated()
    {
      states := a.states;
      startStates := a.startStates;
      finalStates := a.finalStates;
      numOfStates := |a.states|;
      indexedStates := IndexMap(a.states);
      booleanMatrices := map[];
      new;
      booleanMatrices := GetBooleanMatrices(a);
    }

    /**
     * `_get_boolean_matrices`: for each transition p -s-> q, create the
     * n x n matrix of s if it is missing and set entry (index p, index q).
     */
    method GetBooleanMatrices(a: Nfa) returns (matrices: Family)
      requires WellFormed(a) && indexedStates == IndexMap(a.states) && numOfStates == |a.states|
      ensures matrices == TransitionFamily(a.transitions, indexedStates, numOfStates)
    {
      var index, n := indexedStates, numOfStates;
      assert forall u | u in a.transitions :: u.from in index && u.to in index;
      matrices := map[];
      var todo := a.transitions;
      ghost var done: set<Transition> := {};
      while todo != {}
        invariant done <= a.transitions && todo <= a.transitions
        invariant forall u | u in a.transitions :: u in done || u in todo
        invariant forall u | u in done :: u.from in index && u.to in index
        invariant matrices == TransitionFamily(done, index, n)
        decreases todo
      {
        var t :| t in todo;
        var from, to := index[t.from], index[t.to];
        var m := if t.symbol in matrices then matrices[t.symbol] else Zero(n, n);
        TransitionFamilyAdd(done, t, index, n);
        matrices := matrices[t.symbol := SetEntry(m, from, to)];
        done, todo := done + {t}, todo - {t};
      }
      assert done == a.transitions;
    }

    /**
     * `to_nfa` as written: one transition per true entry, between the row
     * and column indices, with the start and final states copied unchanged.
     */
    method ToNfa() returns (a: Automaton)
      ensures a == Automaton(EntryTransitions(booleanMatrices), startStates, finalStates)
    {
      var trans: set<Transition> := {};
      var symbols := booleanMatrices.Keys;
      while symbols != {}
        invariant symbols <= booleanMatrices.Keys
        invariant forall t :: t in trans <==>
          t.symbol in booleanMatrices.Keys - symbols && (t.from, t.to) in booleanMatrices[t.symbol].cells
        decreases symbols
      {
        var s :| s in symbols;
        var entries := booleanMatrices[s].cells;
        while entries != {}
          invariant entries <= booleanMatrices[s].cells
          invariant forall t :: t in trans <==>
            || (t.symbol in booleanMatrices.Keys - symbols && (t.from, t.to) in booleanMatrices[t.symbol].cells)
            || (t.symbol == s && (t.from, t.to) in booleanMatrices[s].cells - entries)
          decreases entries
        {
          var c :| c in entries;
          trans := trans + {Transition(c.0, s, c.1)};
          entries := entries - {c};
        }
        symbols := symbols - {s};
      }
      a := Automaton(trans, startStates, finalStates);
    }

    /** `to_nfa` with each index turned back into the state it numbers. */
    method ToNfaByState() returns (a: Automaton)
      ensures a == Automaton(StateTransitions(booleanMatrices, states), startStates, finalStates)
    {
      var trans: set<Transition> := {};
      ghost var done: set<Transition> := {};
      var symbols := booleanMatrices.Keys;
      while symbols != {}
        invariant symbols <= booleanMatrices.Keys
        invariant forall t :: t in done <==>
          t.symbol in booleanMatrices.Keys - symbols && (t.from, t.to) in booleanMatrices[t.symbol].cells
        invariant trans == Relabel(done, states)
        decreases symbols
      {
        var s :| s in symbols;
        var entries := booleanMatrices[s].cells;
        while entries != {}
          invariant entries <= booleanMatrices[s].cells
          invariant forall t :: t in done <==>
            || (t.symbol in booleanMatrices.Keys - symbols && (t.from, t.to) in booleanMatrices[t.symbol].cells)
            || (t.symbol == s && (t.from, t.to) in booleanMatrices[s].cells - entries)
          invariant trans == Relabel(done, states)
          decreases entries
        {
          var c: Cell :| c in entries;
          RelabelAdd(done, Transition(c.0, s, c.1), states);
          if c.0 < |states| && c.1 < |states| {
            trans := trans + {Transition(states[c.0], s, states[c.1])};
          }
          done := done + {Transition(c.0, s, c.1)};
          entries := entries - {c};
        }
        symbols := symbols - {s};
      }
      assert done == EntryTransitions(booleanMatrices);
      a := Automaton(trans, startStates, finalStates);
    }

    /**
     * `intersection`: the Kronecker product of the matrices of the common
     * symbols; every pair of states becomes the state left index times m
     * plus right index, numbered by itself, and is a start (final) state
     * when both components are.
     */
    method Intersection(other: BooleanDecomposition) returns (result: BooleanDecomposition)
      requires Valid() && other.Valid()
      ensures fresh(result) && result.Valid()
      ensures result.states == [] && result.numOfStates == numOfStates * other.numOfStates
      ensures result.booleanMatrices == KronFamily(booleanMatrices, numOfStates, other.booleanMatrices, other.numOfStates)
      ensures result.indexedStates
           == Identity(ProductStates(indexedStates, indexedStates.Keys, other.indexedStates, other.indexedStates.Keys, other.numOfStates))
      ensures result.startStates
           == ProductStates(indexedStates, startStates, other.indexedStates, other.startStates, other.numOfStates)
      ensures result.finalStates
           == ProductStates(indexedStates, finalStates, other.indexedStates, other.finalStates, other.numOfStates)
    {
      var matrices := KronMatrices(booleanMatrices, numOfStates, other.booleanMatrices, other.numOfStates);
      var index, start, final := PairStates(indexedStates, startStates, finalStates,
                                            other.indexedStates, other.startStates, other.finalStates, other.numOfStates);
      ProductStatesBound(indexedStates, indexedStates.Keys, numOfStates,
                         other.indexedStates, other.indexedStates.Keys, other.numOfStates);
      result := new BooleanDecomposition.Empty();
      result.booleanMatrices := matrices;
      result.numOfStates := numOfStates * other.numOfStates;
      result.indexedStates, result.startStates, result.finalStates := index, start, final;
    }

    /**
     * `transitive_closure`: the empty 0 x 0 matrix when there are no
     * matrices; otherwise the OR of all matrices, squared and added to
     * itself until its number of true entries stops changing. The result
     * holds exactly the pairs joined by a non-empty walk.
     */
    method TransitiveClosure() returns (closure: Matrix)
      requires Valid()
      ensures booleanMatrices == map[] ==> closure == Zero(0, 0)
      ensures booleanMatrices != map[] ==> closure.Valid() && closure.rows == numOfStates && closure.cols == numOfStates
      ensures booleanMatrices != map[] ==> forall i: nat, j: nat :: (i, j) in closure.cells <==> Connected(booleanMatrices, i, j)
    {
      if |booleanMatrices| == 0 {
        return Zero(0, 0);
      }
      var f, n := booleanMatrices, numOfStates;
      closure := Union(f, n);
      forall x, y | (x, y) in closure.cells
        ensures Connected(f, x, y)
      {
        var s :| s in f && (x, y) in f[s].cells;
        WalkEdge(f, x, s, y);
      }
      NnzBound(closure);
      var prev, curr := closure.Nnz(), 0;
      while prev != curr
        invariant closure.Valid() && closure.rows == n && closure.cols == n
        invariant Union(f, n).cells <= closure.cells
        invariant forall x, y :: (x, y) in closure.cells ==> Connected(f, x, y)
        invariant (curr == 0 && prev == closure.Nnz()) || (curr == closure.Nnz() && prev <= curr)
        invariant curr == closure.Nnz() && prev == curr ==> Mul(closure, closure).cells <= closure.cells
        invariant curr <= n * n && closure.Nnz() <= n * n
        decreases n * n - curr + (if prev == curr then 0 else 1)
      {
        var before := closure;
        closure := Or(closure, Mul(closure, closure));
        forall x, y | (x, y) in closure.cells
          ensures Connected(f, x, y)
        {
          if (x, y) !in before.cells {
            ConnectedProduct(f, before, x, y);
          }
        }
        SubsetCard(before.cells, closure.cells);
        NnzBound(closure);
        if closure.Nnz() == before.Nnz() {
          SameCountNoGrowth(before.cells, closure.cells);
        }
        prev, curr := curr, closure.Nnz();
      }
      if curr == 0 {
        assert closure.cells == {};
      }
      forall i: nat, j: nat | Connected(f, i, j)
        ensures (i, j) in closure.cells
      {
        var w: seq<Symbol> :| |w| > 0 && Walk(f, i, w, j);
        ClosedContainsWalks(f, n, closure, i, w, j);
      }
    }

    /**
     * `_direct_matrix_sum`: block-diagonal matrices [[this, 0], [0, other]]
     * for the common symbols, the states of `other` shifted past this
     * one's, and the index map filled as `intersection` fills it.
     */
    method DirectMatrixSum(other: BooleanDecomposition) returns (result: BooleanDecomposition)
      requires Valid() && other.Valid()
      ensures fresh(result)
      ensures result.booleanMatrices == DirectSumFamily(booleanMatrices, numOfStates, other.booleanMatrices, other.numOfStates)
      ensures result.numOfStates == numOfStates + other.numOfStates
      ensures Elements(result.states) == Elements(states) + Shift(Elements(other.states), numOfStates)
      ensures result.startStates == startStates + Shift(other.startStates, numOfStates)
      ensures result.finalStates == finalStates + Shift(other.finalStates, numOfStates)
      ensures result.indexedStates
           == Identity(ProductStates(indexedStates, indexedStates.Keys, other.indexedStates, other.indexedStates.Keys, other.numOfStates))
    {
      var k := numOfStates;
      var all := UnionShifted(states, other.states, k);
      var matrices := BlockMatrices(booleanMatrices, numOfStates, other.booleanMatrices, other.numOfStates);
      // Only the index map of the shared pairing loop is kept here.
      var index, pairedStart, pairedFinal := PairStates(indexedStates, startStates, finalStates,
                                                        other.indexedStates, other.startStates, other.finalStates,
                                                        other.numOfStates);
      result := new BooleanDecomposition.Empty();
      result.indexedStates := index;
      result.states := all;
      result.numOfStates := k + other.numOfStates;
      result.startStates := startStates + Shift(other.startStates, k);
      result.finalStates := finalStates + Shift(other.finalStates, k);
      result.booleanMatrices := matrices;
    }

    /** Built from an automaton whose states are the numbers 0, 1, ..., n - 1 in that order. */
    ghost predicate Numbered()
      reads this
    {
      Enumerated() && forall i | 0 <= i < |states| :: states[i] == i
    }

    /**
     * The front and search shared by the copies of `constraint_bfs`: the
     * direct sum, the pooled or separated front (or the KeyError of the
     * separated one), and the visited matrix.
     */
    method SearchFrom(constraint: BooleanDecomposition, separated: bool) returns (r: Result<Matrix>)
      requires Valid() && constraint.Valid() && |states| == numOfStates
      ensures var copies := SepCopies(indexedStates, startStates, numOfStates);
              separated && copies.Failure? ==> r == Failure(copies.error)
      ensures var copies := SepCopies(indexedStates, startStates, numOfStates);
              !(separated && copies.Failure?) ==>
              && r.Success?
              && r.value.Valid() && r.value.cols == constraint.numOfStates + numOfStates
              && var st := Setting(constraint.booleanMatrices, constraint.numOfStates, booleanMatrices, numOfStates,
                                   BfsFront(constraint.numOfStates, numOfStates, constraint.indexedStates.Values,
                                            IndexSetOf(states, startStates), separated, copies));
                 forall e :: e in r.value.cells <==> st.Reached(e)
    {
      var k, n := constraint.numOfStates, numOfStates;
      var directSum := constraint.DirectMatrixSum(this);
      ghost var rows, starts := constraint.indexedStates.Values, IndexSetOf(states, startStates);
      ghost var c, g := constraint.booleanMatrices, booleanMatrices;
      var front: Matrix;
      if !separated {
        front := ConstructFront(this, constraint);
        PooledGood(c, k, g, n, rows, starts);
      } else {
        var sep := ConstructSepFront(this, constraint);
        if sep.Failure? {
          return Failure(sep.error);
        }
        front := sep.value;
        var copies := SepCopies(indexedStates, startStates, n).value;
        if copies > 0 {
          SepGood(c, k, g, n, rows, starts, copies);
        } else {
          ZeroGood(c, k, g, n);
        }
      }
      var visited := Search(directSum.booleanMatrices, k, front, Setting(c, k, g, n, front));
      r := Success(visited);
    }

    /**
     * `constraint_bfs` (`project/re` copy): the direct sum of the
     * constraint and this graph, the front of `_construct_front` (pooled)
     * or `_construct_sep_front` (separated), the search, and the answer
     * loop reading finality from lists of final indices.
     */
    method ConstraintBfs(constraint: BooleanDecomposition, separated: bool) returns (r: Result<set<Answer>>)
      requires Valid() && constraint.Valid() && |states| == numOfStates
      ensures r == BfsOutcome(constraint.booleanMatrices, constraint.numOfStates, booleanMatrices, numOfStates,
                              constraint.indexedStates.Values, IndexSetOf(states, startStates),
                              IndexSetOf(constraint.states, constraint.finalStates), IndexSetOf(states, finalStates),
                              separated, SepCopies(indexedStates, startStates, numOfStates), IndicesIn(states, startStates))
    {
      var startIdx := IndicesIn(states, startStates);
      var gfin := IndexSetOf(states, finalStates);
      var cfin := IndexSetOf(constraint.states, constraint.finalStates);
      var visited := SearchFrom(constraint, separated);
      if visited.Failure? {
        return Failure(visited.error);
      }
      r := CollectByIndex(visited.value.cells, constraint.numOfStates, numOfStates, cfin, gfin, separated, startIdx);
      ReadOff(constraint.booleanMatrices, constraint.numOfStates, booleanMatrices, numOfStates,
              constraint.indexedStates.Values, IndexSetOf(states, startStates), cfin, gfin, separated,
              SepCopies(indexedStates, startStates, numOfStates), startIdx, visited.value.cells);
    }

    /**
     * `constraint_bfs` of `project/boolean_decomposition.py`: the same
     * search, but finality is read by looking the row's constraint index
     * and the column's vertex index up as states, which can raise a
     * KeyError. It agrees with `ConstraintBfs` when both automata number
     * their states 0, 1, ..., n - 1.
     */
    method ConstraintBfsLookup(constraint: BooleanDecomposition, separated: bool) returns (r: Result<set<Answer>>)
      requires Valid() && constraint.Valid() && |states| == numOfStates
      ensures var copies := SepCopies(indexedStates, startStates, numOfStates);
              separated && copies.Failure? ==> r == Failure(copies.error)
      ensures var copies := SepCopies(indexedStates, startStates, numOfStates);
              !(separated && copies.Failure?) ==>
              var st := Setting(constraint.booleanMatrices, constraint.numOfStates, booleanMatrices, numOfStates,
                                BfsFront(constraint.numOfStates, numOfStates, constraint.indexedStates.Values,
                                         IndexSetOf(states, startStates), separated, copies));
              var entry := LookupEntries(constraint.numOfStates, numOfStates, constraint.indexedStates,
                                         constraint.finalStates, indexedStates, finalStates, separated,
                                         IndicesIn(states, startStates));
              && (r.Success? <==> forall e | st.Reached(e) :: entry(e).Success?)
              && (r.Success? ==> forall a :: a in r.value <==> exists e :: st.Reached(e) && entry(e).Success? && a in entry(e).value)
              && (r.Failure? ==> exists e :: st.Reached(e) && entry(e) == Failure(r.error)
                                           && forall d | st.Reached(d) && Before(d, e) :: entry(d).Success?)
      ensures Numbered() && constraint.Numbered() ==>
              r == BfsOutcome(constraint.booleanMatrices, constraint.numOfStates, booleanMatrices, numOfStates,
                              constraint.indexedStates.Values, IndexSetOf(states, startStates),
                              IndexSetOf(constraint.states, constraint.finalStates), IndexSetOf(states, finalStates),
                              separated, SepCopies(indexedStates, startStates, numOfStates), IndicesIn(states, startStates))
    {
      var k, n := constraint.numOfStates, numOfStates;
      var startIdx := IndicesIn(states, startStates);
      var visited := SearchFrom(constraint, separated);
      if visited.Failure? {
        return Failure(visited.error);
      }
      var entry := LookupEntries(k, n, constraint.indexedStates, constraint.finalStates, indexedStates, finalStates,
                                 separated, startIdx);
      r := Collect(visited.value.cells, entry);
      if Numbered() && constraint.Numbered() {
        LookupOutcome(visited.value.cells, r, k, n, constraint.states, constraint.indexedStates, constraint.finalStates,
                      states, indexedStates, finalStates, separated, startIdx);
        ReadOff(constraint.booleanMatrices, k, booleanMatrices, n,
                constraint.indexedStates.Values, IndexSetOf(states, startStates),
                IndexSetOf(constraint.states, constraint.finalStates), IndexSetOf(states, finalStates), separated,
                SepCopies(indexedStates, startStates, n), startIdx, visited.value.cells);
      }
    }

    /**
     * The evidently intended search: only the constraint's start states are
     * seeded, and the separated search gives every start vertex its own
     * block of k rows, labelled by `i // k`.
     */
    method ConstraintBfsFixed(constraint: BooleanDecomposition, separated: bool) returns (r: Result<set<Answer>>)
      requires Valid() && constraint.Valid() && |states| == numOfStates
      ensures var cstart := IndexSet(constraint.indexedStates, constraint.startStates);
              var cfin := IndexSetOf(constraint.states, constraint.finalStates);
              var gfin := IndexSetOf(states, finalStates);
              r == if !separated
                   then PooledResult(constraint.booleanMatrices, constraint.numOfStates, booleanMatrices, numOfStates,
                                     cstart, IndexSetOf(states, startStates), cfin, gfin)
                   else FixedResult(constraint.booleanMatrices, constraint.numOfStates, booleanMatrices, numOfStates,
                                    cstart, IndicesIn(states, startStates), cfin, gfin)
    {
      var k, n := constraint.numOfStates, numOfStates;
      var startIdx := IndicesIn(states, startStates);
      var gfin := IndexSetOf(states, finalStates);
      var cfin := IndexSetOf(constraint.states, constraint.finalStates);
      var cstart := IndexSet(constraint.indexedStates, constraint.startStates);
      ghost var starts := IndexSetOf(states, startStates);
      ghost var c, g := constraint.booleanMatrices, booleanMatrices;
      var directSum := constraint.DirectMatrixSum(this);
      var front: Matrix;
      if !separated {
        front := ConstructFrontRows(this, constraint, constraint.indexedStates.Keys * constraint.startStates);
        assert IndexSet(constraint.indexedStates, constraint.indexedStates.Keys * constraint.startStates) == cstart;
        PooledGood(c, k, g, n, cstart, starts);
      } else {
        front := FixedFront(k, n, cstart, startIdx);
        assert forall b | 0 <= b < |startIdx| :: startIdx[b] in startIdx;
        FixedGood(c, k, g, n, cstart, startIdx);
      }
      ghost var st := Setting(c, k, g, n, front);
      var visited := Search(directSum.booleanMatrices, k, front, st);
      r := CollectByIndex(visited.cells, k, if separated then k else n, cfin, gfin, separated, startIdx);
      if k == 0 {
        assert visited.cells == {};
        NoAnswers(k, k, cfin, gfin, separated, startIdx);
        NoAnswers(k, n, cfin, gfin, separated, startIdx);
        if separated {
          NoConstraintFixed(c, g, n, cstart, startIdx, cfin, gfin);
        } else {
          NoConstraintPooled(c, g, n, cstart, starts, cfin, gfin);
        }
      } else if !separated {
        PooledAnswers(st, cstart, starts, visited.cells, cfin, gfin, startIdx);
      } else {
        FixedAnswers(st, cstart, startIdx, visited.cells, cfin, gfin);
      }
    }
  }

  /** What `constraint_bfs` returns (`project/re` copy): the pooled answer, or the separated one for the number of copies. */
  ghost function BfsOutcome(c: Family, k: nat, g: Family, n: nat, rows: set<nat>, starts: set<nat>,
                            cfin: set<nat>, gfin: set<nat>, separated: bool, copies: Result<nat>,
                            startIdx: seq<nat>): Result<set<Answer>>
    requires (forall i | i in rows :: i < k) && forall u | u in starts :: u < n
  {
    if !separated then PooledResult(c, k, g, n, rows, starts, cfin, gfin)
    else if copies.Failure? then Failure(copies.error)
    else SeparatedResult(c, k, g, n, rows, starts, copies.value, cfin, gfin, startIdx)
  }

  /** The front `constraint_bfs` starts from: pooled, stacked copies, or all false when there is no copy. */
  function BfsFront(k: nat, n: nat, rows: set<nat>, starts: set<nat>, separated: bool, copies: Result<nat>): Matrix
    requires (forall i | i in rows :: i < k) && forall u | u in starts :: u < n
  {
    if !separated then FrontOf(k, n, rows, starts)
    else if copies.Failure? || copies.value == 0 then Zero(k, k + n)
    else SepFront(k, n, rows, starts, copies.value)
  }

  /** The answer of one entry in the csr copy, as a function of the entry. */
  function LookupEntries(k: nat, block: nat, cIndex: map<nat, nat>, cFinal: set<nat>,
                         gIndex: map<nat, nat>, gFinal: set<nat>,
                         separated: bool, startIdx: seq<nat>): Cell -> Result<set<Answer>>
  {
    e => EntryByLookup(e, k, block, cIndex, cFinal, gIndex, gFinal, separated, startIdx)
  }

  /**
   * Read-off of the `project/re` copy over the visited entries of a search
   * from `BfsFront` equals `BfsOutcome`.
   */
  lemma ReadOff(c: Family, k: nat, g: Family, n: nat, rows: set<nat>, starts: set<nat>,
                cfin: set<nat>, gfin: set<nat>, separated: bool, copies: Result<nat>,
                startIdx: seq<nat>, visited: set<Cell>)
    requires Square(c, k) && Square(g, n)
    requires (forall i | i in rows :: i < k) && forall u | u in starts :: u < n
    requires separated ==> copies.Success?
    requires forall e :: e in visited <==> Setting(c, k, g, n, BfsFront(k, n, rows, starts, separated, copies)).Reached(e)
    ensures ByIndex(visited, k, n, cfin, gfin, separated, startIdx)
         == BfsOutcome(c, k, g, n, rows, starts, cfin, gfin, separated, copies, startIdx)
  {
    var st := Setting(c, k, g, n, BfsFront(k, n, rows, starts, separated, copies));
    if k == 0 || (separated && copies.value == 0) {
      forall e | e in visited
        ensures false
      {
        if k > 0 {
          NothingReached(st, e);
        }
      }
      assert visited == {};
      NoAnswers(k, n, cfin, gfin, separated, startIdx);
      if separated {
        NoRowsSeparated(c, k, g, n, rows, starts, copies.value, cfin, gfin, startIdx);
      } else {
        NoConstraintPooled(c, g, n, rows, starts, cfin, gfin);
      }
    } else if !separated {
      PooledAnswers(st, rows, starts, visited, cfin, gfin, startIdx);
    } else {
      SepAnswers(st, rows, starts, copies.value, visited, cfin, gfin, startIdx);
    }
  }

  /** Two answer functions that agree on every entry gather the same answers. */
  lemma GatheredSame(cells: set<Cell>, f: Cell -> Result<set<Answer>>, g: Cell -> Result<set<Answer>>)
    requires forall e | e in cells :: f(e) == g(e)
    ensures Gathered(cells, f) == Gathered(cells, g)
  {
  }

  /**
   * When both automata number their states 0, 1, ..., n - 1, the csr
   * answer loop over entries inside the direct sum returns what the
   * `project/re` copy returns.
   */
  lemma LookupOutcome(cells: set<Cell>, r: Result<set<Answer>>, k: nat, n: nat,
                      cStates: seq<State>, cIndex: map<State, nat>, cFinal: set<State>,
                      gStates: seq<State>, gIndex: map<State, nat>, gFinal: set<State>,
                      separated: bool, startIdx: seq<nat>)
    requires Distinct(cStates) && cIndex == IndexMap(cStates) && |cStates| == k
    requires forall i | 0 <= i < |cStates| :: cStates[i] == i
    requires Distinct(gStates) && gIndex == IndexMap(gStates) && |gStates| == n
    requires forall i | 0 <= i < |gStates| :: gStates[i] == i
    requires forall e | e in cells :: e.1 < k + n
    requires var entry := LookupEntries(k, n, cIndex, cFinal, gIndex, gFinal, separated, startIdx);
             && (r.Success? <==> forall e | e in cells :: entry(e).Success?)
             && (r.Success? ==> r.value == Gathered(cells, entry))
             && (r.Failure? ==> exists e | e in cells :: entry(e) == Failure(r.error))
    ensures r == ByIndex(cells, k, n, IndexSetOf(cStates, cFinal), IndexSetOf(gStates, gFinal), separated, startIdx)
  {
    var cfin, gfin := IndexSetOf(cStates, cFinal), IndexSetOf(gStates, gFinal);
    var entry := LookupEntries(k, n, cIndex, cFinal, gIndex, gFinal, separated, startIdx);
    var byIndex := IndexEntries(k, n, cfin, gfin, separated, startIdx);
    forall e | e in cells
      ensures entry(e) == byIndex(e)
    {
      LookupAgrees(e, k, n, cStates, cIndex, cFinal, gStates, gIndex, gFinal, separated, startIdx);
    }
    CollectedSame(cells, r, entry, k, n, cfin, gfin, separated, startIdx);
  }

  /** Any answer loop whose entries agree with the index-list ones returns `ByIndex`. */
  lemma CollectedSame(cells: set<Cell>, r: Result<set<Answer>>, entry: Cell -> Result<set<Answer>>,
                      k: nat, block: nat, cfin: set<nat>, gfin: set<nat>, separated: bool, startIdx: seq<nat>)
    requires forall e | e in cells :: entry(e) == IndexEntries(k, block, cfin, gfin, separated, startIdx)(e)
    requires r.Success? <==> forall e | e in cells :: entry(e).Success?
    requires r.Success? ==> r.value == Gathered(cells, entry)
    requires r.Failure? ==> exists e | e in cells :: entry(e) == Failure(r.error)
    ensures r == ByIndex(cells, k, block, cfin, gfin, separated, startIdx)
  {
    var byIndex := IndexEntries(k, block, cfin, gfin, separated, startIdx);
    if r.Failure? {
      var e :| e in cells && entry(e) == Failure(r.error);
      ByIndexFailure(e, k, block, cfin, gfin, separated, startIdx);
    } else {
      GatheredSame(cells, entry, byIndex);
    }
  }

  /**
   * When states are the numbers 0, 1, ..., n - 1 in order, looking an
   * index up as a state gives the index back, so the csr read-off of an
   * entry inside the matrix equals the one by index lists.
   */
  lemma LookupAgrees(e: Cell, k: nat, n: nat, cStates: seq<State>, cIndex: map<State, nat>, cFinal: set<State>,
                     gStates: seq<State>, gIndex: map<State, nat>, gFinal: set<State>,
                     separated: bool, startIdx: seq<nat>)
    requires Distinct(cStates) && cIndex == IndexMap(cStates) && |cStates| == k
    requires forall i | 0 <= i < |cStates| :: cStates[i] == i
    requires Distinct(gStates) && gIndex == IndexMap(gStates) && |gStates| == n
    requires forall i | 0 <= i < |gStates| :: gStates[i] == i
    requires e.1 < k + n
    ensures EntryByLookup(e, k, n, cIndex, cFinal, gIndex, gFinal, separated, startIdx)
         == EntryByIndex(e, k, n, IndexSetOf(cStates, cFinal), IndexSetOf(gStates, gFinal), separated, startIdx)
  {
    if e.1 >= k && k > 0 {
      var q, v := e.0 % k, e.1 - k;
      assert cIndex[cStates[q]] == q && cStates[q] == q;
      assert gIndex[gStates[v]] == v && gStates[v] == v;
    }
  }

  /** Row i of m with its columns from k on replaced by the bits `bits` (`front[i, k:] = row`). */
  function WriteRight(m: Matrix, i: nat, k: nat, bits: set<nat>): (r: Matrix)
    requires m.Valid() && i < m.rows && forall u | u in bits :: k + u < m.cols
    ensures r.Valid() && r.rows == m.rows && r.cols == m.cols
    ensures forall c :: c in r.cells <==> if c.0 == i && c.1 >= k then c.1 - k in bits else c in m.cells
  {
    Matrix(m.rows, m.cols, (set c | c in m.cells && !(c.0 == i && c.1 >= k)) + (set u | u in bits :: (i, k + u)))
  }

  /**
   * The loop of `_construct_front` over the constraint states in `keys`:
   * row i = index of the state gets its own bit (i, i) and, from column k
   * on, the start bits of the graph.
   */
  method ConstructFrontRows(graph: BooleanDecomposition, constraint: BooleanDecomposition, keys: set<State>)
    returns (front: Matrix)
    requires graph.Valid() && constraint.Valid() && |graph.states| == graph.numOfStates
    requires keys <= constraint.indexedStates.Keys
    ensures front == FrontOf(constraint.numOfStates, graph.numOfStates, IndexSet(constraint.indexedStates, keys),
                             IndexSetOf(graph.states, graph.startStates))
  {
    var n, k := graph.numOfStates, constraint.numOfStates;
    var index := constraint.indexedStates;
    front := Zero(k, n + k);
    var right := IndexSetOf(graph.states, graph.startStates);
    var todo := keys;
    ghost var rows: set<nat> := {};
    while todo != {}
      invariant todo <= keys
      invariant rows == IndexSet(index, keys - todo)
      invariant front.Valid() && front.rows == k && front.cols == k + n
      invariant forall c :: c in front.cells <==> FrontCell(k, rows, right, c)
      decreases todo
    {
      var s :| s in todo;
      var i := index[s];
      front := SetEntry(front, i, i);
      front := WriteRight(front, i, k, right);
      rows := rows + {i};
      assert IndexSet(index, keys - (todo - {s})) == IndexSet(index, keys - todo) + {i};
      todo := todo - {s};
    }
    assert keys - todo == keys;
    assert front == FrontOf(k, n, rows, right);
  }

  /** `_construct_front`: every constraint state's row is seeded. */
  method ConstructFront(graph: BooleanDecomposition, constraint: BooleanDecomposition) returns (front: Matrix)
    requires graph.Valid() && constraint.Valid() && |graph.states| == graph.numOfStates
    ensures front == FrontOf(constraint.numOfStates, graph.numOfStates, constraint.indexedStates.Values,
                             IndexSetOf(graph.states, graph.startStates))
  {
    front := ConstructFrontRows(graph, constraint, constraint.indexedStates.Keys);
    assert IndexSet(constraint.indexedStates, constraint.indexedStates.Keys) == constraint.indexedStates.Values;
  }

  /** The numbers i < n whose index, looked up with i as a state, is itself a start state. */
  function StartIndexes(index: map<State, nat>, start: set<State>, n: nat): set<nat> {
    set i: nat | i < n && i in index && index[i] in start
  }

  /**
   * The count of fronts `_construct_sep_front` stacks: looking up every
   * i < n as a state raises a KeyError when some i is not one.
   */
  function SepCopies(index: map<State, nat>, start: set<State>, n: nat): (r: Result<nat>)
    ensures r.Failure? <==> exists i: nat :: i < n && i !in index
    ensures r.Failure? ==> r.error == KeyError
    ensures r.Success? ==> r.value == |StartIndexes(index, start, n)|
  {
    if exists i: nat :: i < n && i !in index then Failure(KeyError)
    else Success(|StartIndexes(index, start, n)|)
  }

  /**
   * `_construct_sep_front`: one copy of the pooled front per element of
   * the start index set, stacked, or an all-false k x (k + n) matrix when
   * that set is empty.
   */
  method ConstructSepFront(graph: BooleanDecomposition, constraint: BooleanDecomposition) returns (r: Result<Matrix>)
    requires graph.Valid() && constraint.Valid() && |graph.states| == graph.numOfStates
    ensures var copies := SepCopies(graph.indexedStates, graph.startStates, graph.numOfStates);
            r == if copies.Failure? then Failure(copies.error)
                 else if copies.value == 0 then Success(Zero(constraint.numOfStates, constraint.numOfStates + graph.numOfStates))
                 else Success(SepFront(constraint.numOfStates, graph.numOfStates, constraint.indexedStates.Values,
                                       IndexSetOf(graph.states, graph.startStates), copies.value))
  {
    var copies := SepCopies(graph.indexedStates, graph.startStates, graph.numOfStates);
    if copies.Failure? {
      return Failure(copies.error);
    }
    if copies.value == 0 {
      return Success(Zero(constraint.numOfStates, constraint.numOfStates + graph.numOfStates));
    }
    var one := ConstructFront(graph, constraint);
    r := Success(Stack(one, copies.value));
  }

  /** The loop over the common symbols of `intersection`: one Kronecker product each. */
  method KronMatrices(a: Family, n: nat, b: Family, m: nat) returns (p: Family)
    requires Square(a, n) && Square(b, m)
    ensures p == KronFamily(a, n, b, m)
  {
    var common := a.Keys * b.Keys;
    p := map[];
    var todo := common;
    while todo != {}
      invariant todo <= common && p.Keys == common - todo
      invariant forall s | s in p :: p[s] == Kron(a[s], b[s])
      decreases todo
    {
      var s :| s in todo;
      p := p[s := Kron(a[s], b[s])];
      todo := todo - {s};
    }
  }

  /** The loop over the common symbols of `_direct_matrix_sum`: one block-diagonal matrix each. */
  method BlockMatrices(a: Family, n: nat, b: Family, m: nat) returns (d: Family)
    requires Square(a, n) && Square(b, m)
    ensures d == DirectSumFamily(a, n, b, m)
  {
    var common := a.Keys * b.Keys;
    d := map[];
    var todo := common;
    while todo != {}
      invariant todo <= common && d.Keys == common - todo
      invariant forall s | s in d :: d[s] == BlockDiag(a[s], b[s])
      decreases todo
    {
      var s :| s in todo;
      d := d[s := BlockDiag(a[s], b[s])];
      todo := todo - {s};
    }
  }

  /** `states.union({s + k for s in other})`, listed: the first states, then each new shifted one. */
  method UnionShifted(states: seq<State>, other: seq<State>, k: nat) returns (all: seq<State>)
    ensures Elements(all) == Elements(states) + Shift(Elements(other), k)
  {
    all := states;
    var i := 0;
    while i < |other|
      invariant 0 <= i <= |other|
      invariant Elements(all) == Elements(states) + Shift(Elements(other[..i]), k)
    {
      ElementsAppend(all, other[i] + k);
      ElementsAppend(other[..i], other[i]);
      ShiftAdd(Elements(other[..i]), other[i], k);
      if other[i] + k !in all {
        all := all + [other[i] + k];
      }
      assert other[..i + 1] == other[..i] + [other[i]];
      i := i + 1;
    }
    assert other[..i] == other;
  }

  lemma ElementsAppend(s: seq<State>, x: State)
    ensures Elements(s + [x]) == Elements(s) + {x}
  {
  }

  lemma ShiftAdd(a: set<State>, x: State, k: nat)
    ensures Shift(a + {x}, k) == Shift(a, k) + {x + k}
  {
  }

  /**
   * The pairing loop of `intersection`: for every key l of the left map and
   * r of the right map, the state left[l] * m + right[r] is numbered by
   * itself, and is a start (final) state when both components are.
   */
  method PairStates(left: map<State, nat>, ls: set<State>, lf: set<State>,
                    right: map<State, nat>, rs: set<State>, rf: set<State>, m: nat)
    returns (index: map<State, nat>, start: set<State>, final: set<State>)
    ensures index == Identity(ProductStates(left, left.Keys, right, right.Keys, m))
    ensures start == ProductStates(left, ls, right, rs, m)
    ensures final == ProductStates(left, lf, right, rf, m)
  {
    index, start, final := map[], {}, {};
    ghost var keys: set<nat> := {};
    var lkeys := left.Keys;
    ghost var ldone: set<State> := {};
    while lkeys != {}
      invariant lkeys + ldone == left.Keys && lkeys !! ldone
      invariant index == Identity(keys)
      invariant keys == ProductPart(left, left.Keys, right, right.Keys, m, ldone, right.Keys)
      invariant start == ProductPart(left, ls, right, rs, m, ldone, right.Keys)
      invariant final == ProductPart(left, lf, right, rf, m, ldone, right.Keys)
      decreases lkeys
    {
      var l :| l in lkeys;
      index, start, final := PairRow(left, ls, lf, right, rs, rf, m, l, index, keys, start, final);
      keys := keys + RowPart(left, left.Keys, right, right.Keys, m, l, right.Keys);
      ProductPartRow(left, left.Keys, right, right.Keys, m, ldone, l);
      ProductPartRow(left, ls, right, rs, m, ldone, l);
      ProductPartRow(left, lf, right, rf, m, ldone, l);
      lkeys, ldone := lkeys - {l}, ldone + {l};
    }
  }

  /** The inner loop of `PairStates`: left key l against every right key. */
  method PairRow(left: map<State, nat>, ls: set<State>, lf: set<State>,
                 right: map<State, nat>, rs: set<State>, rf: set<State>, m: nat, l: State,
                 index0: map<State, nat>, ghost keys0: set<nat>, start0: set<State>, final0: set<State>)
    returns (index: map<State, nat>, start: set<State>, final: set<State>)
    requires l in left && index0 == Identity(keys0)
    ensures index == Identity(keys0 + RowPart(left, left.Keys, right, right.Keys, m, l, right.Keys))
    ensures start == start0 + RowPart(left, ls, right, rs, m, l, right.Keys)
    ensures final == final0 + RowPart(left, lf, right, rf, m, l, right.Keys)
  {
    index, start, final := index0, start0, final0;
    ghost var keys := keys0;
    var rkeys := right.Keys;
    ghost var rdone: set<State> := {};
    while rkeys != {}
      invariant rkeys + rdone == right.Keys && rkeys !! rdone
      invariant index == Identity(keys)
      invariant keys == keys0 + RowPart(left, left.Keys, right, right.Keys, m, l, rdone)
      invariant start == start0 + RowPart(left, ls, right, rs, m, l, rdone)
      invariant final == final0 + RowPart(left, lf, right, rf, m, l, rdone)
      decreases rkeys
    {
      var r :| r in rkeys;
      var state := Pair(left[l], right[r], m);
      RowPartAdd(left, left.Keys, right, right.Keys, m, l, rdone, r);
      RowPartAdd(left, ls, right, rs, m, l, rdone, r);
      RowPartAdd(left, lf, right, rf, m, l, rdone, r);
      IdentityAdd(keys, state);
      index := index[state := state];
      keys := keys + {state};
      if l in ls && r in rs {
        start := start + {state};
      }
      if l in lf && r in rf {
        final := final + {state};
      }
      rkeys, rdone := rkeys - {r}, rdone + {r};
    }
  }

  /** The pairs of left key l with the right keys in `rk`. */
  function RowPart(left: map<State, nat>, ls: set<State>, right: map<State, nat>, rs: set<State>, m: nat,
                   l: State, rk: set<State>): set<nat>
  {
    set r | r in rk && r in right && l in left && l in ls && r in rs :: Pair(left[l], right[r], m)
  }

  lemma RowPartAdd(left: map<State, nat>, ls: set<State>, right: map<State, nat>, rs: set<State>, m: nat,
                   l: State, rdone: set<State>, r: State)
    requires l in left && r in right
    ensures RowPart(left, ls, right, rs, m, l, rdone + {r})
         == RowPart(left, ls, right, rs, m, l, rdone) + (if l in ls && r in rs then {Pair(left[l], right[r], m)} else {})
  {
  }

  /** The finished rows plus the row of l are the rows of `ldone + {l}`. */
  lemma ProductPartRow(left: map<State, nat>, ls: set<State>, right: map<State, nat>, rs: set<State>, m: nat,
                       ldone: set<State>, l: State)
    ensures ProductPart(left, ls, right, rs, m, ldone + {l}, right.Keys)
         == ProductPart(left, ls, right, rs, m, ldone, right.Keys) + RowPart(left, ls, right, rs, m, l, right.Keys)
  {
  }

  lemma IdentityAdd(keys: set<nat>, x: nat)
    ensures Identity(keys + {x}) == Identity(keys)[x := x]
  {
  }

  /** Every product state is below n * m when the indices are below n and m. */
  lemma ProductStatesBound(left: map<State, nat>, ls: set<State>, n: nat, right: map<State, nat>, rs: set<State>, m: nat)
    requires forall l | l in left :: left[l] < n
    requires forall r | r in right :: right[r] < m
    ensures forall x | x in ProductStates(left, ls, right, rs, m) :: x < n * m
  {
    forall x | x in ProductStates(left, ls, right, rs, m)
      ensures x < n * m
    {
      var l, r :| l in left && r in right && l in ls && r in rs && x == Pair(left[l], right[r], m);
      PairBound(left[l], right[r], n, m);
    }
  }

  /** Relabelling one more index transition adds its relabelled copy when both endpoints are numbered. */
  lemma RelabelAdd(done: set<Transition>, t: Transition, states: seq<State>)
    ensures Relabel(done + {t}, states) == Relabel(done, states)
      + (if t.from < |states| && t.to < |states| then {Transition(states[t.from], t.symbol, states[t.to])} else {})
  {
  }

  /** Adding one transition sets one entry of its symbol's matrix, creating the matrix if needed. */
  lemma TransitionFamilyAdd(done: set<Transition>, t: Transition, index: map<State, nat>, n: nat)
    requires t.from in index && t.to in index
    requires forall u | u in done :: u.from in index && u.to in index
    requires forall s | s in index :: index[s] < n
    ensures var f := TransitionFamily(done, index, n);
            TransitionFamily(done + {t}, index, n)
            == f[t.symbol := SetEntry(if t.symbol in f then f[t.symbol] else Zero(n, n), index[t.from], index[t.to])]
  {
    var f := TransitionFamily(done, index, n);
    var g := TransitionFamily(done + {t}, index, n);
    var h := f[t.symbol := SetEntry(if t.symbol in f then f[t.symbol] else Zero(n, n), index[t.from], index[t.to])];
    LabelsAdd(done, t);
    forall s | s in g
      ensures g[s] == h[s]
    {
      LabelEntriesAdd(done, t, index, s);
    }
  }

  lemma LabelsAdd(done: set<Transition>, t: Transition)
    ensures Labels(done + {t}) == Labels(done) + {t.symbol}
  {
  }

  lemma LabelEntriesAdd(done: set<Transition>, t: Transition, index: map<State, nat>, s: Symbol)
    requires forall u | u in done + {t} :: u.from in index && u.to in index
    ensures LabelEntries(done + {t}, index, s)
         == LabelEntries(done, index, s) + (if s == t.symbol then {(index[t.from], index[t.to])} else {})
  {
  }
}
