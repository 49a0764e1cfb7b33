/// The early draft of the boolean decomposition
/// (`project/BooleanDecomposition.py`): a matrix for every symbol of the
/// automaton, filled from its transitions, and an intersection that
/// numbers each pair of states from the state values themselves rather
/// than from their indices.
module EarlyDecomposition {
  import opened Pairing
  import opened BoolMatrix
  import opened Walks
  import opened Automata
  import D = Decomposition
  import G = GrammarDecomposition

  /** Every key of the map numbered by its own value, as the draft pairs states. */
  function SelfNamed(m: map<State, nat>): (r: map<State, nat>)
    ensures r.Keys == m.Keys && forall s | s in r :: r[s] == s
  {
    map s | s in m :: s
  }

  /** The pair states the draft intersection makes: `left state * m + right state` over the marked keys. */
  function DraftPairs(left: map<State, nat>, ls: set<State>, right: map<State, nat>, rs: set<State>, m: nat): set<nat> {
    D.ProductStates(SelfNamed(left), ls, SelfNamed(right), rs, m)
  }

  /** A decomposition read as an automaton: a walk labelled w from the number of a start state to that of a final one. */
  ghost predicate Recognises(index: map<State, nat>, start: set<State>, final: set<State>, f: Family, w: seq<Symbol>) {
    exists p, q | p in start && q in final && p in index && q in index :: Walk(f, index[p], w, index[q])
  }

  class BooleanDecomposition {
    var states: seq<State>
    var startStates: set<State>
    var finalStates: set<State>
    var numOfStates: nat
    var indexedStates: map<State, nat>
    var booleanMatrices: Family

    /** The matrices are square over the states, and every state is numbered below their count. */
    ghost predicate Valid()
      reads this
    {
      && Square(booleanMatrices, numOfStates)
      && forall s | s in indexedStates :: indexedStates[s] < numOfStates
    }

    /** `BooleanDecomposition()`: no states and no matrices. */
    constructor Empty()
      ensures states == [] && startStates == {} && finalStates == {}
      ensures numOfStates == 0 && indexedStates == map[] && booleanMatrices == map[]
      ensures Valid()
    {
      states, startStates, finalStates := [], {}, {};
      numOfStates := 0;
      indexedStates := map[];
      booleanMatrices := map[];
    }

    /**
     * `BooleanDecomposition(automaton)`: the states numbered by their
     * enumeration, and a matrix for every symbol of the automaton.
     */
    constructor (a: Nfa, symbols: set<Symbol>)
      requires WellFormed(a) && Labels(a.transitions) <= symbols
      ensures states == a.states && startStates == a.startStates && finalStates == a.finalStates
      ensures numOfStates == |a.states| && indexedStates == IndexMap(a.states)
      ensures booleanMatrices == G.SymbolFamily(a, symbols)
      ensures Valid()
    {
      states := a.states;
      startStates := a.startStates;
      finalStates := a.finalStates;
      numOfStates := |a.states|;
      indexedStates := IndexMap(a.states);
      booleanMatrices := map[];
      new;
      booleanMatrices := GetBooleanMatrices(a, symbols);
    }

    /**
     * `get_boolean_matrices`: an all-false n x n matrix for every symbol,
     * then entry (index p, index q) of the matrix of s for every
     * transition p -s-> q.
     */
    method GetBooleanMatrices(a: Nfa, symbols: set<Symbol>) returns (matrices: Family)
      requires WellFormed(a) && Labels(a.transitions) <= symbols
      requires indexedStates == IndexMap(a.states) && numOfStates == |a.states|
      ensures matrices == G.SymbolFamily(a, symbols)
    {
      matrices := FillMatrices(a.transitions, indexedStates, numOfStates, symbols);
    }

    /**
     * `intersection` as written: the Kronecker product of the matrices of
     * the common symbols, and every pair of states (l, r) turned into the
     * state `l * m + r` computed from the state values, numbered by itself,
     * and a start (final) state when both components are.
     */
    method Intersection(other: BooleanDecomposition) returns (result: BooleanDecomposition)
      requires Valid() && other.Valid()
      ensures fresh(result)
      ensures result.states == [] && result.numOfStates == numOfStates * other.numOfStates
      ensures result.booleanMatrices == KronFamily(booleanMatrices, numOfStates, other.booleanMatrices, other.numOfStates)
      ensures result.indexedStates
           == D.Identity(DraftPairs(indexedStates, indexedStates.Keys, other.indexedStates, other.indexedStates.Keys, other.numOfStates))
      ensures result.startStates
           == DraftPairs(indexedStates, startStates, other.indexedStates, other.startStates, other.numOfStates)
      ensures result.finalStates
           == DraftPairs(indexedStates, finalStates, other.indexedStates, other.finalStates, other.numOfStates)
    {
      var matrices := D.KronMatrices(booleanMatrices, numOfStates, other.booleanMatrices, other.numOfStates);
      var left, right := SelfNamed(indexedStates), SelfNamed(other.indexedStates);
      var index, start, final := D.PairStates(left, startStates, finalStates,
                                              right, other.startStates, other.finalStates, other.numOfStates);
      result := new BooleanDecomposition.Empty();
      result.booleanMatrices := matrices;
      result.numOfStates := numOfStates * other.numOfStates;
      result.indexedStates, result.startStates, result.finalStates := index, start, final;
    }
  }

  /**
   * The loops of `get_boolean_matrices`: every symbol starts with an
   * all-false matrix, and each transition sets one entry of its symbol's
   * matrix.
   */
  method FillMatrices(trans: set<Transition>, index: map<State, nat>, n: nat, symbols: set<Symbol>)
    returns (matrices: Family)
    requires forall t | t in trans :: t.from in index && t.to in index && t.symbol in symbols
    requires forall s | s in index :: index[s] < n
    ensures matrices.Keys == symbols
    ensures forall s | s in matrices :: matrices[s] == Matrix(n, n, LabelEntries(trans, index, s))
  {
    matrices := map s | s in symbols :: Zero(n, n);
    var todo := trans;
    ghost var done: set<Transition> := {};
    while todo != {}
      invariant todo <= trans && done <= trans
      invariant forall u | u in trans :: u in done || u in todo
      invariant matrices.Keys == symbols
      invariant forall s | s in matrices :: matrices[s] == Matrix(n, n, LabelEntries(done, index, s))
      decreases todo
    {
      var t :| t in todo;
      var from, to := index[t.from], index[t.to];
      forall s | s in symbols
        ensures LabelEntries(done + {t}, index, s)
             == LabelEntries(done, index, s) + (if s == t.symbol then {(from, to)} else {})
      {
        D.LabelEntriesAdd(done, t, index, s);
      }
      matrices := matrices[t.symbol := SetEntry(matrices[t.symbol], from, to)];
      done, todo := done + {t}, todo - {t};
    }
    assert done == trans;
  }

  /** The one-state automaton x -a-> x with x start and final. */
  function OneLoop(x: State): Nfa {
    Nfa([x], {x}, {x}, {Transition(x, "a", x)})
  }

  /**
   * The draft's pairing loses words: the one-state automata 5 -a-> 5 and
   * 0 -a-> 0 both accept "a"; their product has one state, yet the draft
   * numbers the pair 5 * 1 + 0 = 5, outside the 1 x 1 matrices, so the
   * product recognises nothing.
   */
  lemma DraftLosesWords()
    ensures WellFormed(OneLoop(5)) && WellFormed(OneLoop(0))
    ensures NfaAccepts(OneLoop(5), ["a"]) && NfaAccepts(OneLoop(0), ["a"])
    ensures IndexMap(OneLoop(5).states) == map[5 := 0] && IndexMap(OneLoop(0).states) == map[0 := 0]
    ensures DraftPairs(map[5 := 0], {5}, map[0 := 0], {0}, 1) == {5}
    ensures var f := KronFamily(G.SymbolFamily(OneLoop(5), {"a"}), 1, G.SymbolFamily(OneLoop(0), {"a"}), 1);
            !Recognises(D.Identity({5}), {5}, {5}, f, ["a"])
  {
    OneLoopAccepts(5);
    OneLoopAccepts(0);
    SinglePair();
    var f := KronFamily(G.SymbolFamily(OneLoop(5), {"a"}), 1, G.SymbolFamily(OneLoop(0), {"a"}), 1);
    NoWalkOutside(f, 1, 5, ["a"], 5);
  }

  lemma OneLoopAccepts(x: State)
    ensures WellFormed(OneLoop(x)) && NfaAccepts(OneLoop(x), ["a"])
    ensures IndexMap(OneLoop(x).states) == map[x := 0]
  {
    var w: seq<Symbol> := ["a"];
    assert Path(OneLoop(x).transitions, x, w[1..], x);
    PathCons(OneLoop(x).transitions, x, w, x, x);
  }

  /** The draft pairs the single states 5 and 0 into the state 5 * 1 + 0 = 5. */
  lemma SinglePair()
    ensures DraftPairs(map[5 := 0], {5}, map[0 := 0], {0}, 1) == {5}
  {
    var left, right := SelfNamed(map[5 := 0]), SelfNamed(map[0 := 0]);
    assert left == map[5 := 5] && right == map[0 := 0];
    assert Pair(left[5], right[0], 1) == 5;
  }

  /** No walk of a family of n x n matrices leaves a number at or beyond n. */
  lemma NoWalkOutside(f: Family, n: nat, i: nat, w: seq<Symbol>, j: nat)
    requires Square(f, n) && i >= n && |w| > 0
    ensures !Walk(f, i, w, j)
  {
  }
}
