/// Finite automata as the decompositions receive them: states in the order
/// in which the automaton enumerates them, start and final sets, and
/// labelled transitions. A word is accepted when it labels a path from a
/// start state to a final state; epsilon is an ordinary symbol here, as it
/// is for the matrices built from the transitions.
module Automata {
  import opened BoolMatrix
  import opened Walks

  type State = nat

  datatype Transition = Transition(from: State, symbol: Symbol, to: State)

  /**
   * An automaton handed to a decomposition. `states` lists the state set in
   * its enumeration order, so position i is the index the state receives.
   */
  datatype Nfa = Nfa(states: seq<State>, startStates: set<State>, finalStates: set<State>,
                     transitions: set<Transition>)

  /** The result of converting matrices back: transitions plus start and final sets. */
  datatype Automaton = Automaton(transitions: set<Transition>, startStates: set<State>,
                                 finalStates: set<State>)

  predicate Distinct(s: seq<State>) {
    forall i, j | 0 <= i < j < |s| :: s[i] != s[j]
  }

  /** What the automaton library guarantees: every state it mentions is one of its states. */
  predicate WellFormed(a: Nfa) {
    && Distinct(a.states)
    && (forall t | t in a.transitions :: t.from in a.states && t.to in a.states)
    && (forall s | s in a.startStates :: s in a.states)
    && (forall s | s in a.finalStates :: s in a.states)
  }

  /** The index of every state by enumeration. */
  function IndexMap(states: seq<State>): (m: map<State, nat>)
    requires Distinct(states)
    ensures m.Keys == set s | s in states
    ensures forall i | 0 <= i < |states| :: m[states[i]] == i
    ensures forall s | s in m :: m[s] < |states| && states[m[s]] == s
  {
    map i | 0 <= i < |states| :: states[i] := i
  }

  /** The word w labels a path from p to q. */
  ghost predicate Path(trans: set<Transition>, p: State, w: seq<Symbol>, q: State)
    decreases |w|
  {
    if |w| == 0 then p == q
    else exists r: State :: Transition(p, w[0], r) in trans && Path(trans, r, w[1..], q)
  }

  ghost predicate Accepts(trans: set<Transition>, start: set<State>, final: set<State>, w: seq<Symbol>) {
    exists p, q :: p in start && q in final && Path(trans, p, w, q)
  }

  /** A start state, a final state and a path between them labelled by w witness acceptance. */
  lemma AcceptsIntro(trans: set<Transition>, start: set<State>, final: set<State>, w: seq<Symbol>, p: State, q: State)
    requires p in start && q in final && Path(trans, p, w, q)
    ensures Accepts(trans, start, final, w)
  {
  }

  /** No transition carries s, so no word starting with s labels a path. */
  lemma NoSymbolPath(trans: set<Transition>, s: Symbol, p: State, w: seq<Symbol>, q: State)
    requires |w| > 0 && w[0] == s && forall x | x in trans :: x.symbol != s
    ensures !Path(trans, p, w, q)
  {
  }

  ghost predicate NfaAccepts(a: Nfa, w: seq<Symbol>) {
    Accepts(a.transitions, a.startStates, a.finalStates, w)
  }

  ghost predicate AutomatonAccepts(a: Automaton, w: seq<Symbol>) {
    Accepts(a.transitions, a.startStates, a.finalStates, w)
  }

  lemma PathCons(trans: set<Transition>, p: State, w: seq<Symbol>, r: State, q: State)
    requires |w| > 0 && Transition(p, w[0], r) in trans && Path(trans, r, w[1..], q)
    ensures Path(trans, p, w, q)
  {
  }

  /** One matrix per symbol: entry (index of p, index of q) for each transition p -s-> q. */
  function TransitionFamily(trans: set<Transition>, index: map<State, nat>, n: nat): (f: Family)
    requires forall t | t in trans :: t.from in index && t.to in index
    requires forall s | s in index :: index[s] < n
    ensures Square(f, n)
    ensures f.Keys == Labels(trans)
  {
    map s | s in Labels(trans) :: Matrix(n, n, LabelEntries(trans, index, s))
  }

  function Labels(trans: set<Transition>): set<Symbol> {
    set t | t in trans :: t.symbol
  }

  /** The index pairs of the transitions labelled s. */
  function LabelEntries(trans: set<Transition>, index: map<State, nat>, s: Symbol): set<Cell>
    requires forall t | t in trans :: t.from in index && t.to in index
  {
    set t | t in trans && t.symbol == s :: (index[t.from], index[t.to])
  }

  /** The transitions read back from a family: one per true entry, labelled by its symbol. */
  function EntryTransitions(f: Family): (trans: set<Transition>)
    ensures forall t :: t in trans <==> t.symbol in f && (t.from, t.to) in f[t.symbol].cells
  {
    set s, c | s in f && c in f[s].cells :: Transition(c.0, s, c.1)
  }

  /** Paths over the entries of a family are exactly its walks. */
  lemma {:induction false} EntryPathIsWalk(f: Family, i: nat, w: seq<Symbol>, j: nat)
    ensures Path(EntryTransitions(f), i, w, j) <==> Walk(f, i, w, j)
    decreases |w|
  {
    if |w| > 0 {
      var trans := EntryTransitions(f);
      if Path(trans, i, w, j) {
        var r: State :| Transition(i, w[0], r) in trans && Path(trans, r, w[1..], j);
        EntryPathIsWalk(f, r, w[1..], j);
        WalkCons(f, i, w, r, j);
      }
      if Walk(f, i, w, j) {
        var k: nat :| (i, k) in f[w[0]].cells && Walk(f, k, w[1..], j);
        EntryPathIsWalk(f, k, w[1..], j);
        PathCons(trans, i, w, k, j);
      }
    }
  }

  /** An entry of the family's matrix comes from a transition with that label. */
  lemma {:induction false} PathFromWalk(a: Nfa, f: Family, p: State, w: seq<Symbol>, q: State)
    requires WellFormed(a) && p in a.states && q in a.states
    requires f == TransitionFamily(a.transitions, IndexMap(a.states), |a.states|)
    requires Walk(f, IndexMap(a.states)[p], w, IndexMap(a.states)[q])
    ensures Path(a.transitions, p, w, q)
    decreases |w|
  {
    var index := IndexMap(a.states);
    if |w| == 0 {
      assert a.states[index[p]] == p && a.states[index[q]] == q;
    } else {
      var k: nat :| (index[p], k) in f[w[0]].cells && Walk(f, k, w[1..], index[q]);
      assert (index[p], k) in LabelEntries(a.transitions, index, w[0]);
      var t :| t in a.transitions && t.symbol == w[0] && (index[p], k) == (index[t.from], index[t.to]);
      assert a.states[index[t.from]] == t.from && a.states[index[p]] == p;
      PathFromWalk(a, f, t.to, w[1..], q);
      PathCons(a.transitions, p, w, t.to, q);
    }
  }

  lemma {:induction false} WalkFromPath(a: Nfa, f: Family, p: State, w: seq<Symbol>, q: State)
    requires WellFormed(a) && p in a.states && q in a.states
    requires f == TransitionFamily(a.transitions, IndexMap(a.states), |a.states|)
    requires Path(a.transitions, p, w, q)
    ensures Walk(f, IndexMap(a.states)[p], w, IndexMap(a.states)[q])
    decreases |w|
  {
    var index := IndexMap(a.states);
    if |w| > 0 {
      var r: State :| Transition(p, w[0], r) in a.transitions && Path(a.transitions, r, w[1..], q);
      var t := Transition(p, w[0], r);
      assert w[0] in Labels(a.transitions);
      assert (index[t.from], index[t.to]) in LabelEntries(a.transitions, index, w[0]);
      WalkFromPath(a, f, r, w[1..], q);
      WalkCons(f, index[p], w, index[r], index[q]);
    }
  }

  /**
   * Numbering states by enumeration turns paths into walks: a word labels a
   * path from p to q exactly when it labels a walk between their indices.
   */
  lemma TransitionWalks(a: Nfa, p: State, w: seq<Symbol>, q: State)
    requires WellFormed(a) && p in a.states && q in a.states
    ensures Walk(TransitionFamily(a.transitions, IndexMap(a.states), |a.states|),
                 IndexMap(a.states)[p], w, IndexMap(a.states)[q])
        <==> Path(a.transitions, p, w, q)
  {
    var f := TransitionFamily(a.transitions, IndexMap(a.states), |a.states|);
    if Walk(f, IndexMap(a.states)[p], w, IndexMap(a.states)[q]) {
      PathFromWalk(a, f, p, w, q);
    }
    if Path(a.transitions, p, w, q) {
      WalkFromPath(a, f, p, w, q);
    }
  }
}
