/// What the decomposition's matrices mean as an automaton: reading the
/// true entries back gives the transitions again (relabelled by state, or
/// as they are when states are numbered 0, 1, ..., n - 1), and the
/// Kronecker-product intersection accepts a word exactly when both
/// automata accept it. The sample automata of the test suite are
/// worked through at the end.
module Conversions {
  import opened Pairing
  import opened BoolMatrix
  import opened Walks
  import opened Automata
  import opened Decomposition

  /** The matrices `_get_boolean_matrices` builds for an automaton. */
  function MatricesOf(a: Nfa): (f: Family)
    requires WellFormed(a)
    ensures Square(f, |a.states|)
  {
    TransitionFamily(a.transitions, IndexMap(a.states), |a.states|)
  }

  /** States numbered 0, 1, ..., n - 1 in enumeration order. */
  predicate Numbered(a: Nfa) {
    forall i | 0 <= i < |a.states| :: a.states[i] == i
  }

  /** The matrix entry of a transition: its label holds the pair of indices of its endpoints. */
  lemma EntryOfTransition(a: Nfa, t: Transition)
    requires WellFormed(a) && t in a.transitions
    ensures var index := IndexMap(a.states);
            Transition(index[t.from], t.symbol, index[t.to]) in EntryTransitions(MatricesOf(a))
  {
    assert t.symbol in Labels(a.transitions);
  }

  /** Every entry of the matrices comes from a transition with that label and those endpoint indices. */
  lemma TransitionOfEntry(a: Nfa, u: Transition) returns (t: Transition)
    requires WellFormed(a) && u in EntryTransitions(MatricesOf(a))
    ensures t in a.transitions && t.symbol == u.symbol
    ensures var index := IndexMap(a.states); u.from == index[t.from] && u.to == index[t.to]
  {
    var index := IndexMap(a.states);
    assert (u.from, u.to) in LabelEntries(a.transitions, index, u.symbol);
    t :| t in a.transitions && t.symbol == u.symbol && (u.from, u.to) == (index[t.from], index[t.to]);
  }

  /**
   * The matrix of a symbol exists exactly when some transition carries it,
   * and its entry for the indices of p and q is true exactly when the
   * automaton has the transition p -s-> q.
   */
  lemma MatrixEntry(a: Nfa, p: State, s: Symbol, q: State)
    requires WellFormed(a) && p in a.states && q in a.states
    ensures var f, index := MatricesOf(a), IndexMap(a.states);
            && (s in f <==> exists t | t in a.transitions :: t.symbol == s)
            && (s in f && (index[p], index[q]) in f[s].cells <==> Transition(p, s, q) in a.transitions)
  {
    var f, index := MatricesOf(a), IndexMap(a.states);
    if s in f && (index[p], index[q]) in f[s].cells {
      var v := TransitionOfEntry(a, Transition(index[p], s, index[q]));
      assert a.states[index[v.from]] == v.from && a.states[index[p]] == p;
      assert a.states[index[v.to]] == v.to && a.states[index[q]] == q;
    }
    if Transition(p, s, q) in a.transitions {
      EntryOfTransition(a, Transition(p, s, q));
    }
  }

  /**
   * Reading the matrices back and turning each index into the state it
   * numbers gives exactly the automaton's transitions: the corrected
   * `to_nfa` is the inverse of the construction.
   */
  lemma ByStateRoundTrip(a: Nfa)
    requires WellFormed(a)
    ensures StateTransitions(MatricesOf(a), a.states) == a.transitions
  {
    forall t | t in a.transitions
      ensures t in StateTransitions(MatricesOf(a), a.states)
    {
      ByStateKeeps(a, t);
    }
    forall t | t in StateTransitions(MatricesOf(a), a.states)
      ensures t in a.transitions
    {
      ByStateAdds(a, t);
    }
  }

  /** Each transition comes back from its entry. */
  lemma ByStateKeeps(a: Nfa, t: Transition)
    requires WellFormed(a) && t in a.transitions
    ensures t in StateTransitions(MatricesOf(a), a.states)
  {
    var index := IndexMap(a.states);
    EntryOfTransition(a, t);
    var u := Transition(index[t.from], t.symbol, index[t.to]);
    assert a.states[u.from] == t.from && a.states[u.to] == t.to;
    assert u in EntryTransitions(MatricesOf(a)) && u.from < |a.states| && u.to < |a.states|;
  }

  /** Each transition read back by state is a transition of the automaton. */
  lemma ByStateAdds(a: Nfa, t: Transition)
    requires WellFormed(a) && t in StateTransitions(MatricesOf(a), a.states)
    ensures t in a.transitions
  {
    var index := IndexMap(a.states);
    var u :| u in EntryTransitions(MatricesOf(a)) && u.from < |a.states| && u.to < |a.states|
      && t == Transition(a.states[u.from], u.symbol, a.states[u.to]);
    var v := TransitionOfEntry(a, u);
    assert a.states[index[v.from]] == v.from && a.states[index[v.to]] == v.to;
  }

  /**
   * When states are numbered 0, 1, ..., n - 1 in order, `to_nfa` as
   * written (index pairs taken for states) gives the transitions back.
   */
  lemma NumberedRoundTrip(a: Nfa)
    requires WellFormed(a) && Numbered(a)
    ensures EntryTransitions(MatricesOf(a)) == a.transitions
  {
    forall t | t in a.transitions
      ensures t in EntryTransitions(MatricesOf(a))
    {
      NumberedKeeps(a, t);
    }
    forall u | u in EntryTransitions(MatricesOf(a))
      ensures u in a.transitions
    {
      NumberedAdds(a, u);
    }
  }

  /** With states numbered by themselves, a transition is its own entry. */
  lemma NumberedKeeps(a: Nfa, t: Transition)
    requires WellFormed(a) && Numbered(a) && t in a.transitions
    ensures t in EntryTransitions(MatricesOf(a))
  {
    var index := IndexMap(a.states);
    EntryOfTransition(a, t);
    assert a.states[index[t.from]] == t.from && a.states[index[t.to]] == t.to;
  }

  /** With states numbered by themselves, an entry is a transition. */
  lemma NumberedAdds(a: Nfa, u: Transition)
    requires WellFormed(a) && Numbered(a) && u in EntryTransitions(MatricesOf(a))
    ensures u in a.transitions
  {
    var index := IndexMap(a.states);
    var v := TransitionOfEntry(a, u);
    assert a.states[index[v.from]] == v.from && a.states[index[v.to]] == v.to;
  }

  /**
   * `to_nfa` as written mixes two numberings: transitions between indices
   * but start and final sets of states. The one-state automaton 5 -a-> 5,
   * with 5 start and final, accepts "a"; its `to_nfa` has the transition
   * 0 -a-> 0 and start and final state 5, and accepts nothing non-empty.
   */
  lemma ToNfaLosesWords()
    ensures var a := Nfa([5], {5}, {5}, {Transition(5, "a", 5)});
            && WellFormed(a)
            && NfaAccepts(a, ["a"])
            && !AutomatonAccepts(Automaton(EntryTransitions(MatricesOf(a)), a.startStates, a.finalStates), ["a"])
  {
    var a := Nfa([5], {5}, {5}, {Transition(5, "a", 5)});
    var e: seq<Symbol> := [];
    assert Path(a.transitions, 5, e, 5);
    var w: seq<Symbol> := ["a"];
    assert w[1..] == e;
    PathCons(a.transitions, 5, w, 5, 5);
    AcceptsIntro(a.transitions, a.startStates, a.finalStates, w, 5, 5);
    IndexFiveLost(a);
  }

  /** The entries of the one-state automaton 5 -a-> 5 leave state 5 with nothing to read. */
  lemma IndexFiveLost(a: Nfa)
    requires a == Nfa([5], {5}, {5}, {Transition(5, "a", 5)})
    ensures !AutomatonAccepts(Automaton(EntryTransitions(MatricesOf(a)), a.startStates, a.finalStates), ["a"])
  {
    var entries := EntryTransitions(MatricesOf(a));
    forall r: State | Transition(5, "a", r) in entries
      ensures false
    {
      var v := TransitionOfEntry(a, Transition(5, "a", r));
    }
  }

  /** The first automaton of the test suite: 0 -a-> 1, 0 -b-> 1, 0 -a-> 2, 1 -b-> 1, start 0, final 1. */
  function SampleOne(): Nfa {
    Nfa([0, 1, 2], {0}, {1}, {Transition(0, "a", 1), Transition(0, "b", 1), Transition(0, "a", 2), Transition(1, "b", 1)})
  }

  /** The second automaton of the test suite: 0 -a-> 1 -b-> 2, start 0, final 2. */
  function SampleTwo(): Nfa {
    Nfa([0, 1, 2], {0}, {2}, {Transition(0, "a", 1), Transition(1, "b", 2)})
  }

  lemma SamplesWellFormed()
    ensures WellFormed(SampleOne()) && Numbered(SampleOne())
    ensures WellFormed(SampleTwo()) && Numbered(SampleTwo())
  {
  }

  /** The first sample accepts "a", "ab" and "abb" and rejects "c". */
  lemma SampleOneAccepts()
    ensures NfaAccepts(SampleOne(), ["a"])
    ensures NfaAccepts(SampleOne(), ["a", "b"])
    ensures NfaAccepts(SampleOne(), ["a", "b", "b"])
    ensures !NfaAccepts(SampleOne(), ["c"])
  {
    var t := SampleOne().transitions;
    SampleOnePaths();
    AcceptsIntro(t, {0}, {1}, ["a"], 0, 1);
    AcceptsIntro(t, {0}, {1}, ["a", "b"], 0, 1);
    AcceptsIntro(t, {0}, {1}, ["a", "b", "b"], 0, 1);
    SampleOneRejects();
  }

  /** Paths of the first sample from 0 to 1 labelled "a", "ab" and "abb". */
  lemma SampleOnePaths()
    ensures var t := SampleOne().transitions;
            Path(t, 0, ["a"], 1) && Path(t, 0, ["a", "b"], 1) && Path(t, 0, ["a", "b", "b"], 1)
  {
    var t := SampleOne().transitions;
    var e, b1, bb: seq<Symbol> := [], ["b"], ["b", "b"];
    var a1, ab, abb: seq<Symbol> := ["a"], ["a", "b"], ["a", "b", "b"];
    assert Path(t, 1, e, 1);
    assert b1[1..] == e && bb[1..] == b1 && a1[1..] == e && ab[1..] == b1 && abb[1..] == bb;
    PathCons(t, 1, b1, 1, 1);
    PathCons(t, 1, bb, 1, 1);
    PathCons(t, 0, a1, 1, 1);
    PathCons(t, 0, ab, 1, 1);
    PathCons(t, 0, abb, 1, 1);
  }

  /** No transition of the first sample reads "c", so it rejects "c". */
  lemma SampleOneRejects()
    ensures !NfaAccepts(SampleOne(), ["c"])
  {
    var t := SampleOne().transitions;
    var c: seq<Symbol> := ["c"];
    assert forall x | x in t :: x.symbol == "a" || x.symbol == "b";
    assert "a"[0] != "c"[0] && "b"[0] != "c"[0];
    forall p, q
      ensures !Path(t, p, c, q)
    {
      NoSymbolPath(t, "c", p, c, q);
    }
  }

  /** `to_nfa` of the first sample accepts "a", "ab" and "abb" and rejects "c". */
  lemma SampleOneToNfa()
    ensures WellFormed(SampleOne())
    ensures var a := SampleOne();
            var back := Automaton(EntryTransitions(MatricesOf(a)), a.startStates, a.finalStates);
            && AutomatonAccepts(back, ["a"])
            && AutomatonAccepts(back, ["a", "b"])
            && AutomatonAccepts(back, ["a", "b", "b"])
            && !AutomatonAccepts(back, ["c"])
  {
    SamplesWellFormed();
    NumberedRoundTrip(SampleOne());
    SampleOneAccepts();
  }

  /** The product index of two numbered states is a start (final) state exactly when both states are. */
  lemma ProductMember(a: Nfa, b: Nfa, sa: set<State>, sb: set<State>, l: State, r: State)
    requires WellFormed(a) && WellFormed(b) && l in a.states && r in b.states
    ensures var ia, ib := IndexMap(a.states), IndexMap(b.states);
            Pair(ia[l], ib[r], |b.states|) in ProductStates(ia, sa, ib, sb, |b.states|) <==> l in sa && r in sb
  {
    var ia, ib, m := IndexMap(a.states), IndexMap(b.states), |b.states|;
    if Pair(ia[l], ib[r], m) in ProductStates(ia, sa, ib, sb, m) {
      var l', r' :| l' in ia && r' in ib && l' in sa && r' in sb && Pair(ia[l], ib[r], m) == Pair(ia[l'], ib[r'], m);
      PairInjective(ia[l], ib[r], ia[l'], ib[r'], m);
      assert a.states[ia[l]] == l && a.states[ia[l']] == l';
      assert b.states[ib[r]] == r && b.states[ib[r']] == r';
    }
  }

  /** Every product state is the pair index of a state of each automaton lying in the given sets. */
  lemma ProductSplit(a: Nfa, b: Nfa, sa: set<State>, sb: set<State>, p: nat) returns (l: State, r: State)
    requires WellFormed(a) && WellFormed(b)
    requires p in ProductStates(IndexMap(a.states), sa, IndexMap(b.states), sb, |b.states|)
    ensures l in a.states && r in b.states && l in sa && r in sb
    ensures p == Pair(IndexMap(a.states)[l], IndexMap(b.states)[r], |b.states|)
  {
    var ia, ib := IndexMap(a.states), IndexMap(b.states);
    l, r := PairOf(ia, sa, ib, sb, |b.states|, p);
  }

  /** A product state names a key of each map lying in the given sets. */
  lemma PairOf(left: map<State, nat>, ls: set<State>, right: map<State, nat>, rs: set<State>, m: nat, p: nat)
    returns (l: State, r: State)
    requires p in ProductStates(left, ls, right, rs, m)
    ensures l in left && r in right && l in ls && r in rs && p == Pair(left[l], right[r], m)
  {
    l, r :| l in left && r in right && l in ls && r in rs && p == Pair(left[l], right[r], m);
  }

  /** The automaton `intersection(...).to_nfa()` describes. */
  function Product(a: Nfa, b: Nfa): Automaton
    requires WellFormed(a) && WellFormed(b)
  {
    var ia, ib, m := IndexMap(a.states), IndexMap(b.states), |b.states|;
    Automaton(EntryTransitions(KronFamily(MatricesOf(a), |a.states|, MatricesOf(b), m)),
              ProductStates(ia, a.startStates, ib, b.startStates, m),
              ProductStates(ia, a.finalStates, ib, b.finalStates, m))
  }

  /** A word labels a product path between pair indices exactly when it labels a path in each automaton. */
  lemma ProductPath(a: Nfa, b: Nfa, l: State, r: State, w: seq<Symbol>, l': State, r': State)
    requires WellFormed(a) && WellFormed(b)
    requires l in a.states && l' in a.states && r in b.states && r' in b.states
    ensures var ia, ib, m := IndexMap(a.states), IndexMap(b.states), |b.states|;
            Path(Product(a, b).transitions, Pair(ia[l], ib[r], m), w, Pair(ia[l'], ib[r'], m))
            <==> Path(a.transitions, l, w, l') && Path(b.transitions, r, w, r')
  {
    var ia, ib, m := IndexMap(a.states), IndexMap(b.states), |b.states|;
    var fa, fb := MatricesOf(a), MatricesOf(b);
    EntryPathIsWalk(KronFamily(fa, |a.states|, fb, m), Pair(ia[l], ib[r], m), w, Pair(ia[l'], ib[r'], m));
    KronWalk(fa, |a.states|, fb, m, ia[l], ib[r], w, ia[l'], ib[r']);
    TransitionWalks(a, l, w, l');
    TransitionWalks(b, r, w, r');
  }

  /**
   * `intersection` followed by `to_nfa` accepts a word exactly when both
   * automata accept it.
   */
  lemma IntersectionAccepts(a: Nfa, b: Nfa, w: seq<Symbol>)
    requires WellFormed(a) && WellFormed(b)
    ensures AutomatonAccepts(Product(a, b), w) <==> NfaAccepts(a, w) && NfaAccepts(b, w)
  {
    if AutomatonAccepts(Product(a, b), w) {
      ProductAcceptsBoth(a, b, w);
    }
    if NfaAccepts(a, w) && NfaAccepts(b, w) {
      BothAcceptProduct(a, b, w);
    }
  }

  /** A word the product accepts is accepted by both automata. */
  lemma ProductAcceptsBoth(a: Nfa, b: Nfa, w: seq<Symbol>)
    requires WellFormed(a) && WellFormed(b) && AutomatonAccepts(Product(a, b), w)
    ensures NfaAccepts(a, w) && NfaAccepts(b, w)
  {
    var prod := Product(a, b);
    var p, q :| p in prod.startStates && q in prod.finalStates && Path(prod.transitions, p, w, q);
    var l, r := ProductSplit(a, b, a.startStates, b.startStates, p);
    var l', r' := ProductSplit(a, b, a.finalStates, b.finalStates, q);
    ProductPath(a, b, l, r, w, l', r');
    AcceptsIntro(a.transitions, a.startStates, a.finalStates, w, l, l');
    AcceptsIntro(b.transitions, b.startStates, b.finalStates, w, r, r');
  }

  /** A word both automata accept is accepted by the product. */
  lemma BothAcceptProduct(a: Nfa, b: Nfa, w: seq<Symbol>)
    requires WellFormed(a) && WellFormed(b) && NfaAccepts(a, w) && NfaAccepts(b, w)
    ensures AutomatonAccepts(Product(a, b), w)
  {
    var ia, ib, m := IndexMap(a.states), IndexMap(b.states), |b.states|;
    var l, l' :| l in a.startStates && l' in a.finalStates && Path(a.transitions, l, w, l');
    var r, r' :| r in b.startStates && r' in b.finalStates && Path(b.transitions, r, w, r');
    ProductMember(a, b, a.startStates, b.startStates, l, r);
    ProductMember(a, b, a.finalStates, b.finalStates, l', r');
    ProductPath(a, b, l, r, w, l', r');
    var prod := Product(a, b);
    AcceptsIntro(prod.transitions, prod.startStates, prod.finalStates, w, Pair(ia[l], ib[r], m), Pair(ia[l'], ib[r'], m));
  }

  /** The second sample accepts "ab". */
  lemma SampleTwoAccepts()
    ensures NfaAccepts(SampleTwo(), ["a", "b"])
  {
    var w: seq<Symbol> := ["a", "b"];
    var t := SampleTwo().transitions;
    assert Path(t, 2, w[2..], 2);
    PathCons(t, 1, w[1..], 2, 2);
    PathCons(t, 0, w, 1, 2);
  }

  /** The intersection of the two samples accepts "ab". */
  lemma SampleIntersection()
    ensures WellFormed(SampleOne()) && WellFormed(SampleTwo())
    ensures AutomatonAccepts(Product(SampleOne(), SampleTwo()), ["a", "b"])
  {
    SamplesWellFormed();
    SampleOneAccepts();
    SampleTwoAccepts();
    IntersectionAccepts(SampleOne(), SampleTwo(), ["a", "b"]);
  }
}
