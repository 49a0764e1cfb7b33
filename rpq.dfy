/// Regular path queries (`project/rpq.py`). The graph and the regular
/// expression arrive as automata (building them is the automaton
/// library's work). `request_path_query` intersects the graph's
/// decomposition with the expression's, closes the product, and reports
/// every closure entry from a product start state to a product final state
/// as the pair of graph state indices `left // k`, `right // k`, with k the
/// number of the expression's states. `rpq_bfs` hands the two
/// decompositions to the constrained search.
module Rpq {
  import opened Pairing
  import opened BoolMatrix
  import opened Walks
  import opened Automata
  import opened Outcome
  import opened Answers
  import opened Frontier
  import opened Decomposition
  import opened Conversions

  /**
   * Graph state indices a and b are joined: a is a start state, b a final
   * one, and a non-empty word the expression's automaton accepts labels a
   * path from a to b.
   */
  ghost predicate Joined(g: Nfa, r: Nfa, a: nat, b: nat) {
    && a < |g.states| && b < |g.states|
    && g.states[a] in g.startStates && g.states[b] in g.finalStates
    && exists w: seq<Symbol> :: |w| > 0 && Path(g.transitions, g.states[a], w, g.states[b]) && NfaAccepts(r, w)
  }

  /**
   * The pairs the loop over the closure's true entries collects. With no
   * expression states there is no product start state, so the division is
   * never reached.
   */
  function Decoded(cells: set<Cell>, start: set<nat>, final: set<nat>, k: nat): set<(nat, nat)>
    requires k > 0 || start == {}
  {
    set c | c in cells && c.0 in start && c.1 in final :: (c.0 / k, c.1 / k)
  }

  /** `for left, right in zip(*closure.nonzero())`: decode each start-to-final entry into its pair. */
  method DecodeEntries(cells: set<Cell>, start: set<nat>, final: set<nat>, k: nat) returns (result: set<(nat, nat)>)
    requires k > 0 || start == {}
    ensures forall a, b :: (a, b) in result <==>
              exists c | c in cells :: c.0 in start && c.1 in final && a == c.0 / k && b == c.1 / k
  {
    result := {};
    var todo := cells;
    ghost var done: set<Cell> := {};
    while todo != {}
      invariant done + todo == cells && done !! todo
      invariant result == Decoded(done, start, final, k)
      decreases todo
    {
      var c :| c in todo;
      var (left, right) := c;
      if left in start && right in final {
        result := result + {(left / k, right / k)};
      }
      todo, done := todo - {c}, done + {c};
    }
  }

  /**
   * `request_path_query`: the reported pairs are exactly the graph state
   * indices joined by a non-empty word the expression accepts.
   */
  method RequestPathQuery(g: Nfa, r: Nfa) returns (result: set<(nat, nat)>)
    requires WellFormed(g) && WellFormed(r)
    ensures forall a: nat, b: nat :: (a, b) in result <==> Joined(g, r, a, b)
  {
    var graphBd := new BooleanDecomposition.FromNfa(g);
    var regexBd := new BooleanDecomposition.FromNfa(r);
    var intersection := graphBd.Intersection(regexBd);
    var start, final := intersection.startStates, intersection.finalStates;
    var closure := intersection.TransitiveClosure();
    ghost var prod := Product(g, r);
    assert start == prod.startStates && final == prod.finalStates;
    NoStatesNoStart(g, r);
    result := DecodeEntries(closure.cells, start, final, regexBd.numOfStates);
    ClosureExact(intersection.booleanMatrices, closure);
    Decoding(g, r, closure.cells, start, final, regexBd.numOfStates, result);
  }

  /** The closure of a family, empty or not, holds exactly its connected pairs. */
  lemma ClosureExact(f: Family, closure: Matrix)
    requires f == map[] ==> closure == Zero(0, 0)
    requires f != map[] ==> forall i: nat, j: nat :: (i, j) in closure.cells <==> Connected(f, i, j)
    ensures forall i: nat, j: nat :: (i, j) in closure.cells <==> Connected(f, i, j)
  {
  }

  /** No expression states leave the product without start states. */
  lemma NoStatesNoStart(g: Nfa, r: Nfa)
    requires WellFormed(g) && WellFormed(r)
    ensures |r.states| > 0 || Product(g, r).startStates == {}
  {
  }

  /** The decoded entries of the closure are exactly the joined pairs. */
  lemma Decoding(g: Nfa, r: Nfa, cells: set<Cell>, start: set<nat>, final: set<nat>, k: nat, result: set<(nat, nat)>)
    requires WellFormed(g) && WellFormed(r)
    requires start == Product(g, r).startStates && final == Product(g, r).finalStates && k == |r.states|
    requires var f := KronFamily(MatricesOf(g), |g.states|, MatricesOf(r), |r.states|);
             forall p: nat, q: nat :: (p, q) in cells <==> Connected(f, p, q)
    requires forall a, b :: (a, b) in result <==>
               exists c | c in cells :: c.0 in start && c.1 in final && a == c.0 / k && b == c.1 / k
    ensures forall a: nat, b: nat :: (a, b) in result <==> Joined(g, r, a, b)
  {
    forall a: nat, b: nat | (a, b) in result
      ensures Joined(g, r, a, b)
    {
      var c :| c in cells && c.0 in start && c.1 in final && a == c.0 / k && b == c.1 / k;
      var a', b' := EntryJoined(g, r, c.0, c.1);
    }
    forall a: nat, b: nat | Joined(g, r, a, b)
      ensures (a, b) in result
    {
      var p, q := JoinedEntry(g, r, a, b);
      assert (p, q) in cells;
    }
  }

  /** A non-empty walk of a family is a non-empty path over its entries. */
  lemma ConnectedPath(f: Family, p: nat, q: nat) returns (w: seq<Symbol>)
    requires Connected(f, p, q)
    ensures |w| > 0 && Path(EntryTransitions(f), p, w, q)
  {
    w :| |w| > 0 && Walk(f, p, w, q);
    EntryPathIsWalk(f, p, w, q);
  }

  /** A connected start-to-final product entry decodes into a joined pair. */
  lemma EntryJoined(g: Nfa, r: Nfa, p: nat, q: nat) returns (a: nat, b: nat)
    requires WellFormed(g) && WellFormed(r)
    requires p in Product(g, r).startStates && q in Product(g, r).finalStates
    requires Connected(KronFamily(MatricesOf(g), |g.states|, MatricesOf(r), |r.states|), p, q)
    ensures |r.states| > 0 && a == p / |r.states| && b == q / |r.states|
    ensures Joined(g, r, a, b)
  {
    var ig, ir, k := IndexMap(g.states), IndexMap(r.states), |r.states|;
    var l, s := ProductSplit(g, r, g.startStates, r.startStates, p);
    var l', s' := ProductSplit(g, r, g.finalStates, r.finalStates, q);
    a, b := ig[l], ig[l'];
    var w := ConnectedPath(KronFamily(MatricesOf(g), |g.states|, MatricesOf(r), k), p, q);
    ProductJoined(g, r, l, s, w, l', s');
    UnpairPair(ig[l], ir[s], k);
    UnpairPair(ig[l'], ir[s'], k);
  }

  /** A non-empty product path from a start pair to a final pair joins the graph states of its ends. */
  lemma ProductJoined(g: Nfa, r: Nfa, l: State, s: State, w: seq<Symbol>, l': State, s': State)
    requires WellFormed(g) && WellFormed(r)
    requires l in g.states && l' in g.states && s in r.states && s' in r.states
    requires l in g.startStates && s in r.startStates && l' in g.finalStates && s' in r.finalStates
    requires var ig, ir, k := IndexMap(g.states), IndexMap(r.states), |r.states|;
             |w| > 0 && Path(Product(g, r).transitions, Pair(ig[l], ir[s], k), w, Pair(ig[l'], ir[s'], k))
    ensures Joined(g, r, IndexMap(g.states)[l], IndexMap(g.states)[l'])
  {
    ProductPath(g, r, l, s, w, l', s');
    JoinedIntro(g, r, IndexMap(g.states)[l], IndexMap(g.states)[l'], w, s, s');
  }

  /** A word from a start to a final state of the graph that the expression accepts joins them. */
  lemma JoinedIntro(g: Nfa, r: Nfa, a: nat, b: nat, w: seq<Symbol>, s: State, s': State)
    requires a < |g.states| && b < |g.states| && g.states[a] in g.startStates && g.states[b] in g.finalStates
    requires |w| > 0 && Path(g.transitions, g.states[a], w, g.states[b])
    requires s in r.startStates && s' in r.finalStates && Path(r.transitions, s, w, s')
    ensures Joined(g, r, a, b)
  {
    AcceptsIntro(r.transitions, r.startStates, r.finalStates, w, s, s');
  }

  /** A non-empty path over the entries of a family connects its ends. */
  lemma PathConnected(f: Family, p: nat, w: seq<Symbol>, q: nat)
    requires |w| > 0 && Path(EntryTransitions(f), p, w, q)
    ensures Connected(f, p, q)
  {
    EntryPathIsWalk(f, p, w, q);
  }

  /** A joined pair is the decoding of a connected start-to-final product entry. */
  lemma JoinedEntry(g: Nfa, r: Nfa, a: nat, b: nat) returns (p: nat, q: nat)
    requires WellFormed(g) && WellFormed(r) && Joined(g, r, a, b)
    ensures p in Product(g, r).startStates && q in Product(g, r).finalStates
    ensures Connected(KronFamily(MatricesOf(g), |g.states|, MatricesOf(r), |r.states|), p, q)
    ensures |r.states| > 0 && p / |r.states| == a && q / |r.states| == b
  {
    var ig, ir, k := IndexMap(g.states), IndexMap(r.states), |r.states|;
    var l, l' := g.states[a], g.states[b];
    var w: seq<Symbol> :| |w| > 0 && Path(g.transitions, l, w, l') && NfaAccepts(r, w);
    var s, s' :| s in r.startStates && s' in r.finalStates && Path(r.transitions, s, w, s');
    assert ig[l] == a && ig[l'] == b;
    p, q := Pair(a, ir[s], k), Pair(b, ir[s'], k);
    ProductMember(g, r, g.startStates, r.startStates, l, s);
    ProductMember(g, r, g.finalStates, r.finalStates, l', s');
    ProductPath(g, r, l, s, w, l', s');
    PathConnected(KronFamily(MatricesOf(g), |g.states|, MatricesOf(r), k), p, w, q);
    UnpairPair(a, ir[s], k);
    UnpairPair(b, ir[s'], k);
  }

  /**
   * `rpq_bfs`: the constrained search of the graph's decomposition with the
   * expression's as constraint (the `project/boolean_decomposition.py`
   * copy, which reads finality by looking states up). A separated search
   * fails when some graph index below the state count is not a numbered
   * state. Otherwise it collects the answers of the reachable entries, or
   * raises the error of the first failing one in row-major order; when both
   * automata number their states 0, 1, ..., n - 1 the answer is the
   * search's answer by indices.
   */
  method RpqBfs(g: Nfa, r: Nfa, separated: bool) returns (result: Result<set<Answer>>)
    requires WellFormed(g) && WellFormed(r)
    ensures var copies := SepCopies(IndexMap(g.states), g.startStates, |g.states|);
            separated && copies.Failure? ==> result == Failure(copies.error)
    ensures var copies := SepCopies(IndexMap(g.states), g.startStates, |g.states|);
            !(separated && copies.Failure?) ==>
            var st := Setting(MatricesOf(r), |r.states|, MatricesOf(g), |g.states|,
                              BfsFront(|r.states|, |g.states|, IndexMap(r.states).Values,
                                       IndexSetOf(g.states, g.startStates), separated, copies));
            var entry := LookupEntries(|r.states|, |g.states|, IndexMap(r.states), r.finalStates,
                                       IndexMap(g.states), g.finalStates, separated, IndicesIn(g.states, g.startStates));
            && (result.Success? <==> forall e | st.Reached(e) :: entry(e).Success?)
            && (result.Success? ==> forall a :: a in result.value <==> exists e :: st.Reached(e) && entry(e).Success? && a in entry(e).value)
            && (result.Failure? ==> exists e :: st.Reached(e) && entry(e) == Failure(result.error)
                                              && forall d | st.Reached(d) && Before(d, e) :: entry(d).Success?)
    ensures Numbered(g) && Numbered(r) ==>
              result == BfsOutcome(MatricesOf(r), |r.states|, MatricesOf(g), |g.states|,
                                   IndexMap(r.states).Values, IndexSetOf(g.states, g.startStates),
                                   IndexSetOf(r.states, r.finalStates), IndexSetOf(g.states, g.finalStates),
                                   separated, SepCopies(IndexMap(g.states), g.startStates, |g.states|),
                                   IndicesIn(g.states, g.startStates))
  {
    var graphBd := new BooleanDecomposition.FromNfa(g);
    var regexBd := new BooleanDecomposition.FromNfa(r);
    result := graphBd.ConstraintBfsLookup(regexBd, separated);
  }
}
