/// The context-free path query front-ends (`project/cfpq.py` and
/// `project/cfg/cfpq.py`): run one of the algorithms on the grammar and
/// the graph, then keep the pairs (i, j) for which the start symbol holds
/// from a start node i to a final node j. A missing or empty node set
/// stands for every node. With Hellings or the matrix algorithm, the answer
/// is the set of pairs whose fact every closed set of facts containing the
/// seeds holds; with the tensor algorithm, it is read off the least family
/// closed under the box rule.
module Cfpq {
  import opened Walks
  import opened Automata
  import opened Grammars
  import H = Hellings
  import MC = MatrixClosure
  import T = Tensor
  import GD = GrammarDecomposition

  datatype Option<X> = None | Some(value: X)

  /** `if not nodes: nodes = graph.nodes`: a missing or empty node set stands for every vertex. */
  function Defaulted(nodes: Option<set<nat>>, n: nat): (r: set<nat>)
    ensures nodes.Some? && nodes.value != {} ==> r == nodes.value
    ensures nodes.None? || nodes.value == {} ==> forall i: nat :: i in r <==> i < n
  {
    if nodes.None? || nodes.value == {} then Vertices(n) else nodes.value
  }

  /**
   * z lies in the least fixpoint of the seeds under the binary rules:
   * every set of facts that contains the seeds and is closed under the
   * binary rules contains z.
   */
  ghost predicate Derivable(gr: Grammar, g: Graph, z: Fact) {
    forall s | Seeds(gr, g) <= s && Closed(s, BinaryRules(gr.productions)) :: z in s
  }

  /** The least closed set of facts is the set of derivable facts. */
  lemma LeastDerivable(r: set<Fact>, gr: Grammar, g: Graph)
    requires Least(r, Seeds(gr, g), BinaryRules(gr.productions))
    ensures forall z :: z in r <==> Derivable(gr, g, z)
  {
    forall z | Derivable(gr, g, z)
      ensures z in r
    {
      assert Seeds(gr, g) <= r && Closed(r, BinaryRules(gr.productions));
    }
  }

  /** The pairs of facts of the start symbol from a start node to a final node. */
  function Answers(facts: set<Fact>, start: Variable, starts: set<nat>, finals: set<nat>): (r: set<(nat, nat)>)
    ensures forall i, j :: (i, j) in r <==> Fact(start, i, j) in facts && i in starts && j in finals
  {
    set z | z in facts && z.v == start && z.i in starts && z.j in finals :: (z.i, z.j)
  }

  /** The loop of `cfpq` over the (v, i, j) triples of `hellings`. */
  method FilterVij(triples: set<(Variable, nat, nat)>, start: Variable, starts: set<nat>, finals: set<nat>)
    returns (result: set<(nat, nat)>)
    ensures result == Answers(FromVij(triples), start, starts, finals)
  {
    result := {};
    var todo := triples;
    ghost var done: set<(Variable, nat, nat)> := {};
    while todo != {}
      invariant done + todo == triples && done !! todo
      invariant result == Answers(FromVij(done), start, starts, finals)
      decreases todo
    {
      var t :| t in todo;
      var (v, i, j) := t;
      if v == start && i in starts && j in finals {
        result := result + {(i, j)};
      }
      todo, done := todo - {t}, done + {t};
    }
  }

  /** The loop of `cfpq` in `project/cfg/cfpq.py` over the (i, v, j) triples of an algorithm. */
  method FilterIvj(triples: set<(nat, Variable, nat)>, start: Variable, starts: set<nat>, finals: set<nat>)
    returns (result: set<(nat, nat)>)
    ensures result == Answers(FromIvj(triples), start, starts, finals)
  {
    result := {};
    var todo := triples;
    ghost var done: set<(nat, Variable, nat)> := {};
    while todo != {}
      invariant done + todo == triples && done !! todo
      invariant result == Answers(FromIvj(done), start, starts, finals)
      decreases todo
    {
      var t :| t in todo;
      var (i, v, j) := t;
      if v == start && i in starts && j in finals {
        result := result + {(i, j)};
      }
      todo, done := todo - {t}, done + {t};
    }
  }

  /**
   * `cfpq` (`project/cfpq.py`): the start symbol set, the node sets
   * defaulted, and the `hellings` triples filtered. A pair is reported
   * exactly when it joins a start node to a final node and its fact of
   * the start symbol is derivable.
   */
  method Cfpq(g: Graph, gr: Grammar, startNodes: Option<set<nat>> := None, finalNodes: Option<set<nat>> := None,
              start: Variable := "S")
    returns (result: set<(nat, nat)>)
    requires WeakNormal(gr) && GraphValid(g)
    ensures forall i, j :: (i, j) in result <==>
              i in Defaulted(startNodes, g.size) && j in Defaulted(finalNodes, g.size) && Derivable(gr, g, Fact(start, i, j))
  {
    var query := gr.(start := start);
    var starts := Defaulted(startNodes, g.size);
    var finals := Defaulted(finalNodes, g.size);
    var triples := H.HellingsVij(query, g);
    result := FilterVij(triples, start, starts, finals);
    LeastDerivable(FromVij(triples), gr, g);
  }

  /**
   * `cfpq_matrix` (`project/cfpq.py`): the same query answered from the
   * (i, N, j) triples of `cf_closure`.
   */
  method CfpqMatrix(g: Graph, gr: Grammar, startNodes: Option<set<nat>> := None, finalNodes: Option<set<nat>> := None,
                    start: Variable := "S")
    returns (result: set<(nat, nat)>)
    requires WeakNormal(gr) && GraphValid(g)
    ensures forall i, j :: (i, j) in result <==>
              i in Defaulted(startNodes, g.size) && j in Defaulted(finalNodes, g.size) && Derivable(gr, g, Fact(start, i, j))
  {
    var starts := Defaulted(startNodes, g.size);
    var finals := Defaulted(finalNodes, g.size);
    var query := gr.(start := start);
    var triples := MC.CfClosure(query, g);
    result := set t | t in triples && start == t.1 && t.0 in starts && t.2 in finals :: (t.0, t.2);
    assert result == Answers(FromIvj(triples), start, starts, finals);
    LeastDerivable(FromIvj(triples), gr, g);
  }

  /**
   * The algorithms of `Algo`. The tensor algorithm works on the grammar's
   * recursive state machine and the graph's automaton, which are built by
   * the automaton library; they come with it as data: the boxes, their
   * tagged states in numbering order, the graph automaton and the
   * grammar's nullable nonterminals.
   */
  datatype Algo =
    | Hellings
    | MatrixProd
    | TensorProd(boxes: map<GD.Variable, Nfa>, order: seq<GD.Node>, a: Nfa, nullable: set<Symbol>)

  /** The inputs the tensor algorithm relies on. */
  ghost predicate TensorReady(algo: Algo)
    requires algo.TensorProd?
  {
    && GD.BoxesWellFormed(algo.boxes) && GD.Listed(algo.order)
    && (forall x :: x in algo.order <==> x in GD.TaggedOf(algo.boxes, algo.boxes.Keys, GD.AllStates))
    && WellFormed(algo.a)
  }

  /** The graph matrices the tensor algorithm ends with: the least family closed under the box rule. */
  ghost predicate TensorFamily(algo: Algo, f: Family)
    requires algo.TensorProd? && TensorReady(algo)
  {
    var n := |algo.a.states|;
    T.TensorLeast(T.RsmMachine(algo.boxes, algo.order),
                  T.NullableLoops(GD.SymbolFamily(algo.a, Labels(algo.a.transitions)), algo.nullable, n), f, n)
  }

  /**
   * `cfpq` (`project/cfg/cfpq.py`): the start symbol set, the node sets
   * defaulted, and the (i, v, j) triples of the chosen algorithm filtered.
   * With Hellings or the matrix algorithm a pair is reported exactly when
   * its fact of the start symbol is derivable; with the tensor algorithm,
   * exactly when the least family closed under the box rule has the
   * start symbol's entry for it.
   */
  method CfgCfpq(g: Graph, gr: Grammar, startNodes: Option<set<nat>> := None, finalNodes: Option<set<nat>> := None,
                 start: Variable := "S", algo: Algo := Hellings)
    returns (result: set<(nat, nat)>)
    requires GraphValid(g)
    requires !algo.TensorProd? ==> WeakNormal(gr)
    requires algo.TensorProd? ==> TensorReady(algo)
    ensures !algo.TensorProd? ==>
              forall i, j :: (i, j) in result <==>
                i in Defaulted(startNodes, g.size) && j in Defaulted(finalNodes, g.size) && Derivable(gr, g, Fact(start, i, j))
    ensures algo.TensorProd? ==>
              exists f | TensorFamily(algo, f) ::
                && Square(f, |algo.a.states|)
                && forall i, j :: (i, j) in result <==>
                     i in Defaulted(startNodes, g.size) && j in Defaulted(finalNodes, g.size)
                     && (i, start, j) in T.Triples(f, algo.a.states)
  {
    var query := gr.(start := start);
    var starts := Defaulted(startNodes, g.size);
    var finals := Defaulted(finalNodes, g.size);
    var triples: set<(nat, Variable, nat)>;
    match algo {
      case Hellings =>
        triples := H.HellingsIvj(query, g);
        LeastDerivable(FromIvj(triples), gr, g);
      case MatrixProd =>
        triples := MC.CfClosure(query, g);
        LeastDerivable(FromIvj(triples), gr, g);
      case TensorProd(boxes, order, a, nullable) =>
        ghost var f;
        triples, f := T.TensorProd(boxes, order, a, nullable);
        assert TensorFamily(algo, f);
        assert forall t :: t in triples <==> Fact(t.1, t.0, t.2) in FromIvj(triples);
    }
    result := FilterIvj(triples, start, starts, finals);
  }
}
