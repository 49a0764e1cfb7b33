/// Context-free path queries share one vocabulary: a grammar in weak
/// normal form (bodies of length 0, 1 or 2), a graph whose vertices are
/// 0, ..., size - 1 with labelled edges, and facts (v, i, j) relating a
/// variable to a pair of vertices. Hellings and the matrix algorithm
/// compute the least set of facts that contains the seeds (nullable
/// variables on every vertex, terminal productions on matching edges) and
/// is closed under the binary productions; `Least` states that, and
/// `LeastUnique` makes those two interchangeable. The tensor algorithm is
/// characterised separately, by the least family closed under the box rule.
module Grammars {
  import opened Walks
  import opened Automata

  type Variable = string

  /** A body element: a variable or a terminal, compared by kind and name. */
  datatype Token = Var(name: string) | Term(name: string)

  datatype Production = Production(head: Variable, body: seq<Token>)

  datatype Grammar = Grammar(variables: set<Variable>, start: Variable, productions: set<Production>)

  /** A graph on the vertices 0, ..., size - 1; an edge is a labelled transition. */
  datatype Graph = Graph(size: nat, edges: set<Transition>)

  predicate GraphValid(g: Graph) {
    forall e | e in g.edges :: e.from < g.size && e.to < g.size
  }

  /**
   * Weak normal form as the algorithms rely on it: heads are variables,
   * a body of length one is a terminal, a body of length two is a pair of
   * variables of the grammar, and no body is longer.
   */
  predicate WeakNormal(gr: Grammar) {
    forall p | p in gr.productions ::
      && p.head in gr.variables
      && |p.body| <= 2
      && (|p.body| == 1 ==> p.body[0].Term?)
      && (|p.body| == 2 ==> p.body[0].Var? && p.body[1].Var?
                            && p.body[0].name in gr.variables && p.body[1].name in gr.variables)
  }

  /** A production `head -> terminal`. */
  datatype TermRule = TermRule(head: Variable, terminal: Symbol)

  /** A production `head -> left right`. */
  datatype Rule = Rule(head: Variable, left: Variable, right: Variable)

  /** A triple (v, i, j) as the query algorithms report it: variable v for vertices i and j. */
  datatype Fact = Fact(v: Variable, i: nat, j: nat)

  /** The heads of the empty bodies. */
  function Nullable(ps: set<Production>): (r: set<Variable>)
    ensures forall v :: v in r <==> exists p | p in ps :: |p.body| == 0 && p.head == v
  {
    set p | p in ps && |p.body| == 0 :: p.head
  }

  /** The productions with a one-element body. */
  function TerminalRules(ps: set<Production>): (r: set<TermRule>)
    ensures forall p | p in ps && |p.body| == 1 :: TermRule(p.head, p.body[0].name) in r
    ensures forall t | t in r :: exists p | p in ps :: |p.body| == 1 && t == TermRule(p.head, p.body[0].name)
  {
    set p | p in ps && |p.body| == 1 :: TermRule(p.head, p.body[0].name)
  }

  /** The productions with a two-element body. */
  function BinaryRules(ps: set<Production>): (r: set<Rule>)
    ensures forall p | p in ps && |p.body| == 2 :: Rule(p.head, p.body[0].name, p.body[1].name) in r
    ensures forall t | t in r :: exists p | p in ps :: |p.body| == 2 && t == Rule(p.head, p.body[0].name, p.body[1].name)
  {
    set p | p in ps && |p.body| == 2 :: Rule(p.head, p.body[0].name, p.body[1].name)
  }

  /**
   * The loop that sorts the productions by body length: empty bodies give
   * nullable variables, one-element bodies terminal rules, and the rest
   * binary rules.
   */
  method SplitProductions(ps: set<Production>) returns (eps: set<Variable>, units: set<TermRule>, rules: set<Rule>)
    requires forall p | p in ps :: |p.body| <= 2
    ensures eps == Nullable(ps) && units == TerminalRules(ps) && rules == BinaryRules(ps)
  {
    eps, units, rules := {}, {}, {};
    var todo := ps;
    ghost var done: set<Production> := {};
    while todo != {}
      invariant done + todo == ps && done !! todo
      invariant eps == Nullable(done) && units == TerminalRules(done) && rules == BinaryRules(done)
      decreases todo
    {
      var p :| p in todo;
      if |p.body| == 0 {
        eps := eps + {p.head};
      } else if |p.body| == 1 {
        units := units + {TermRule(p.head, p.body[0].name)};
      } else {
        rules := rules + {Rule(p.head, p.body[0].name, p.body[1].name)};
      }
      todo, done := todo - {p}, done + {p};
    }
  }

  /** The vertices 0, ..., n - 1. */
  function Vertices(n: nat): (s: set<nat>)
    ensures forall i: nat :: i in s <==> i < n
  {
    if n == 0 then {} else Vertices(n - 1) + {n - 1}
  }

  /** Every nullable variable holds on the empty path at every vertex. */
  function EpsSeeds(eps: set<Variable>, n: nat): (r: set<Fact>)
    ensures forall z :: z in r <==> z.v in eps && z.i == z.j && z.i < n
  {
    set v, i | v in eps && i in Vertices(n) :: Fact(v, i, i)
  }

  /** A terminal rule holds along every edge labelled with its terminal. */
  function EdgeSeeds(units: set<TermRule>, edges: set<Transition>): (r: set<Fact>)
    ensures forall z :: z in r <==> exists e | e in edges :: z.i == e.from && z.j == e.to && TermRule(z.v, e.symbol) in units
  {
    set u, e | u in units && e in edges && e.symbol == u.terminal :: Fact(u.head, e.from, e.to)
  }

  /** The facts every algorithm starts from. */
  function Seeds(gr: Grammar, g: Graph): set<Fact> {
    EpsSeeds(Nullable(gr.productions), g.size) + EdgeSeeds(TerminalRules(gr.productions), g.edges)
  }

  /** Fact x, then fact y, fit the body of rule. */
  predicate Joins(x: Fact, y: Fact, rule: Rule) {
    x.v == rule.left && y.v == rule.right && x.j == y.i
  }

  /** What the rule concludes from x followed by y. */
  function Joined(x: Fact, y: Fact, rule: Rule): Fact {
    Fact(rule.head, x.i, y.j)
  }

  /** Closed under the binary rules: two facts that fit a body give its head. */
  ghost predicate Closed(r: set<Fact>, rules: set<Rule>) {
    forall x, y, rule | x in r && y in r && rule in rules && Joins(x, y, rule) :: Joined(x, y, rule) in r
  }

  /** r is the least set of facts containing the seeds and closed under the rules. */
  ghost predicate Least(r: set<Fact>, seeds: set<Fact>, rules: set<Rule>) {
    && seeds <= r
    && Closed(r, rules)
    && forall s | seeds <= s && Closed(s, rules) :: r <= s
  }

  /** Every closed superset of the seeds contains r. */
  ghost predicate Sound(r: set<Fact>, seeds: set<Fact>, rules: set<Rule>) {
    forall s | seeds <= s && Closed(s, rules) :: r <= s
  }

  /** The heads of the binary rules: the keys of `non_term_prods`. */
  function RuleHeads(rules: set<Rule>): (heads: set<Variable>)
    ensures forall rule | rule in rules :: rule.head in heads
    ensures forall v | v in heads :: exists rule | rule in rules :: rule.head == v
  {
    set rule | rule in rules :: rule.head
  }

  /** Two results that are both least are the same set: the algorithms agree. */
  lemma LeastUnique(r1: set<Fact>, r2: set<Fact>, seeds: set<Fact>, rules: set<Rule>)
    requires Least(r1, seeds, rules) && Least(r2, seeds, rules)
    ensures r1 == r2
  {
    assert r1 <= r2 && r2 <= r1;
  }

  /** A fact whose variable is one of vars and whose vertices are below n. */
  predicate InRange(z: Fact, vars: set<Variable>, n: nat) {
    z.v in vars && z.i < n && z.j < n
  }

  /** All facts in range: a finite bound for the growing result sets. */
  function Universe(vars: set<Variable>, n: nat): (u: set<Fact>)
    ensures forall z :: z in u <==> InRange(z, vars, n)
  {
    set v, i, j | v in vars && i in Vertices(n) && j in Vertices(n) :: Fact(v, i, j)
  }

  /** The seeds of a well-formed query are in range. */
  lemma SeedsInRange(gr: Grammar, g: Graph)
    requires WeakNormal(gr) && GraphValid(g)
    ensures forall z | z in Seeds(gr, g) :: InRange(z, gr.variables, g.size)
  {
    forall z | z in Seeds(gr, g)
      ensures InRange(z, gr.variables, g.size)
    {
      if z !in EpsSeeds(Nullable(gr.productions), g.size) {
        var e :| e in g.edges && z.i == e.from && z.j == e.to && TermRule(z.v, e.symbol) in TerminalRules(gr.productions);
      }
    }
  }

  /** The heads of the binary rules of a weak normal form grammar are its variables. */
  lemma RulesInRange(gr: Grammar)
    requires WeakNormal(gr)
    ensures forall rule | rule in BinaryRules(gr.productions) :: rule.head in gr.variables
  {
  }

  /** A (v, i, j) triple as `hellings` lists it. */
  function Vij(z: Fact): (Variable, nat, nat) {
    (z.v, z.i, z.j)
  }

  /** An (i, v, j) triple as the grammar-module algorithms list it. */
  function Ivj(z: Fact): (nat, Variable, nat) {
    (z.i, z.v, z.j)
  }

  /** The facts as `hellings` lists them. */
  function VijOf(facts: set<Fact>): (r: set<(Variable, nat, nat)>)
    ensures forall t :: t in r <==> Fact(t.0, t.1, t.2) in facts
  {
    set z | z in facts :: Vij(z)
  }

  /** The facts as the grammar-module algorithms list them. */
  function IvjOf(facts: set<Fact>): (r: set<(nat, Variable, nat)>)
    ensures forall t :: t in r <==> Fact(t.1, t.0, t.2) in facts
  {
    set z | z in facts :: Ivj(z)
  }

  /** (v, i, j) triples read back as facts. */
  function FromVij(r: set<(Variable, nat, nat)>): (facts: set<Fact>)
    ensures forall z :: z in facts <==> (z.v, z.i, z.j) in r
  {
    set t | t in r :: Fact(t.0, t.1, t.2)
  }

  /** (i, v, j) triples read back as facts. */
  function FromIvj(r: set<(nat, Variable, nat)>): (facts: set<Fact>)
    ensures forall z :: z in facts <==> (z.i, z.v, z.j) in r
  {
    set t | t in r :: Fact(t.1, t.0, t.2)
  }
}
