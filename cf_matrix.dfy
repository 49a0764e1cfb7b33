/// The matrix algorithm (`cf_closure` in `project/cf_matrix_prod.py` and
/// `_cf_closure` in `project/cfg/cfpq_algo.py`, the same code): one n x n
/// boolean matrix per variable, seeded with the diagonal for nullable
/// variables and with the edges of terminal rules, then passes over the
/// binary rules that add `left @ right` to the head's matrix in place
/// until a pass changes no entry count. The facts it lists form the least
/// closed set, as those of the Hellings algorithm do.
module MatrixClosure {
  import opened BoolMatrix
  import opened Walks
  import opened Automata
  import opened Grammars

  /** The matrix of z's variable has z's entry. */
  ghost predicate Holds(m: Family, z: Fact) {
    z.v in m && (z.i, z.j) in m[z.v].cells
  }

  /** The facts the matrices list: `(i, v, j)` for every true entry (i, j) of the matrix of v. */
  function FactsOf(m: Family): (r: set<Fact>)
    ensures forall z :: z in r <==> Holds(m, z)
  {
    set v, c | v in m && c in m[v].cells :: Fact(v, c.0, c.1)
  }

  /** The first seeding loop: the diagonal of the matrix of every nullable variable. */
  method SeedDiagonal(m: Family, eps: set<Variable>, n: nat) returns (m': Family)
    requires Square(m, n) && eps <= m.Keys
    ensures m'.Keys == m.Keys && Square(m', n)
    ensures forall z :: Holds(m', z) <==> Holds(m, z) || (z.v in eps && z.i == z.j && z.i < n)
  {
    m' := m;
    for i := 0 to n
      invariant m'.Keys == m.Keys && Square(m', n)
      invariant forall z :: Holds(m', z) <==> Holds(m, z) || (z.v in eps && z.i == z.j && z.i < i)
    {
      m' := DiagonalAt(m', eps, i, n);
    }
  }

  /** The inner loop: entry (i, i) of the matrix of every nullable variable. */
  method DiagonalAt(m: Family, eps: set<Variable>, i: nat, n: nat) returns (m': Family)
    requires Square(m, n) && eps <= m.Keys && i < n
    ensures m'.Keys == m.Keys && Square(m', n)
    ensures forall z :: Holds(m', z) <==> Holds(m, z) || (z.v in eps && z.i == i && z.j == i)
  {
    m' := m;
    var todo := eps;
    while todo != {}
      invariant todo <= eps
      invariant m'.Keys == m.Keys && Square(m', n)
      invariant forall z :: Holds(m', z) <==> Holds(m, z) || (z.v in eps - todo && z.i == i && z.j == i)
      decreases todo
    {
      var t :| t in todo;
      m' := m'[t := SetEntry(m'[t], i, i)];
      todo := todo - {t};
    }
  }

  /** The facts one edge gives through the terminal rules in us. */
  function EdgeFacts(us: set<TermRule>, e: Transition): (r: set<Fact>)
    ensures forall z :: z in r <==> z.i == e.from && z.j == e.to && TermRule(z.v, e.symbol) in us
  {
    set u | u in us && u.terminal == e.symbol :: Fact(u.head, e.from, e.to)
  }

  /** Seeding edge by edge: the seeds of done plus those of e. */
  lemma EdgeSeedsAdd(units: set<TermRule>, done: set<Transition>, e: Transition)
    ensures EdgeSeeds(units, done + {e}) == EdgeSeeds(units, done) + EdgeFacts(units, e)
  {
  }

  /** The second seeding loop: for every edge and terminal rule with its label, the edge's entry of the head. */
  method SeedEdges(m: Family, units: set<TermRule>, edges: set<Transition>, n: nat) returns (m': Family)
    requires Square(m, n)
    requires forall u | u in units :: u.head in m
    requires forall e | e in edges :: e.from < n && e.to < n
    ensures m'.Keys == m.Keys && Square(m', n)
    ensures forall z :: Holds(m', z) <==> Holds(m, z) || z in EdgeSeeds(units, edges)
  {
    m' := m;
    var todo := edges;
    ghost var done: set<Transition> := {};
    while todo != {}
      invariant done + todo == edges
      invariant m'.Keys == m.Keys && Square(m', n)
      invariant forall z :: Holds(m', z) <==> Holds(m, z) || z in EdgeSeeds(units, done)
      decreases todo
    {
      var e :| e in todo;
      m' := SeedEdge(m', units, e, n);
      EdgeSeedsAdd(units, done, e);
      todo, done := todo - {e}, done + {e};
    }
  }

  /** The inner loop: the entry of edge e in the matrix of every terminal rule with e's label. */
  method SeedEdge(m: Family, units: set<TermRule>, e: Transition, n: nat) returns (m': Family)
    requires Square(m, n)
    requires forall u | u in units :: u.head in m
    requires e.from < n && e.to < n
    ensures m'.Keys == m.Keys && Square(m', n)
    ensures forall z :: Holds(m', z) <==> Holds(m, z) || z in EdgeFacts(units, e)
  {
    m' := m;
    var rest := units;
    while rest != {}
      invariant rest <= units
      invariant m'.Keys == m.Keys && Square(m', n)
      invariant forall z :: Holds(m', z) <==> Holds(m, z) || (z.i == e.from && z.j == e.to && TermRule(z.v, e.symbol) in units - rest)
      decreases rest
    {
      var u :| u in rest;
      if u.terminal == e.symbol {
        m' := m'[u.head := SetEntry(m'[u.head], e.from, e.to)];
      }
      rest := rest - {u};
    }
  }

  /** Entry c is in the product of some rule of h. */
  ghost predicate Produces(m: Family, h: Variable, c: Cell, rules: set<Rule>, n: nat)
    requires Square(m, n)
    requires forall rule | rule in rules :: rule.left in m && rule.right in m
  {
    exists rule | rule in rules && rule.head == h :: c in Mul(m[rule.left], m[rule.right]).cells
  }

  /** The rule's product is contained in the matrix of its head. */
  ghost predicate Absorbed(m: Family, rule: Rule, n: nat)
    requires Square(m, n) && rule.head in m && rule.left in m && rule.right in m
  {
    Mul(m[rule.left], m[rule.right]).cells <= m[rule.head].cells
  }

  /** The rules of head h: `non_term_prods[h]`. */
  function BodiesOf(rules: set<Rule>, h: Variable): (r: set<Rule>)
    ensures forall rule :: rule in r <==> rule in rules && rule.head == h
  {
    set rule | rule in rules && rule.head == h
  }

  /** What the partial sum over the bodies in done has gathered: every product of done, and only entries of products. */
  ghost predicate Gathered(m: Family, h: Variable, rules: set<Rule>, n: nat, done: set<Rule>, acc: set<Cell>)
    requires Square(m, n) && done <= rules
    requires forall rule | rule in rules :: rule.left in m && rule.right in m
  {
    && (forall rule | rule in done :: Mul(m[rule.left], m[rule.right]).cells <= acc)
    && (forall c | c in acc :: Produces(m, h, c, rules, n))
  }

  /** Adding the product of one more body of h keeps `Gathered`. */
  lemma GatheredStep(m: Family, h: Variable, rules: set<Rule>, n: nat, done: set<Rule>, acc: set<Cell>, rule: Rule)
    requires Square(m, n)
    requires forall rule | rule in rules :: rule.left in m && rule.right in m
    requires rule in rules && rule.head == h && done <= rules
    requires Gathered(m, h, rules, n, done, acc)
    ensures Gathered(m, h, rules, n, done + {rule}, acc + Mul(m[rule.left], m[rule.right]).cells)
  {
    var product := Mul(m[rule.left], m[rule.right]).cells;
    forall r | r in done + {rule}
      ensures Mul(m[r.left], m[r.right]).cells <= acc + product
    {
      if r != rule {
        assert Mul(m[r.left], m[r.right]).cells <= acc;
      }
    }
    forall c | c in acc + product
      ensures Produces(m, h, c, rules, n)
    {
      if c !in acc {
        assert c in Mul(m[rule.left], m[rule.right]).cells;
      }
    }
  }

  /**
   * `sum(matrices[n1] @ matrices[n2] for n1, n2 in non_terms)` for the
   * bodies of head h: the union of the products of every body.
   */
  method SumProducts(m: Family, h: Variable, rules: set<Rule>, n: nat) returns (acc: Matrix)
    requires Square(m, n)
    requires forall rule | rule in rules :: rule.left in m && rule.right in m
    ensures acc.Valid() && acc.rows == n && acc.cols == n
    ensures Gathered(m, h, rules, n, BodiesOf(rules, h), acc.cells)
  {
    acc := Zero(n, n);
    var todo := BodiesOf(rules, h);
    ghost var done: set<Rule> := {};
    while todo != {}
      invariant acc.Valid() && acc.rows == n && acc.cols == n
      invariant done + todo == BodiesOf(rules, h) && done <= rules
      invariant Gathered(m, h, rules, n, done, acc.cells)
      decreases todo
    {
      var rule :| rule in todo;
      var product := Mul(m[rule.left], m[rule.right]);
      GatheredStep(m, h, rules, n, done, acc.cells, rule);
      ghost var prev := acc.cells;
      acc := Or(acc, product);
      assert acc.cells == prev + product.cells;
      todo, done := todo - {rule}, done + {rule};
    }
  }

  /** An entry produced from facts of a closed set gives a fact of that set. */
  lemma ProducedInClosed(m: Family, h: Variable, c: Cell, rules: set<Rule>, n: nat, s: set<Fact>)
    requires Square(m, n)
    requires forall rule | rule in rules :: rule.left in m && rule.right in m
    requires Produces(m, h, c, rules, n)
    requires FactsOf(m) <= s && Closed(s, rules)
    ensures Fact(h, c.0, c.1) in s
  {
    var rule :| rule in rules && rule.head == h && c in Mul(m[rule.left], m[rule.right]).cells;
    var k := MulElim(m[rule.left], m[rule.right], c.0, c.1);
    var x, y := Fact(rule.left, c.0, k), Fact(rule.right, k, c.1);
    assert Holds(m, x) && Holds(m, y);
    assert Joins(x, y, rule);
  }

  /** Products contained in the head matrices make the facts closed. */
  lemma AbsorbedClosed(m: Family, rules: set<Rule>, n: nat)
    requires Square(m, n)
    requires forall rule | rule in rules :: rule.head in m && rule.left in m && rule.right in m
    requires forall rule | rule in rules :: Absorbed(m, rule, n)
    ensures Closed(FactsOf(m), rules)
  {
    forall x, y, rule | x in FactsOf(m) && y in FactsOf(m) && rule in rules && Joins(x, y, rule)
      ensures Joined(x, y, rule) in FactsOf(m)
    {
      MulIntro(m[rule.left], m[rule.right], x.i, x.j, y.j);
      assert Absorbed(m, rule, n);
    }
  }

  /** The matrices of the variables, square of size n, list only facts in range. */
  lemma FactsInRange(m: Family, vars: set<Variable>, n: nat)
    requires m.Keys == vars && Square(m, n)
    ensures FactsOf(m) <= Universe(vars, n)
  {
  }

  /** A strictly growing subset of u leaves strictly less of u. */
  lemma Shrinks(u: set<Fact>, a: set<Fact>, b: set<Fact>)
    requires a < b && b <= u
    ensures u - b < u - a
  {
    var z :| z in b && z !in a;
    assert z in u - a && z !in u - b;
  }

  /** The loop invariant of a pass over the heads, started from m. */
  ghost predicate Passing(m: Family, m': Family, rules: set<Rule>, n: nat, todo: set<Variable>, changed: bool)
    requires Square(m, n)
    requires forall rule | rule in rules :: rule.head in m && rule.left in m && rule.right in m
  {
    && m'.Keys == m.Keys && Square(m', n)
    && FactsOf(m) <= FactsOf(m')
    && (forall s | FactsOf(m) <= s && Closed(s, rules) :: FactsOf(m') <= s)
    && (changed ==> FactsOf(m) < FactsOf(m'))
    && (!changed ==> m' == m && forall rule | rule in rules && rule.head !in todo :: Absorbed(m, rule, n))
  }

  /**
   * One pass of `while True`: for every head, in place, its matrix gains
   * the sum of its bodies' products, and `changed` records whether any
   * entry count moved. An unchanged pass leaves the matrices as they were
   * and they are then closed; otherwise they gained a fact, and every
   * gained fact lies in each closed set that contains the old ones.
   */
  method Pass(m: Family, heads: set<Variable>, rules: set<Rule>, n: nat) returns (m': Family, changed: bool)
    requires Square(m, n) && heads <= m.Keys
    requires forall rule | rule in rules :: rule.head in heads && rule.left in m && rule.right in m
    ensures m'.Keys == m.Keys && Square(m', n)
    ensures FactsOf(m) <= FactsOf(m')
    ensures forall s | FactsOf(m) <= s && Closed(s, rules) :: FactsOf(m') <= s
    ensures changed ==> FactsOf(m) < FactsOf(m')
    ensures !changed ==> m' == m && Closed(FactsOf(m), rules)
  {
    m', changed := m, false;
    var todo := heads;
    while todo != {}
      invariant todo <= heads
      invariant Passing(m, m', rules, n, todo, changed)
      decreases todo
    {
      var h :| h in todo;
      var oldNnz := m'[h].Nnz();
      var acc := SumProducts(m', h, rules, n);
      ghost var prev, was := m', changed;
      m' := m'[h := Or(m'[h], acc)];
      changed := changed || oldNnz != m'[h].Nnz();
      PassStep(m, prev, h, acc, rules, n, todo, was, m');
      todo := todo - {h};
    }
    if !changed {
      AbsorbedClosed(m, rules, n);
    }
  }

  /** One head of a pass keeps `Passing`. */
  lemma PassStep(m: Family, prev: Family, h: Variable, acc: Matrix, rules: set<Rule>, n: nat,
                 todo: set<Variable>, was: bool, next: Family)
    requires Square(m, n) && h in m
    requires forall rule | rule in rules :: rule.head in m && rule.left in m && rule.right in m
    requires Passing(m, prev, rules, n, todo, was)
    requires acc.Valid() && acc.rows == n && acc.cols == n
    requires Gathered(prev, h, rules, n, BodiesOf(rules, h), acc.cells)
    requires next == prev[h := Or(prev[h], acc)]
    ensures next.Keys == m.Keys && Square(next, n)
    ensures FactsOf(m) <= FactsOf(next)
    ensures forall s | FactsOf(m) <= s && Closed(s, rules) :: FactsOf(next) <= s
    ensures was || prev[h].Nnz() != next[h].Nnz() ==> FactsOf(m) < FactsOf(next)
    ensures !(was || prev[h].Nnz() != next[h].Nnz()) ==>
              next == m && forall rule | rule in rules && rule.head !in todo - {h} :: Absorbed(m, rule, n)
  {
    UpdateSquare(prev, h, Or(prev[h], acc), n);
    GrowSound(m, prev, h, acc, rules, n, next);
    if prev[h].Nnz() != next[h].Nnz() {
      GrowStrict(prev, h, acc, next);
    } else if !was {
      Unchanged(prev, h, acc, rules, n, next);
    }
  }

  /** Replacing one matrix of a square family by another n x n matrix keeps it square over the same keys. */
  lemma UpdateSquare(f: Family, h: Variable, a: Matrix, n: nat)
    requires Square(f, n) && h in f && a.Valid() && a.rows == n && a.cols == n
    ensures f[h := a].Keys == f.Keys && Square(f[h := a], n)
  {
  }

  /** A head matrix whose entry count moved has gained an entry, so the facts grew. */
  lemma GrowStrict(prev: Family, h: Variable, acc: Matrix, next: Family)
    requires h in prev && prev[h].rows == acc.rows && prev[h].cols == acc.cols && prev[h].Valid() && acc.Valid()
    requires next == prev[h := Or(prev[h], acc)]
    requires prev[h].Nnz() != next[h].Nnz()
    ensures FactsOf(prev) < FactsOf(next)
  {
    assert prev[h].cells <= next[h].cells && prev[h].cells != next[h].cells;
    var c :| c in next[h].cells && c !in prev[h].cells;
    assert Fact(h, c.0, c.1) in FactsOf(next) && Fact(h, c.0, c.1) !in FactsOf(prev);
    assert FactsOf(prev) <= FactsOf(next);
  }

  /** A head matrix whose entry count did not move is unchanged, and it already holds its bodies' products. */
  lemma Unchanged(prev: Family, h: Variable, acc: Matrix, rules: set<Rule>, n: nat, next: Family)
    requires Square(prev, n) && h in prev
    requires forall rule | rule in rules :: rule.head in prev && rule.left in prev && rule.right in prev
    requires acc.Valid() && acc.rows == n && acc.cols == n
    requires Gathered(prev, h, rules, n, BodiesOf(rules, h), acc.cells)
    requires next == prev[h := Or(prev[h], acc)]
    requires prev[h].Nnz() == next[h].Nnz()
    ensures next == prev
    ensures forall rule | rule in rules && rule.head == h :: Absorbed(prev, rule, n)
  {
    SameCountNoGrowth(prev[h].cells, next[h].cells);
    assert next[h] == prev[h];
    forall rule | rule in rules && rule.head == h
      ensures Absorbed(prev, rule, n)
    {
      assert rule in BodiesOf(rules, h);
    }
  }

  /** The head's matrix gains products of facts it had: the facts grow, and stay in every closed superset of those of m. */
  lemma GrowSound(m: Family, prev: Family, h: Variable, acc: Matrix, rules: set<Rule>, n: nat, next: Family)
    requires Square(prev, n) && h in prev
    requires forall rule | rule in rules :: rule.left in prev && rule.right in prev
    requires forall s | FactsOf(m) <= s && Closed(s, rules) :: FactsOf(prev) <= s
    requires acc.Valid() && acc.rows == n && acc.cols == n
    requires forall c | c in acc.cells :: Produces(prev, h, c, rules, n)
    requires next == prev[h := Or(prev[h], acc)]
    ensures FactsOf(prev) <= FactsOf(next)
    ensures forall s | FactsOf(m) <= s && Closed(s, rules) :: FactsOf(next) <= s
  {
    forall s | FactsOf(m) <= s && Closed(s, rules)
      ensures FactsOf(next) <= s
    {
      forall z | z in FactsOf(next)
        ensures z in s
      {
        if !Holds(prev, z) {
          ProducedInClosed(prev, h, (z.i, z.j), rules, n, s);
        }
      }
    }
  }

  /** The matrices after the two seeding loops list exactly the seeds. */
  method SeedMatrices(gr: Grammar, g: Graph, eps: set<Variable>, units: set<TermRule>) returns (matrices: Family)
    requires WeakNormal(gr) && GraphValid(g)
    requires eps == Nullable(gr.productions) && units == TerminalRules(gr.productions)
    ensures matrices.Keys == gr.variables && Square(matrices, g.size)
    ensures FactsOf(matrices) == Seeds(gr, g)
  {
    var n := g.size;
    matrices := map v | v in gr.variables :: Zero(n, n);
    assert forall z :: !Holds(matrices, z);
    matrices := SeedDiagonal(matrices, eps, n);
    matrices := SeedEdges(matrices, units, g.edges, n);
  }

  /**
   * `while True` over the passes: it stops after a pass that changed no
   * entry count, and the facts are then the least closed set.
   */
  method Fixpoint(m: Family, heads: set<Variable>, rules: set<Rule>, n: nat, ghost seeds: set<Fact>,
                  ghost vars: set<Variable>)
    returns (m': Family)
    requires m.Keys == vars && Square(m, n) && heads <= vars
    requires forall rule | rule in rules :: rule.head in heads && rule.left in m && rule.right in m
    requires FactsOf(m) == seeds
    ensures Least(FactsOf(m'), seeds, rules)
  {
    m' := m;
    while true
      invariant m'.Keys == vars && Square(m', n)
      invariant seeds <= FactsOf(m')
      invariant Sound(FactsOf(m'), seeds, rules)
      decreases Universe(vars, n) - FactsOf(m')
    {
      var next, changed := Pass(m', heads, rules, n);
      if !changed {
        break;
      }
      FactsInRange(next, vars, n);
      Shrinks(Universe(vars, n), FactsOf(m'), FactsOf(next));
      m' := next;
    }
  }

  /**
   * `cf_closure` / `_cf_closure`: a zero matrix per variable, the two
   * seeding loops, passes until one changes nothing, then the (i, v, j)
   * triples of the true entries. The result is the least closed set of
   * facts, the set the Hellings algorithm computes.
   */
  method CfClosure(gr: Grammar, g: Graph) returns (r: set<(nat, Variable, nat)>)
    requires WeakNormal(gr) && GraphValid(g)
    ensures Least(FromIvj(r), Seeds(gr, g), BinaryRules(gr.productions))
  {
    var eps, units, rules := SplitProductions(gr.productions);
    var matrices := SeedMatrices(gr, g, eps, units);
    var heads := RuleHeads(rules);
    matrices := Fixpoint(matrices, heads, rules, g.size, Seeds(gr, g), gr.variables);
    r := IvjOf(FactsOf(matrices));
    assert FromIvj(r) == FactsOf(matrices);
  }
}
