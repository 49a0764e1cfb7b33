/// CYK membership (`project/cyk.py`). The grammar arrives already in
/// Chomsky normal form (the grammar library converts it) together with
/// whether the original grammar generates the empty word. The table `M`
/// maps each variable to an n x n table of booleans; entry (i, j) of
/// variable A says that A derives query[i..j]. It is filled by the
/// classical triple loop over span, start position and split point. The
/// answer agrees with the least closed set of facts that Hellings and the
/// matrix algorithm compute, on the graph that spells the query.
module Cyk {
  import opened Walks
  import opened Automata
  import opened Grammars

  /**
   * Chomsky normal form as the table relies on it: the start symbol and
   * every head are variables, and each body is one terminal or two
   * variables of the grammar.
   */
  predicate ChomskyNormal(gr: Grammar) {
    && gr.start in gr.variables
    && forall p | p in gr.productions ::
         && p.head in gr.variables
         && ((|p.body| == 1 && p.body[0].Term?)
             || (|p.body| == 2 && p.body[0].Var? && p.body[1].Var?
                 && p.body[0].name in gr.variables && p.body[1].name in gr.variables))
  }

  /** The query spelled as a graph: vertices 0, ..., n and an edge labelled q[i] from i to i + 1. */
  function Line(q: string): (g: Graph)
    ensures g.size == |q| + 1 && GraphValid(g)
    ensures forall e :: e in g.edges <==> e.from < |q| && e.to == e.from + 1 && e.symbol == [q[e.from]]
  {
    Graph(|q| + 1, set i | 0 <= i < |q| :: Transition(i, [q[i]], i + 1))
  }

  /**
   * The grammar generates q: every set of facts over the graph that
   * spells q, containing the seeds and closed under the binary rules,
   * says that the start symbol derives the whole query.
   */
  ghost predicate Generates(gr: Grammar, q: string) {
    forall s | Seeds(gr, Line(q)) <= s && Closed(s, BinaryRules(gr.productions)) :: Fact(gr.start, 0, |q|) in s
  }

  /** The CYK recurrence: variable v derives q[i..j] (both ends included). */
  ghost predicate Gen(units: set<TermRule>, rules: set<Rule>, q: string, v: Variable, i: nat, j: nat)
    requires i <= j < |q|
    decreases j - i, 1
  {
    if i == j then TermRule(v, [q[i]]) in units
    else exists k: nat | i <= k < j :: SplitAt(units, rules, q, v, i, k, j)
  }

  /** Some rule of v splits q[i..j] after position k. */
  ghost predicate SplitAt(units: set<TermRule>, rules: set<Rule>, q: string, v: Variable, i: nat, k: nat, j: nat)
    requires i <= k < j < |q|
    decreases j - i, 0
  {
    exists r | r in rules :: r.head == v && Gen(units, rules, q, r.left, i, k) && Gen(units, rules, q, r.right, k + 1, j)
  }

  /** Some binary production of sub with head v splits q[i..j] after position k. */
  ghost predicate Splits(units: set<TermRule>, rules: set<Rule>, sub: set<Production>, q: string, v: Variable, i: nat, k: nat, j: nat)
    requires i <= k < j < |q|
  {
    exists p | p in sub :: |p.body| == 2 && p.head == v && Gen(units, rules, q, p.body[0].name, i, k) && Gen(units, rules, q, p.body[1].name, k + 1, j)
  }

  /** Some rule of v splits q[i..j] after a position before k. */
  ghost predicate SplitBefore(units: set<TermRule>, rules: set<Rule>, q: string, v: Variable, i: nat, k: nat, j: nat)
    requires i <= k <= j < |q|
  {
    exists k': nat | i <= k' < k :: SplitAt(units, rules, q, v, i, k', j)
  }

  /** The table `M`: each variable's n x n entries. */
  type Table = map<Variable, seq<seq<bool>>>

  predicate Shaped(t: Table, n: nat) {
    forall v | v in t :: |t[v]| == n && forall a | 0 <= a < n :: |t[v][a]| == n
  }

  /** `M = {v: [[False ...] ...] for v in variables}`. */
  function Blank(vars: set<Variable>, n: nat): (t: Table)
    ensures t.Keys == vars && Shaped(t, n)
    ensures forall v, a, b | v in t && 0 <= a < n && 0 <= b < n :: !t[v][a][b]
  {
    map v | v in vars :: seq(n, _ => seq(n, _ => false))
  }

  /** `M[v][a][b] = x`, every other entry kept. */
  function Put(t: Table, n: nat, v: Variable, a: nat, b: nat, x: bool): (r: Table)
    requires Shaped(t, n) && v in t && a < n && b < n
    ensures r.Keys == t.Keys && Shaped(r, n)
    ensures r[v][a][b] == x
    ensures forall u, c, d | u in t && 0 <= c < n && 0 <= d < n && (u != v || c != a || d != b) :: r[u][c][d] == t[u][c][d]
  {
    t[v := t[v][a := t[v][a][b := x]]]
  }

  /**
   * The entry of v at (a, b) once every span shorter than m, and the
   * span m from every start before i, is filled: entries below the
   * diagonal and entries not reached yet stay false.
   */
  ghost predicate Expected(units: set<TermRule>, rules: set<Rule>, q: string, v: Variable, a: nat, b: nat, m: nat, i: nat)
    requires a < |q| && b < |q|
  {
    a <= b && (b - a < m || (b - a == m && a < i)) && Gen(units, rules, q, v, a, b)
  }

  /** Every entry of the table is as expected at stage (m, i). */
  ghost predicate Fits(t: Table, units: set<TermRule>, rules: set<Rule>, q: string, m: nat, i: nat) {
    && Shaped(t, |q|)
    && forall v, a: nat, b: nat | v in t && a < |q| && b < |q| :: t[v][a][b] == Expected(units, rules, q, v, a, b, m, i)
  }

  /** Every entry but those at (i, j) is as expected at stage (m, i). */
  ghost predicate FitsBut(t: Table, units: set<TermRule>, rules: set<Rule>, q: string, m: nat, i: nat, j: nat) {
    && Shaped(t, |q|)
    && forall v, a: nat, b: nat | v in t && a < |q| && b < |q| && (a != i || b != j) ::
         t[v][a][b] == Expected(units, rules, q, v, a, b, m, i)
  }

  /** The loop that sorts the normal-form productions: one-element bodies are terminal productions, the rest binary. */
  method CykSplit(ps: set<Production>) returns (terms: set<Production>, bins: set<Production>)
    ensures forall p :: p in terms <==> p in ps && |p.body| == 1
    ensures forall p :: p in bins <==> p in ps && |p.body| != 1
  {
    terms, bins := {}, {};
    var todo := ps;
    while todo != {}
      invariant todo <= ps
      invariant forall p :: p in terms <==> p in ps - todo && |p.body| == 1
      invariant forall p :: p in bins <==> p in ps - todo && |p.body| != 1
      decreases todo
    {
      var p :| p in todo;
      if |p.body| == 1 {
        terms := terms + {p};
      } else {
        bins := bins + {p};
      }
      todo := todo - {p};
    }
  }

  /**
   * The first loop: for every position i, `M[p.head][i][i] = True` for the
   * terminal productions whose terminal is query[i]. Afterwards the
   * one-letter spans are filled.
   */
  method BaseCase(t0: Table, terms: set<Production>, q: string, ghost rules: set<Rule>) returns (t: Table)
    requires forall p | p in terms :: |p.body| == 1 && p.head in t0
    requires Fits(t0, TerminalRules(terms), rules, q, 0, 0)
    ensures t.Keys == t0.Keys && Fits(t, TerminalRules(terms), rules, q, 1, 0)
  {
    t := t0;
    var i := 0;
    while i < |q|
      invariant 0 <= i <= |q| && t.Keys == t0.Keys && Fits(t, TerminalRules(terms), rules, q, 0, i)
    {
      t := BaseRow(t, terms, q, i, rules);
      i := i + 1;
    }
  }

  /** One pass of the first loop: the terminal productions of query[i] mark their heads at (i, i). */
  method BaseRow(t0: Table, terms: set<Production>, q: string, i: nat, ghost rules: set<Rule>) returns (t: Table)
    requires forall p | p in terms :: |p.body| == 1 && p.head in t0
    requires i < |q| && Fits(t0, TerminalRules(terms), rules, q, 0, i)
    ensures t.Keys == t0.Keys && Fits(t, TerminalRules(terms), rules, q, 0, i + 1)
  {
    ghost var units := TerminalRules(terms);
    var s := q[i];
    var prods := set p | p in terms && p.body[0].name == [s];
    t := t0;
    var todo := prods;
    ghost var done: set<Production> := {};
    while todo != {}
      invariant done + todo == prods && t.Keys == t0.Keys && FitsBut(t, units, rules, q, 0, i, i)
      invariant BaseCell(t, done, i) && Shaped(t, |q|)
      decreases todo
    {
      var p :| p in todo;
      BaseStep(t, units, rules, done, q, i, p);
      t := Put(t, |q|, p.head, i, i, true);
      todo, done := todo - {p}, done + {p};
    }
    BaseComplete(t, terms, prods, q, i, rules);
  }

  /** Entry (i, i) marks exactly the heads of sub. */
  ghost predicate BaseCell(t: Table, sub: set<Production>, i: nat) {
    forall v | v in t && i < |t[v]| && i < |t[v][i]| :: t[v][i][i] == exists p | p in sub :: p.head == v
  }

  /** One update of the first loop keeps the table as expected and marks one more head. */
  lemma BaseStep(t: Table, units: set<TermRule>, rules: set<Rule>, sub: set<Production>, q: string, i: nat, p: Production)
    requires i < |q| && p.head in t
    requires FitsBut(t, units, rules, q, 0, i, i) && BaseCell(t, sub, i)
    ensures var t' := Put(t, |q|, p.head, i, i, true);
            FitsBut(t', units, rules, q, 0, i, i) && BaseCell(t', sub + {p}, i)
  {
  }

  /** Having marked the heads of query[i]'s terminal productions, the one-letter spans up to i are filled. */
  lemma BaseComplete(t: Table, terms: set<Production>, prods: set<Production>, q: string, i: nat, rules: set<Rule>)
    requires i < |q| && forall p | p in terms :: |p.body| == 1
    requires forall p :: p in prods <==> p in terms && p.body[0].name == [q[i]]
    requires FitsBut(t, TerminalRules(terms), rules, q, 0, i, i)
    requires BaseCell(t, prods, i)
    ensures Fits(t, TerminalRules(terms), rules, q, 0, i + 1)
  {
    var units := TerminalRules(terms);
    forall v | v in t
      ensures t[v][i][i] == Expected(units, rules, q, v, i, i, 0, i + 1)
    {
      if t[v][i][i] {
        var p :| p in prods && p.head == v;
        assert TermRule(p.head, p.body[0].name) in units;
      }
      if TermRule(v, [q[i]]) in units {
        var p :| p in terms && |p.body| == 1 && TermRule(v, [q[i]]) == TermRule(p.head, p.body[0].name);
        assert p in prods;
      }
    }
  }

  /**
   * The innermost loop: for every binary production A -> B C,
   * `M[A][i][j] = M[A][i][j] or (M[B][i][k] and M[C][k + 1][j])`.
   * Afterwards entry (i, j) records the splits after positions up to k.
   */
  method FillSplit(t0: Table, bins: set<Production>, q: string, i: nat, k: nat, j: nat,
                   ghost units: set<TermRule>, ghost m: nat)
    returns (t: Table)
    requires forall p | p in bins :: |p.body| == 2 && p.head in t0 && p.body[0].name in t0 && p.body[1].name in t0
    requires i <= k < j < |q| && j == i + m
    requires FitsBut(t0, units, BinaryRules(bins), q, m, i, j)
    requires forall v | v in t0 :: t0[v][i][j] == SplitBefore(units, BinaryRules(bins), q, v, i, k, j)
    ensures t.Keys == t0.Keys && FitsBut(t, units, BinaryRules(bins), q, m, i, j)
    ensures forall v | v in t :: t[v][i][j] == SplitBefore(units, BinaryRules(bins), q, v, i, k + 1, j)
  {
    ghost var rules := BinaryRules(bins);
    var n := |q|;
    t := t0;
    var todo := bins;
    ghost var done: set<Production> := {};
    while todo != {}
      invariant done + todo == bins && t.Keys == t0.Keys && FitsBut(t, units, rules, q, m, i, j)
      invariant SplitCell(t, units, rules, done, q, i, k, j)
      decreases todo
    {
      var p :| p in todo;
      SplitStep(t, units, rules, done, q, m, i, k, j, p);
      t := Combine(t, n, p, i, k, j);
      todo, done := todo - {p}, done + {p};
    }
    SplitsComplete(units, bins, q, i, k, j);
  }

  /** Entry (i, j), having seen every binary production at split k, records the splits up to k. */
  lemma SplitsComplete(units: set<TermRule>, bins: set<Production>, q: string, i: nat, k: nat, j: nat)
    requires i <= k < j < |q|
    ensures forall v :: (SplitBefore(units, BinaryRules(bins), q, v, i, k, j) || Splits(units, BinaryRules(bins), bins, q, v, i, k, j))
                        == SplitBefore(units, BinaryRules(bins), q, v, i, k + 1, j)
  {
    var rules := BinaryRules(bins);
    forall v
      ensures Splits(units, rules, bins, q, v, i, k, j) == SplitAt(units, rules, q, v, i, k, j)
    {
      if Splits(units, rules, bins, q, v, i, k, j) {
        var p :| p in bins && |p.body| == 2 && p.head == v && Gen(units, rules, q, p.body[0].name, i, k) && Gen(units, rules, q, p.body[1].name, k + 1, j);
        assert Rule(p.head, p.body[0].name, p.body[1].name) in rules;
      }
      if SplitAt(units, rules, q, v, i, k, j) {
        var r :| r in rules && r.head == v && Gen(units, rules, q, r.left, i, k) && Gen(units, rules, q, r.right, k + 1, j);
        var p :| p in bins && |p.body| == 2 && r == Rule(p.head, p.body[0].name, p.body[1].name);
      }
    }
  }

  /** `M[A][i][j] = M[A][i][j] or (M[B][i][k] and M[C][k + 1][j])` for the production A -> B C. */
  method Combine(t: Table, n: nat, p: Production, i: nat, k: nat, j: nat) returns (t': Table)
    requires Shaped(t, n) && i <= k < j < n
    requires |p.body| == 2 && p.head in t && p.body[0].name in t && p.body[1].name in t
    ensures t' == Put(t, n, p.head, i, j, t[p.head][i][j] || (t[p.body[0].name][i][k] && t[p.body[1].name][k + 1][j]))
  {
    var head, left, right := p.head, p.body[0].name, p.body[1].name;
    t' := Put(t, n, head, i, j, t[head][i][j] || (t[left][i][k] && t[right][k + 1][j]));
  }

  /** Entry (i, j) records the splits before k and those of sub after k. */
  ghost predicate SplitCell(t: Table, units: set<TermRule>, rules: set<Rule>, sub: set<Production>, q: string, i: nat, k: nat, j: nat)
    requires i <= k < j < |q| && Shaped(t, |q|)
  {
    forall v | v in t :: t[v][i][j] == (SplitBefore(units, rules, q, v, i, k, j) || Splits(units, rules, sub, q, v, i, k, j))
  }

  /** One update of the innermost loop keeps the table as expected and adds the rule's split to entry (i, j). */
  lemma SplitStep(t: Table, units: set<TermRule>, rules: set<Rule>, sub: set<Production>, q: string, m: nat, i: nat, k: nat, j: nat,
                  p: Production)
    requires i <= k < j < |q| && j == i + m
    requires |p.body| == 2 && p.head in t && p.body[0].name in t && p.body[1].name in t
    requires FitsBut(t, units, rules, q, m, i, j) && SplitCell(t, units, rules, sub, q, i, k, j)
    ensures var head, left, right := p.head, p.body[0].name, p.body[1].name;
            var t' := Put(t, |q|, head, i, j, t[head][i][j] || (t[left][i][k] && t[right][k + 1][j]));
            FitsBut(t', units, rules, q, m, i, j) && SplitCell(t', units, rules, sub + {p}, q, i, k, j)
  {
    var left, right := p.body[0].name, p.body[1].name;
    assert t[left][i][k] == Gen(units, rules, q, left, i, k) by {
      assert Expected(units, rules, q, left, i, k, m, i) == Gen(units, rules, q, left, i, k);
    }
    assert t[right][k + 1][j] == Gen(units, rules, q, right, k + 1, j) by {
      assert Expected(units, rules, q, right, k + 1, j, m, i) == Gen(units, rules, q, right, k + 1, j);
    }
    SplitsAdd(units, rules, sub, p, q, i, k, j);
  }

  /** Adding a production adds exactly its own split. */
  lemma SplitsAdd(units: set<TermRule>, rules: set<Rule>, sub: set<Production>, p: Production, q: string, i: nat, k: nat, j: nat)
    requires i <= k < j < |q| && |p.body| == 2
    ensures forall v :: Splits(units, rules, sub + {p}, q, v, i, k, j) ==
              (Splits(units, rules, sub, q, v, i, k, j)
               || (p.head == v && Gen(units, rules, q, p.body[0].name, i, k) && Gen(units, rules, q, p.body[1].name, k + 1, j)))
  {
  }

  /**
   * The loop over split points for one entry: `for k in range(i, j)`.
   * Afterwards entry (i, j) holds the recurrence and the next start of
   * the span is due.
   */
  method FillCell(t0: Table, bins: set<Production>, q: string, i: nat, j: nat,
                  ghost units: set<TermRule>, ghost m: nat)
    returns (t: Table)
    requires forall p | p in bins :: |p.body| == 2 && p.head in t0 && p.body[0].name in t0 && p.body[1].name in t0
    requires 1 <= m && j == i + m && j < |q|
    requires Fits(t0, units, BinaryRules(bins), q, m, i)
    ensures t.Keys == t0.Keys && Fits(t, units, BinaryRules(bins), q, m, i + 1)
  {
    ghost var rules := BinaryRules(bins);
    t := t0;
    var k := i;
    while k < j
      invariant i <= k <= j && t.Keys == t0.Keys && FitsBut(t, units, rules, q, m, i, j)
      invariant forall v | v in t :: t[v][i][j] == SplitBefore(units, rules, q, v, i, k, j)
    {
      t := FillSplit(t, bins, q, i, k, j, units, m);
      k := k + 1;
    }
    CellDone(t, units, rules, q, m, i, j);
  }

  /** Once entry (i, j) holds the recurrence, the table is as expected with start i done. */
  lemma CellDone(t: Table, units: set<TermRule>, rules: set<Rule>, q: string, m: nat, i: nat, j: nat)
    requires 1 <= m && j == i + m && j < |q|
    requires FitsBut(t, units, rules, q, m, i, j)
    requires forall v | v in t :: t[v][i][j] == SplitBefore(units, rules, q, v, i, j, j)
    ensures Fits(t, units, rules, q, m, i + 1)
  {
    forall v, a: nat, b: nat | v in t && a < |q| && b < |q|
      ensures t[v][a][b] == Expected(units, rules, q, v, a, b, m, i + 1)
    {
      if a == i && b == j {
        assert Gen(units, rules, q, v, i, j) == SplitBefore(units, rules, q, v, i, j, j);
      } else {
        assert Expected(units, rules, q, v, a, b, m, i) == Expected(units, rules, q, v, a, b, m, i + 1);
      }
    }
  }

  /** The loop over start positions for one span length m: `for i in range(n - m)`. */
  method FillSpan(t0: Table, bins: set<Production>, q: string, m: nat, ghost units: set<TermRule>) returns (t: Table)
    requires forall p | p in bins :: |p.body| == 2 && p.head in t0 && p.body[0].name in t0 && p.body[1].name in t0
    requires 1 <= m < |q| && Fits(t0, units, BinaryRules(bins), q, m, 0)
    ensures t.Keys == t0.Keys && Fits(t, units, BinaryRules(bins), q, m + 1, 0)
  {
    t := t0;
    var i := 0;
    while i < |q| - m
      invariant 0 <= i <= |q| - m && t.Keys == t0.Keys && Fits(t, units, BinaryRules(bins), q, m, i)
    {
      t := FillCell(t, bins, q, i, i + m, units, m);
      i := i + 1;
    }
    SpanDone(t, units, BinaryRules(bins), q, m);
  }

  /** Every start of span m done is the same stage as no start of span m + 1 done. */
  lemma SpanDone(t: Table, units: set<TermRule>, rules: set<Rule>, q: string, m: nat)
    requires m < |q| && Fits(t, units, rules, q, m, |q| - m)
    ensures Fits(t, units, rules, q, m + 1, 0)
  {
    forall v, a: nat, b: nat | v in t && a < |q| && b < |q|
      ensures t[v][a][b] == Expected(units, rules, q, v, a, b, m + 1, 0)
    {
      assert t[v][a][b] == Expected(units, rules, q, v, a, b, m, |q| - m);
    }
  }

  /**
   * `cyk`: the empty query is answered by whether the grammar generates
   * the empty word; otherwise the table is filled and the answer is the
   * start symbol's entry for the whole query, which holds exactly when
   * the normal-form grammar generates the query.
   */
  method Cyk(nf: Grammar, generatesEpsilon: bool, query: string) returns (result: bool)
    requires ChomskyNormal(nf)
    ensures |query| == 0 ==> result == generatesEpsilon
    ensures |query| > 0 ==> (result <==> Generates(nf, query))
  {
    if |query| == 0 {
      return generatesEpsilon;
    }
    var terms, bins := CykSplit(nf.productions);
    ghost var units, rules := TerminalRules(terms), BinaryRules(bins);
    SameRules(nf, terms, bins);
    var n := |query|;
    var t := Blank(nf.variables, n);
    t := BaseCase(t, terms, query, rules);
    var m := 1;
    while m < n
      invariant 1 <= m <= n && t.Keys == nf.variables && Fits(t, units, rules, query, m, 0)
    {
      t := FillSpan(t, bins, query, m, units);
      m := m + 1;
    }
    result := t[nf.start][0][n - 1];
    assert result == Gen(units, rules, query, nf.start, 0, n - 1);
    GenGenerates(nf, query);
  }

  /** The sorted productions give the grammar's own terminal and binary rules. */
  lemma SameRules(nf: Grammar, terms: set<Production>, bins: set<Production>)
    requires ChomskyNormal(nf)
    requires forall p :: p in terms <==> p in nf.productions && |p.body| == 1
    requires forall p :: p in bins <==> p in nf.productions && |p.body| != 1
    ensures TerminalRules(terms) == TerminalRules(nf.productions)
    ensures BinaryRules(bins) == BinaryRules(nf.productions)
    ensures forall p | p in bins :: |p.body| == 2 && p.body[0].name in nf.variables && p.body[1].name in nf.variables
  {
    assert TerminalRules(terms) == TerminalRules(nf.productions) by {
      forall u | u in TerminalRules(nf.productions)
        ensures u in TerminalRules(terms)
      {
        var p :| p in nf.productions && |p.body| == 1 && u == TermRule(p.head, p.body[0].name);
        assert p in terms;
      }
    }
    assert BinaryRules(bins) == BinaryRules(nf.productions) by {
      forall r | r in BinaryRules(nf.productions)
        ensures r in BinaryRules(bins)
      {
        var p :| p in nf.productions && |p.body| == 2 && r == Rule(p.head, p.body[0].name, p.body[1].name);
        assert p in bins;
      }
    }
  }

  /** The facts the recurrence establishes, over the graph that spells q. */
  ghost function Spans(vars: set<Variable>, units: set<TermRule>, rules: set<Rule>, q: string): (r: set<Fact>)
    ensures forall z :: z in r <==> z.v in vars && z.i < z.j <= |q| && Gen(units, rules, q, z.v, z.i, z.j - 1)
  {
    set v, i: nat, j: nat | v in vars && i < j <= |q| && Gen(units, rules, q, v, i, j - 1) :: Fact(v, i, j)
  }

  /** A normal-form grammar has no empty bodies, so its seeds are the edge seeds. */
  lemma CnfSeeds(nf: Grammar, q: string)
    requires ChomskyNormal(nf)
    ensures forall z: Fact :: z in Seeds(nf, Line(q)) <==>
              z.i < |q| && z.j == z.i + 1 && TermRule(z.v, [q[z.i]]) in TerminalRules(nf.productions)
  {
    assert Nullable(nf.productions) == {};
    var units := TerminalRules(nf.productions);
    forall z: Fact | z.i < |q| && z.j == z.i + 1 && TermRule(z.v, [q[z.i]]) in units
      ensures z in Seeds(nf, Line(q))
    {
      assert Transition(z.i, [q[z.i]], z.i + 1) in Line(q).edges;
    }
  }

  /** Whatever the recurrence establishes, every closed superset of the seeds holds. */
  lemma {:induction false} GenClosed(nf: Grammar, q: string, s: set<Fact>, v: Variable, i: nat, j: nat)
    requires ChomskyNormal(nf) && i <= j < |q|
    requires Seeds(nf, Line(q)) <= s && Closed(s, BinaryRules(nf.productions))
    requires Gen(TerminalRules(nf.productions), BinaryRules(nf.productions), q, v, i, j)
    ensures Fact(v, i, j + 1) in s
    decreases j - i
  {
    var units, rules := TerminalRules(nf.productions), BinaryRules(nf.productions);
    CnfSeeds(nf, q);
    if i < j {
      var k: nat :| i <= k < j && SplitAt(units, rules, q, v, i, k, j);
      var r :| r in rules && r.head == v && Gen(units, rules, q, r.left, i, k) && Gen(units, rules, q, r.right, k + 1, j);
      GenClosed(nf, q, s, r.left, i, k);
      GenClosed(nf, q, s, r.right, k + 1, j);
      assert Joins(Fact(r.left, i, k + 1), Fact(r.right, k + 1, j + 1), r);
    }
  }

  /** The facts the recurrence establishes contain the seeds and are closed. */
  lemma SpansClosed(nf: Grammar, q: string)
    requires ChomskyNormal(nf)
    ensures var s := Spans(nf.variables, TerminalRules(nf.productions), BinaryRules(nf.productions), q);
            Seeds(nf, Line(q)) <= s && Closed(s, BinaryRules(nf.productions))
  {
    var units, rules := TerminalRules(nf.productions), BinaryRules(nf.productions);
    var s := Spans(nf.variables, units, rules, q);
    CnfSeeds(nf, q);
    forall z | z in Seeds(nf, Line(q))
      ensures z in s
    {
      var u := TermRule(z.v, [q[z.i]]);
      var p :| p in nf.productions && |p.body| == 1 && u == TermRule(p.head, p.body[0].name);
    }
    forall x, y, r | x in s && y in s && r in rules && Joins(x, y, r)
      ensures Joined(x, y, r) in s
    {
      assert SplitAt(units, rules, q, r.head, x.i, x.j - 1, y.j - 1);
      assert Gen(units, rules, q, r.head, x.i, y.j - 1);
    }
  }

  /** The recurrence for the start symbol over the whole query is exactly generation. */
  lemma GenGenerates(nf: Grammar, q: string)
    requires ChomskyNormal(nf) && |q| > 0
    ensures Gen(TerminalRules(nf.productions), BinaryRules(nf.productions), q, nf.start, 0, |q| - 1) <==> Generates(nf, q)
  {
    if Gen(TerminalRules(nf.productions), BinaryRules(nf.productions), q, nf.start, 0, |q| - 1) {
      GenSound(nf, q);
    }
    if Generates(nf, q) {
      GenComplete(nf, q);
    }
  }

  /** What the recurrence establishes for the start symbol is generated. */
  lemma GenSound(nf: Grammar, q: string)
    requires ChomskyNormal(nf) && |q| > 0
    requires Gen(TerminalRules(nf.productions), BinaryRules(nf.productions), q, nf.start, 0, |q| - 1)
    ensures Generates(nf, q)
  {
    forall s | Seeds(nf, Line(q)) <= s && Closed(s, BinaryRules(nf.productions))
      ensures Fact(nf.start, 0, |q|) in s
    {
      GenClosed(nf, q, s, nf.start, 0, |q| - 1);
    }
  }

  /** What is generated the recurrence establishes for the start symbol. */
  lemma GenComplete(nf: Grammar, q: string)
    requires ChomskyNormal(nf) && |q| > 0 && Generates(nf, q)
    ensures Gen(TerminalRules(nf.productions), BinaryRules(nf.productions), q, nf.start, 0, |q| - 1)
  {
    var s := Spans(nf.variables, TerminalRules(nf.productions), BinaryRules(nf.productions), q);
    SpansClosed(nf, q);
    GeneratedIn(nf, q, s);
  }

  /** Generation puts the start symbol's fact for the whole query in every closed superset of the seeds. */
  lemma GeneratedIn(nf: Grammar, q: string, s: set<Fact>)
    requires Generates(nf, q) && Seeds(nf, Line(q)) <= s && Closed(s, BinaryRules(nf.productions))
    ensures Fact(nf.start, 0, |q|) in s
  {
  }
}
