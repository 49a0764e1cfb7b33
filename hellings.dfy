/// The Hellings algorithm (`project/hellings.py` and `_hellings` in
/// `project/cfg/cfpq_algo.py`, the same loop with the triple components in
/// another order): the seeds go into the result r and into a queue m; each
/// fact taken off the queue is joined, by every binary rule, with every
/// fact of r on its left and on its right, and the conclusions not yet in r
/// are queued and added. The result is the least closed set of facts.
module Hellings {
  import opened Walks
  import opened Automata
  import opened Grammars

  /** Each queued fact is in r; no pair of facts of r misses its conclusion unless one of them is still queued. */
  ghost predicate Pending(r: set<Fact>, m: seq<Fact>, rules: set<Rule>) {
    forall x, y, rule | x in r && y in r && rule in rules && Joins(x, y, rule) ::
      Joined(x, y, rule) in r || x in m || y in m
  }

  /** The list of a set in some order: `deque(r.copy())`. */
  method Enumerate(s: set<Fact>) returns (q: seq<Fact>)
    ensures forall z :: z in q <==> z in s
  {
    q := [];
    var todo := s;
    while todo != {}
      invariant todo <= s
      invariant forall z :: z in q <==> z in s - todo
      decreases todo
    {
      var z :| z in todo;
      q, todo := q + [z], todo - {z};
    }
  }

  /**
   * One inner loop over the heads of the binary rules: for every rule
   * `head -> a.v b.v`, the conclusion (head, a.i, b.j) is queued and kept
   * when r lacks it. The caller has checked that a ends where b starts.
   */
  method JoinHeads(r: set<Fact>, a: Fact, b: Fact, heads: set<Variable>, rules: set<Rule>)
    returns (found: set<Fact>, queued: seq<Fact>)
    requires a.j == b.i
    requires forall rule | rule in rules :: rule.head in heads
    ensures forall z :: z in queued <==> z in found
    ensures queued == [] <==> found == {}
    ensures forall rule | rule in rules && Joins(a, b, rule) :: Joined(a, b, rule) in r + found
    ensures forall z | z in found :: z !in r && Concludes(a, b, z, rules)
  {
    found, queued := {}, [];
    var todo := heads;
    while todo != {}
      invariant todo <= heads
      invariant forall z :: z in queued <==> z in found
      invariant queued == [] <==> found == {}
      invariant forall rule | rule in rules && Joins(a, b, rule) && rule.head !in todo :: Joined(a, b, rule) in r + found
      invariant forall z | z in found :: z !in r && Concludes(a, b, z, rules)
      decreases todo
    {
      var head :| head in todo;
      var z := Fact(head, a.i, b.j);
      if Rule(head, a.v, b.v) in rules && z !in r {
        queued, found := queued + [z], found + {z};
      }
      todo := todo - {head};
    }
  }

  /** Every conclusion of x with a fact of ys, on either side, is in out. */
  ghost predicate JoinedWith(ys: set<Fact>, x: Fact, rules: set<Rule>, out: set<Fact>) {
    && (forall y, rule | y in ys && rule in rules && Joins(y, x, rule) :: Joined(y, x, rule) in out)
    && (forall y, rule | y in ys && rule in rules && Joins(x, y, rule) :: Joined(x, y, rule) in out)
  }

  /** Rule `z.v -> a.v b.v` concludes z from a followed by b. */
  predicate Concludes(a: Fact, b: Fact, z: Fact, rules: set<Rule>) {
    a.j == b.i && z.i == a.i && z.j == b.j && Rule(z.v, a.v, b.v) in rules
  }

  /** Each new fact is concluded from x and its recorded partner in r. */
  ghost predicate Witnessed(r: set<Fact>, x: Fact, temp: set<Fact>, why: map<Fact, Fact>, rules: set<Rule>) {
    forall z | z in temp :: z in why && why[z] in r && (Concludes(why[z], x, z, rules) || Concludes(x, why[z], z, rules))
  }

  /** Each new fact follows by a rule from two facts of r. */
  ghost predicate Derived(r: set<Fact>, temp: set<Fact>, rules: set<Rule>) {
    forall z | z in temp :: exists a, b | a in r && b in r :: Concludes(a, b, z, rules)
  }

  /**
   * The body of the outer loop: the scan of r for facts ending where x
   * starts (x is their right partner) and facts starting where x ends (x
   * is their left partner).
   */
  method Process(r: set<Fact>, x: Fact, heads: set<Variable>, rules: set<Rule>)
    returns (temp: set<Fact>, queued: seq<Fact>)
    requires forall rule | rule in rules :: rule.head in heads
    requires x in r
    ensures forall z :: z in queued <==> z in temp
    ensures queued == [] <==> temp == {}
    ensures temp !! r
    ensures JoinedWith(r, x, rules, r + temp)
    ensures Derived(r, temp, rules)
  {
    temp, queued := {}, [];
    var todo := r;
    ghost var done: set<Fact> := {};
    ghost var why: map<Fact, Fact> := map[];
    while todo != {}
      invariant done + todo == r
      invariant forall z :: z in queued <==> z in temp
      invariant queued == [] <==> temp == {}
      invariant temp !! r
      invariant JoinedWith(done, x, rules, r + temp)
      invariant Witnessed(r, x, temp, why, rules)
      decreases todo
    {
      var y :| y in todo;
      var found, more := JoinPartner(r, x, y, heads, rules);
      why := why + map z | z in found :: y;
      temp, queued := temp + found, queued + more;
      todo, done := todo - {y}, done + {y};
    }
    WitnessedDerived(r, x, temp, why, rules);
  }

  /**
   * The body of the scan for one fact y of r: y before x when y ends where
   * x starts, then x before y when x ends where y starts.
   */
  method JoinPartner(r: set<Fact>, x: Fact, y: Fact, heads: set<Variable>, rules: set<Rule>)
    returns (found: set<Fact>, queued: seq<Fact>)
    requires forall rule | rule in rules :: rule.head in heads
    ensures forall z :: z in queued <==> z in found
    ensures queued == [] <==> found == {}
    ensures found !! r
    ensures forall rule | rule in rules && Joins(y, x, rule) :: Joined(y, x, rule) in r + found
    ensures forall rule | rule in rules && Joins(x, y, rule) :: Joined(x, y, rule) in r + found
    ensures forall z | z in found :: Concludes(y, x, z, rules) || Concludes(x, y, z, rules)
  {
    found, queued := {}, [];
    if x.i == y.j {
      found, queued := JoinHeads(r, y, x, heads, rules);
    }
    if x.j == y.i {
      var more, extra := JoinHeads(r, x, y, heads, rules);
      found, queued := found + more, queued + extra;
    }
  }

  lemma WitnessedDerived(r: set<Fact>, x: Fact, temp: set<Fact>, why: map<Fact, Fact>, rules: set<Rule>)
    requires x in r && Witnessed(r, x, temp, why, rules)
    ensures Derived(r, temp, rules)
  {
    forall z | z in temp
      ensures exists a, b | a in r && b in r :: Concludes(a, b, z, rules)
    {
      if Concludes(why[z], x, z, rules) {
        assert why[z] in r && x in r;
      } else {
        assert x in r && why[z] in r;
      }
    }
  }

  /** New facts derived from facts of a closed set are in it. */
  lemma DerivedInClosed(r: set<Fact>, temp: set<Fact>, rules: set<Rule>, s: set<Fact>)
    requires Derived(r, temp, rules) && r <= s && Closed(s, rules)
    ensures temp <= s
  {
    forall z | z in temp
      ensures z in s
    {
      var a, b :| a in r && b in r && Concludes(a, b, z, rules);
      assert Joins(a, b, Rule(z.v, a.v, b.v));
    }
  }

  /** The loop invariant of the worklist: what is known of r and of the queue m. */
  ghost predicate Worklist(r: set<Fact>, m: seq<Fact>, seeds: set<Fact>, rules: set<Rule>, universe: set<Fact>) {
    && seeds <= r <= universe
    && (forall z | z in m :: z in r)
    && Sound(r, seeds, rules)
    && Pending(r, m, rules)
  }

  /**
   * The worklist loop from the seeds: on exit r contains the seeds, is
   * closed under the binary rules, and lies inside every closed superset
   * of the seeds.
   */
  method Saturate(seeds: set<Fact>, rules: set<Rule>, heads: set<Variable>, ghost vars: set<Variable>, ghost n: nat)
    returns (r: set<Fact>)
    requires forall rule | rule in rules :: rule.head in heads
    requires heads <= vars
    requires forall z | z in seeds :: InRange(z, vars, n)
    ensures Least(r, seeds, rules)
  {
    r := seeds;
    var m := Enumerate(r);
    ghost var universe := Universe(vars, n);
    while m != []
      invariant Worklist(r, m, seeds, rules, universe)
      decreases universe - r, |m|
    {
      r, m := Step(r, m, seeds, rules, heads, vars, n);
    }
    assert Closed(r, rules);
  }

  /**
   * One turn of the loop: pop x, process it against r, queue the new
   * facts and add them to r. Either r grows or the queue shrinks.
   */
  method Step(r: set<Fact>, m: seq<Fact>, ghost seeds: set<Fact>, rules: set<Rule>, heads: set<Variable>,
              ghost vars: set<Variable>, ghost n: nat)
    returns (r': set<Fact>, m': seq<Fact>)
    requires m != [] && Worklist(r, m, seeds, rules, Universe(vars, n))
    requires forall rule | rule in rules :: rule.head in heads
    requires heads <= vars
    ensures Worklist(r', m', seeds, rules, Universe(vars, n))
    ensures Universe(vars, n) - r' < Universe(vars, n) - r || (r' == r && |m'| < |m|)
  {
    ghost var universe := Universe(vars, n);
    var x := m[0];
    var temp, queued := Process(r, x, heads, rules);
    var rest := m[1..];
    m' := rest + queued;
    r' := r + temp;
    DerivedSound(r, temp, seeds, rules);
    DerivedInRange(r, temp, rules, vars, n);
    PendingStep(r, m, x, rest, temp, queued, rules);
    if temp != {} {
      var z :| z in temp;
      assert z in universe - r && z !in universe - r';
    }
  }

  /** New facts derived from sound facts are sound. */
  lemma DerivedSound(r: set<Fact>, temp: set<Fact>, seeds: set<Fact>, rules: set<Rule>)
    requires Derived(r, temp, rules) && Sound(r, seeds, rules)
    ensures Sound(r + temp, seeds, rules)
  {
    forall s | seeds <= s && Closed(s, rules)
      ensures r + temp <= s
    {
      DerivedInClosed(r, temp, rules, s);
    }
  }

  /** New facts derived from facts in range are in range, their heads being variables. */
  lemma DerivedInRange(r: set<Fact>, temp: set<Fact>, rules: set<Rule>, vars: set<Variable>, n: nat)
    requires Derived(r, temp, rules) && r <= Universe(vars, n)
    requires forall rule | rule in rules :: rule.head in vars
    ensures temp <= Universe(vars, n)
  {
    forall z | z in temp
      ensures z in Universe(vars, n)
    {
      var a, b :| a in r && b in r && Concludes(a, b, z, rules);
    }
  }

  /** Processing the head x of the queue keeps `Pending`: its conclusions are in, the new facts are queued. */
  lemma PendingStep(r: set<Fact>, m: seq<Fact>, x: Fact, rest: seq<Fact>, temp: set<Fact>, queued: seq<Fact>,
                    rules: set<Rule>)
    requires Pending(r, m, rules) && m == [x] + rest && x in r
    requires JoinedWith(r, x, rules, r + temp)
    requires forall z :: z in queued <==> z in temp
    ensures Pending(r + temp, rest + queued, rules)
  {
    forall a, b, rule | a in r + temp && b in r + temp && rule in rules && Joins(a, b, rule)
      ensures Joined(a, b, rule) in r + temp || a in rest + queued || b in rest + queued
    {
      if a in temp || b in temp {
      } else if a == x {
      } else if b == x {
      } else {
        assert a in m ==> a in rest;
        assert b in m ==> b in rest;
      }
    }
  }

  /**
   * The shared body of `hellings` and `_hellings`: split the productions,
   * seed r with the nullable variables on every vertex and the terminal
   * rules on their edges, and run the worklist. The result is the least
   * closed set of facts.
   */
  method Solve(gr: Grammar, g: Graph) returns (facts: set<Fact>)
    requires WeakNormal(gr) && GraphValid(g)
    ensures Least(facts, Seeds(gr, g), BinaryRules(gr.productions))
  {
    var eps, units, rules := SplitProductions(gr.productions);
    var heads := RuleHeads(rules);
    var seeds := EpsSeeds(eps, g.size) + EdgeSeeds(units, g.edges);
    SeedsInRange(gr, g);
    facts := Saturate(seeds, rules, heads, gr.variables, g.size);
  }

  /** `hellings` (`project/hellings.py`): the facts as (v, i, j) triples. */
  method HellingsVij(gr: Grammar, g: Graph) returns (r: set<(Variable, nat, nat)>)
    requires WeakNormal(gr) && GraphValid(g)
    ensures Least(FromVij(r), Seeds(gr, g), BinaryRules(gr.productions))
  {
    var facts := Solve(gr, g);
    r := VijOf(facts);
    assert FromVij(r) == facts;
  }

  /** `_hellings` (`project/cfg/cfpq_algo.py`): the same facts as (i, v, j) triples. */
  method HellingsIvj(gr: Grammar, g: Graph) returns (r: set<(nat, Variable, nat)>)
    requires WeakNormal(gr) && GraphValid(g)
    ensures Least(FromIvj(r), Seeds(gr, g), BinaryRules(gr.productions))
  {
    var facts := Solve(gr, g);
    r := IvjOf(facts);
    assert FromIvj(r) == facts;
  }
}
