/// What the constrained search reports, stated on walks. Once the visited
/// matrix holds exactly the reached entries, reading the answers off it
/// (`Answers.ByIndex`) gives: for the pooled front, the final vertices
/// joined to a start vertex by a word that also leads to a final
/// constraint state; for the stacked separated front, one pair per counted
/// row labelled by `i // n`; for the corrected separated front, the pairs
/// (s, v) with v joined to s by a word the constraint accepts.
module Reports {
  import opened Pairing
  import opened BoolMatrix
  import opened Walks
  import opened Frontier
  import opened Outcome
  import opened Fronts
  import opened Answers

  /**
   * A non-empty word leads in the constraint from a state in `from` to a
   * final state and in the graph from u to v.
   */
  ghost predicate Joined(st: Setting, from: set<nat>, u: nat, cfin: set<nat>, v: nat) {
    exists q: nat, f: nat, w: seq<Symbol> ::
      q in from && f in cfin && f < st.k && |w| > 0 && Walk(st.c, q, w, f) && Walk(st.g, u, w, v)
  }

  /** The vertices a pooled search reports: final, and joined to some start vertex. */
  ghost function PooledReport(st: Setting, rows: set<nat>, starts: set<nat>, cfin: set<nat>, gfin: set<nat>): set<Answer> {
    set v | v in gfin && (exists u :: u in starts && Joined(st, rows, u, cfin, v)) :: Vertex(v)
  }

  /**
   * Read off a pooled search (lists of final indices): vertex v is
   * reported exactly when it is final and a non-empty word leads in the
   * constraint from a seeded state to a final state and in the graph from
   * a start vertex to v. No entry fails.
   */
  lemma PooledAnswers(st: Setting, rows: set<nat>, starts: set<nat>, visited: set<Cell>, cfin: set<nat>, gfin: set<nat>,
                       startIdx: seq<nat>)
    requires st.k > 0 && (forall i | i in rows :: i < st.k) && forall u | u in starts :: u < st.n
    requires st.front == FrontOf(st.k, st.n, rows, starts)
    requires forall e :: e in visited <==> st.Reached(e)
    ensures ByIndex(visited, st.k, st.n, cfin, gfin, false, startIdx) == Success(PooledReport(st, rows, starts, cfin, gfin))
  {
    var entry := IndexEntries(st.k, st.n, cfin, gfin, false, startIdx);
    assert forall e :: entry(e).Success?;
    PooledGathered(st, rows, starts, visited, cfin, gfin, startIdx);
    PooledFound(st, rows, starts, visited, cfin, gfin, startIdx);
    assert Gathered(visited, entry) == PooledReport(st, rows, starts, cfin, gfin);
    assert !exists e | e in visited :: entry(e).Failure?;
  }

  lemma PooledGathered(st: Setting, rows: set<nat>, starts: set<nat>, visited: set<Cell>, cfin: set<nat>, gfin: set<nat>,
                       startIdx: seq<nat>)
    requires st.k > 0 && (forall i | i in rows :: i < st.k) && forall u | u in starts :: u < st.n
    requires st.front == FrontOf(st.k, st.n, rows, starts)
    requires forall e :: e in visited <==> st.Reached(e)
    ensures Gathered(visited, IndexEntries(st.k, st.n, cfin, gfin, false, startIdx)) <= PooledReport(st, rows, starts, cfin, gfin)
  {
    var entry := IndexEntries(st.k, st.n, cfin, gfin, false, startIdx);
    forall a | a in Gathered(visited, entry)
      ensures a in PooledReport(st, rows, starts, cfin, gfin)
    {
      var e :| e in visited && entry(e).Success? && a in entry(e).value;
      PooledReported(st, rows, starts, cfin, gfin, startIdx, e);
    }
  }

  lemma PooledFound(st: Setting, rows: set<nat>, starts: set<nat>, visited: set<Cell>, cfin: set<nat>, gfin: set<nat>,
                       startIdx: seq<nat>)
    requires st.k > 0 && (forall i | i in rows :: i < st.k) && forall u | u in starts :: u < st.n
    requires st.front == FrontOf(st.k, st.n, rows, starts)
    requires forall e :: e in visited <==> st.Reached(e)
    ensures PooledReport(st, rows, starts, cfin, gfin) <= Gathered(visited, IndexEntries(st.k, st.n, cfin, gfin, false, startIdx))
  {
    var entry := IndexEntries(st.k, st.n, cfin, gfin, false, startIdx);
    forall a | a in PooledReport(st, rows, starts, cfin, gfin)
      ensures a in Gathered(visited, entry)
    {
      var e := PooledEntry(st, rows, starts, cfin, gfin, startIdx, a);
      GatheredHit(visited, entry, e, a);
    }
  }

  /** A reported vertex is the one answer of a reached entry. */
  lemma PooledEntry(st: Setting, rows: set<nat>, starts: set<nat>, cfin: set<nat>, gfin: set<nat>, startIdx: seq<nat>, a: Answer)
    returns (e: Cell)
    requires st.k > 0 && (forall i | i in rows :: i < st.k) && forall u | u in starts :: u < st.n
    requires st.front == FrontOf(st.k, st.n, rows, starts)
    requires a in PooledReport(st, rows, starts, cfin, gfin)
    ensures st.Reached(e) && EntryByIndex(e, st.k, st.n, cfin, gfin, false, startIdx) == Success({a})
  {
    var v :| v in gfin && (exists u :: u in starts && Joined(st, rows, u, cfin, v)) && a == Vertex(v);
    var u :| u in starts && Joined(st, rows, u, cfin, v);
    e := JoinedEntry(st, rows, starts, cfin, gfin, startIdx, u, v);
  }

  /** A final vertex joined to a start vertex is the one answer of a reached entry. */
  lemma JoinedEntry(st: Setting, rows: set<nat>, starts: set<nat>, cfin: set<nat>, gfin: set<nat>, startIdx: seq<nat>,
                    u: nat, v: nat) returns (e: Cell)
    requires st.k > 0 && (forall i | i in rows :: i < st.k) && forall u | u in starts :: u < st.n
    requires st.front == FrontOf(st.k, st.n, rows, starts)
    requires v in gfin && u in starts && Joined(st, rows, u, cfin, v)
    ensures st.Reached(e) && EntryByIndex(e, st.k, st.n, cfin, gfin, false, startIdx) == Success({Vertex(v)})
  {
    var q: nat, f: nat, w: seq<Symbol> :|
      q in rows && f in cfin && f < st.k && |w| > 0 && Walk(st.c, q, w, f) && Walk(st.g, u, w, v);
    var k: nat := st.k;
    e := (f, k + v);
    PooledReach(st, rows, starts, e, q, u, w);
    PooledLabel(st.k, st.n, cfin, gfin, startIdx, e);
  }

  /** A walk pair from a listed state and a start vertex reaches the vertex entry of its ends. */
  lemma PooledReach(st: Setting, rows: set<nat>, starts: set<nat>, e: Cell, q: nat, u: nat, w: seq<Symbol>)
    requires (forall i | i in rows :: i < st.k) && forall u | u in starts :: u < st.n
    requires st.front == FrontOf(st.k, st.n, rows, starts) && e.0 < st.k && e.1 >= st.k
    requires q in rows && u in starts && |w| > 0 && Walk(st.c, q, w, e.0) && Walk(st.g, u, w, e.1 - st.k)
    ensures st.Reached(e)
  {
    PooledHitIntro(st, rows, starts, e.0, e.1 - st.k, q, u, w);
  }

  /** The vertex entry of a final row and a final vertex answers that vertex. */
  lemma PooledLabel(k: nat, n: nat, cfin: set<nat>, gfin: set<nat>, startIdx: seq<nat>, e: Cell)
    requires e.0 < k && e.0 in cfin && e.1 >= k && e.1 - k in gfin
    ensures EntryByIndex(e, k, n, cfin, gfin, false, startIdx) == Success({Vertex(e.1 - k)})
  {
    SmallDiv(e.0, k);
  }

  /** A final vertex joined to a start vertex is reported. */
  lemma PooledMember(st: Setting, rows: set<nat>, starts: set<nat>, cfin: set<nat>, gfin: set<nat>, u: nat, v: nat)
    requires v in gfin && u in starts && Joined(st, rows, u, cfin, v)
    ensures Vertex(v) in PooledReport(st, rows, starts, cfin, gfin)
  {
  }

  lemma PooledReported(st: Setting, rows: set<nat>, starts: set<nat>, cfin: set<nat>, gfin: set<nat>, startIdx: seq<nat>, e: Cell)
    requires st.k > 0 && (forall i | i in rows :: i < st.k) && forall u | u in starts :: u < st.n
    requires st.front == FrontOf(st.k, st.n, rows, starts) && st.Reached(e)
    requires EntryByIndex(e, st.k, st.n, cfin, gfin, false, startIdx) != Success({})
    ensures EntryByIndex(e, st.k, st.n, cfin, gfin, false, startIdx) == Success({Vertex(e.1 - st.k)})
    ensures Vertex(e.1 - st.k) in PooledReport(st, rows, starts, cfin, gfin)
  {
    assert e.1 >= st.k && e.0 < st.k && e.0 in cfin && e.1 - st.k in gfin by {
      SmallDiv(e.0, st.k);
    }
    var v: nat := e.1 - st.k;
    PooledLabel(st.k, st.n, cfin, gfin, startIdx, e);
    PooledHitElim(st, rows, starts, e.0, v);
    var q: nat, u: nat, w: seq<Symbol> :|
      q in rows && u in starts && |w| > 0 && Walk(st.c, q, w, e.0) && Walk(st.g, u, w, v);
    assert Joined(st, rows, u, cfin, v);
    PooledMember(st, rows, starts, cfin, gfin, u, v);
  }

  /** A counted row of the stacked front: final constraint state i % k, final vertex v, and a hit. */
  ghost predicate SepCounted(st: Setting, rows: set<nat>, starts: set<nat>, cfin: set<nat>, gfin: set<nat>, i: nat, v: nat) {
    && st.k > 0 && i < st.front.rows && i % st.k in cfin && v in gfin && SepWalk(st, rows, starts, i, v)
  }

  /** Some counted row lies past the labelled blocks `i // n` (or n is zero). */
  ghost predicate SepFails(st: Setting, rows: set<nat>, starts: set<nat>, cfin: set<nat>, gfin: set<nat>, startIdx: seq<nat>) {
    exists i: nat, v: nat :: SepCounted(st, rows, starts, cfin, gfin, i, v) && (st.n == 0 || i / st.n >= |startIdx|)
  }

  /** The label of row i of the separated search: vertex v paired with the start vertex `startIdx[i // n]`. */
  function RowLabel(startIdx: seq<nat>, n: nat, i: nat, v: nat): Answer
    requires n > 0 && i / n < |startIdx|
  {
    StartVertex(startIdx[i / n], v)
  }

  /** The pairs the stacked front reports: each counted row i labels its vertex with `startIdx[i // n]`. */
  ghost function SepReport(st: Setting, rows: set<nat>, starts: set<nat>, cfin: set<nat>, gfin: set<nat>,
                           startIdx: seq<nat>): set<Answer>
  {
    set i: nat, v: nat | i < st.front.rows && v in gfin && SepCounted(st, rows, starts, cfin, gfin, i, v)
                         && st.n > 0 && i / st.n < |startIdx|
      :: RowLabel(startIdx, st.n, i, v)
  }

  /**
   * Read off a separated search as written: it fails with an IndexError
   * when a counted row's `i // n` is past the start list; otherwise each
   * counted row i reports vertex v paired with `startIdx[i // n]`, where
   * "counted" depends only on i % k, never on which copy the row is in.
   */
  lemma SepAnswers(st: Setting, rows: set<nat>, starts: set<nat>, copies: nat, visited: set<Cell>,
                   cfin: set<nat>, gfin: set<nat>, startIdx: seq<nat>)
    requires st.k > 0 && (forall i | i in rows :: i < st.k) && forall u | u in starts :: u < st.n
    requires st.front == SepFront(st.k, st.n, rows, starts, copies)
    requires forall e :: e in visited <==> st.Reached(e)
    ensures ByIndex(visited, st.k, st.n, cfin, gfin, true, startIdx)
        == if SepFails(st, rows, starts, cfin, gfin, startIdx)
           then Failure(if st.n == 0 then ZeroDivisionError else IndexError)
           else Success(SepReport(st, rows, starts, cfin, gfin, startIdx))
  {
    if SepFails(st, rows, starts, cfin, gfin, startIdx) {
      SepFailure(st, rows, starts, copies, visited, cfin, gfin, startIdx);
    } else {
      SepSuccess(st, rows, starts, copies, visited, cfin, gfin, startIdx);
    }
  }

  lemma SepFailure(st: Setting, rows: set<nat>, starts: set<nat>, copies: nat, visited: set<Cell>,
                   cfin: set<nat>, gfin: set<nat>, startIdx: seq<nat>)
    requires st.k > 0 && (forall i | i in rows :: i < st.k) && forall u | u in starts :: u < st.n
    requires st.front == SepFront(st.k, st.n, rows, starts, copies)
    requires forall e :: e in visited <==> st.Reached(e)
    requires SepFails(st, rows, starts, cfin, gfin, startIdx)
    ensures ByIndex(visited, st.k, st.n, cfin, gfin, true, startIdx)
         == Failure(if st.n == 0 then ZeroDivisionError else IndexError)
  {
    var i: nat, v: nat :| SepCounted(st, rows, starts, cfin, gfin, i, v) && (st.n == 0 || i / st.n >= |startIdx|);
    var e := SepFailEntry(st, rows, starts, copies, cfin, gfin, startIdx, i, v);
    ByIndexFails(visited, st.k, st.n, cfin, gfin, true, startIdx, e);
  }

  /** A counted row past the labelled blocks gives a reached entry that fails. */
  lemma SepFailEntry(st: Setting, rows: set<nat>, starts: set<nat>, copies: nat,
                     cfin: set<nat>, gfin: set<nat>, startIdx: seq<nat>, i: nat, v: nat) returns (e: Cell)
    requires (forall i | i in rows :: i < st.k) && forall u | u in starts :: u < st.n
    requires st.front == SepFront(st.k, st.n, rows, starts, copies)
    requires SepCounted(st, rows, starts, cfin, gfin, i, v) && (st.n == 0 || i / st.n >= |startIdx|)
    ensures st.Reached(e) && EntryByIndex(e, st.k, st.n, cfin, gfin, true, startIdx).Failure?
  {
    SepReach(st, rows, starts, copies, i, v);
    e := (i, st.k + v);
    SepFailLabel(st.k, st.n, cfin, gfin, startIdx, e);
  }

  lemma SepFailLabel(k: nat, n: nat, cfin: set<nat>, gfin: set<nat>, startIdx: seq<nat>, e: Cell)
    requires k > 0 && e.1 >= k && e.0 % k in cfin && e.1 - k in gfin && (n == 0 || e.0 / n >= |startIdx|)
    ensures EntryByIndex(e, k, n, cfin, gfin, true, startIdx).Failure?
  {
  }

  lemma SepSuccess(st: Setting, rows: set<nat>, starts: set<nat>, copies: nat, visited: set<Cell>,
                   cfin: set<nat>, gfin: set<nat>, startIdx: seq<nat>)
    requires st.k > 0 && (forall i | i in rows :: i < st.k) && forall u | u in starts :: u < st.n
    requires st.front == SepFront(st.k, st.n, rows, starts, copies)
    requires forall e :: e in visited <==> st.Reached(e)
    requires !SepFails(st, rows, starts, cfin, gfin, startIdx)
    ensures ByIndex(visited, st.k, st.n, cfin, gfin, true, startIdx)
         == Success(SepReport(st, rows, starts, cfin, gfin, startIdx))
  {
    var entry := IndexEntries(st.k, st.n, cfin, gfin, true, startIdx);
    forall e | e in visited
      ensures entry(e).Success?
    {
      if e.1 >= st.k && e.0 % st.k in cfin && e.1 - st.k in gfin {
        SepCountedEntry(st, rows, starts, copies, cfin, gfin, e);
      }
    }
    SepGathered(st, rows, starts, copies, visited, cfin, gfin, startIdx);
    SepFound(st, rows, starts, copies, visited, cfin, gfin, startIdx);
    assert Gathered(visited, entry) == SepReport(st, rows, starts, cfin, gfin, startIdx);
    assert !exists e | e in visited :: entry(e).Failure?;
  }

  /** A reached vertex entry at final states is a counted row. */
  lemma SepCountedEntry(st: Setting, rows: set<nat>, starts: set<nat>, copies: nat, cfin: set<nat>, gfin: set<nat>, e: Cell)
    requires st.k > 0 && (forall i | i in rows :: i < st.k) && forall u | u in starts :: u < st.n
    requires st.front == SepFront(st.k, st.n, rows, starts, copies) && st.Reached(e)
    requires e.1 >= st.k && e.0 % st.k in cfin && e.1 - st.k in gfin
    ensures SepCounted(st, rows, starts, cfin, gfin, e.0, e.1 - st.k)
  {
    SepHit(st, rows, starts, copies, e.0, e.1 - st.k);
  }

  /** A counted row's vertex entry is reached. */
  lemma SepReach(st: Setting, rows: set<nat>, starts: set<nat>, copies: nat, i: nat, v: nat)
    requires (forall i | i in rows :: i < st.k) && forall u | u in starts :: u < st.n
    requires st.front == SepFront(st.k, st.n, rows, starts, copies)
    requires st.k > 0 && i < st.front.rows && SepWalk(st, rows, starts, i, v)
    ensures st.Reached((i, st.k + v))
  {
    var q: nat, u: nat, w: seq<Symbol> :|
      q in rows && u in starts && |w| > 0 && Walk(st.c, q, w, i % st.k) && Walk(st.g, u, w, v);
    SepHitIntro(st, rows, starts, copies, i, v, q, u, w);
    HitReached(st, i, v);
  }

  /** A hit of row r at vertex v reaches the vertex entry (r, k + v). */
  lemma HitReached(st: Setting, r: nat, v: nat)
    requires r < st.front.rows && st.Hit(r, v)
    ensures st.Reached((r, st.k + v))
  {
  }

  lemma SepGathered(st: Setting, rows: set<nat>, starts: set<nat>, copies: nat, visited: set<Cell>,
                    cfin: set<nat>, gfin: set<nat>, startIdx: seq<nat>)
    requires st.k > 0 && (forall i | i in rows :: i < st.k) && forall u | u in starts :: u < st.n
    requires st.front == SepFront(st.k, st.n, rows, starts, copies)
    requires forall e :: e in visited <==> st.Reached(e)
    ensures Gathered(visited, IndexEntries(st.k, st.n, cfin, gfin, true, startIdx))
        <= SepReport(st, rows, starts, cfin, gfin, startIdx)
  {
    var entry := IndexEntries(st.k, st.n, cfin, gfin, true, startIdx);
    forall a | a in Gathered(visited, entry)
      ensures a in SepReport(st, rows, starts, cfin, gfin, startIdx)
    {
      var e :| e in visited && entry(e).Success? && a in entry(e).value;
      SepReported(st, rows, starts, copies, cfin, gfin, startIdx, e);
    }
  }

  lemma SepReported(st: Setting, rows: set<nat>, starts: set<nat>, copies: nat,
                    cfin: set<nat>, gfin: set<nat>, startIdx: seq<nat>, e: Cell)
    requires st.k > 0 && (forall i | i in rows :: i < st.k) && forall u | u in starts :: u < st.n
    requires st.front == SepFront(st.k, st.n, rows, starts, copies) && st.Reached(e)
    requires EntryByIndex(e, st.k, st.n, cfin, gfin, true, startIdx).Success?
    requires EntryByIndex(e, st.k, st.n, cfin, gfin, true, startIdx) != Success({})
    ensures st.n > 0 && e.1 >= st.k && e.0 / st.n < |startIdx|
    ensures EntryByIndex(e, st.k, st.n, cfin, gfin, true, startIdx)
         == Success({RowLabel(startIdx, st.n, e.0, e.1 - st.k)})
    ensures RowLabel(startIdx, st.n, e.0, e.1 - st.k) in SepReport(st, rows, starts, cfin, gfin, startIdx)
  {
    SepCountedEntry(st, rows, starts, copies, cfin, gfin, e);
  }

  lemma SepFound(st: Setting, rows: set<nat>, starts: set<nat>, copies: nat, visited: set<Cell>,
                 cfin: set<nat>, gfin: set<nat>, startIdx: seq<nat>)
    requires st.k > 0 && (forall i | i in rows :: i < st.k) && forall u | u in starts :: u < st.n
    requires st.front == SepFront(st.k, st.n, rows, starts, copies)
    requires forall e :: e in visited <==> st.Reached(e)
    ensures SepReport(st, rows, starts, cfin, gfin, startIdx)
        <= Gathered(visited, IndexEntries(st.k, st.n, cfin, gfin, true, startIdx))
  {
    var entry := IndexEntries(st.k, st.n, cfin, gfin, true, startIdx);
    forall a | a in SepReport(st, rows, starts, cfin, gfin, startIdx)
      ensures a in Gathered(visited, entry)
    {
      var e := SepEntry(st, rows, starts, copies, cfin, gfin, startIdx, a);
      GatheredHit(visited, entry, e, a);
    }
  }

  /** A reported pair is the one answer of a reached entry. */
  lemma SepEntry(st: Setting, rows: set<nat>, starts: set<nat>, copies: nat,
                 cfin: set<nat>, gfin: set<nat>, startIdx: seq<nat>, a: Answer) returns (e: Cell)
    requires st.k > 0 && (forall i | i in rows :: i < st.k) && forall u | u in starts :: u < st.n
    requires st.front == SepFront(st.k, st.n, rows, starts, copies)
    requires a in SepReport(st, rows, starts, cfin, gfin, startIdx)
    ensures st.Reached(e) && EntryByIndex(e, st.k, st.n, cfin, gfin, true, startIdx) == Success({a})
  {
    var i: nat, v: nat :| i < st.front.rows && v in gfin && SepCounted(st, rows, starts, cfin, gfin, i, v)
                          && st.n > 0 && i / st.n < |startIdx| && a == RowLabel(startIdx, st.n, i, v);
    e := CountedEntry(st, rows, starts, copies, cfin, gfin, startIdx, i, v);
  }

  /** A counted row inside the labelled blocks gives a reached entry answering its label. */
  lemma CountedEntry(st: Setting, rows: set<nat>, starts: set<nat>, copies: nat,
                     cfin: set<nat>, gfin: set<nat>, startIdx: seq<nat>, i: nat, v: nat) returns (e: Cell)
    requires (forall i | i in rows :: i < st.k) && forall u | u in starts :: u < st.n
    requires st.front == SepFront(st.k, st.n, rows, starts, copies)
    requires SepCounted(st, rows, starts, cfin, gfin, i, v) && st.n > 0 && i / st.n < |startIdx|
    ensures st.Reached(e) && EntryByIndex(e, st.k, st.n, cfin, gfin, true, startIdx) == Success({RowLabel(startIdx, st.n, i, v)})
  {
    SepReach(st, rows, starts, copies, i, v);
    SepLabel(st.k, st.n, cfin, gfin, startIdx, i, v);
    e := (i, st.k + v);
  }

  lemma SepLabel(k: nat, n: nat, cfin: set<nat>, gfin: set<nat>, startIdx: seq<nat>, i: nat, v: nat)
    requires k > 0 && n > 0 && i % k in cfin && v in gfin && i / n < |startIdx|
    ensures EntryByIndex((i, k + v), k, n, cfin, gfin, true, startIdx) == Success({RowLabel(startIdx, n, i, v)})
  {
  }

  /**
   * The pairs the corrected search should report: start vertex s of the
   * list with a final vertex v joined to s by a word that leads from a
   * constraint start state to a final one.
   */
  ghost function FixedReport(st: Setting, cstart: set<nat>, starts: seq<nat>, cfin: set<nat>, gfin: set<nat>): set<Answer> {
    set b, v | 0 <= b < |starts| && v in gfin && Joined(st, cstart, starts[b], cfin, v) :: StartVertex(starts[b], v)
  }

  /**
   * Read off the corrected separated search (blocks of k rows, labelled by
   * `i // k`): exactly the pairs of `FixedReport`, and no entry fails.
   */
  lemma FixedAnswers(st: Setting, cstart: set<nat>, starts: seq<nat>, visited: set<Cell>, cfin: set<nat>, gfin: set<nat>)
    requires st.k > 0 && (forall q | q in cstart :: q < st.k) && forall b | 0 <= b < |starts| :: starts[b] < st.n
    requires st.front == FixedFront(st.k, st.n, cstart, starts)
    requires forall e :: e in visited <==> st.Reached(e)
    ensures ByIndex(visited, st.k, st.k, cfin, gfin, true, starts) == Success(FixedReport(st, cstart, starts, cfin, gfin))
  {
    var entry := IndexEntries(st.k, st.k, cfin, gfin, true, starts);
    forall e | e in visited
      ensures entry(e).Success?
    {
      FixedInBlock(st, cstart, starts, e);
    }
    FixedGathered(st, cstart, starts, visited, cfin, gfin);
    FixedFound(st, cstart, starts, visited, cfin, gfin);
    assert Gathered(visited, entry) == FixedReport(st, cstart, starts, cfin, gfin);
    assert !exists e | e in visited :: entry(e).Failure?;
  }

  /** Every reached row lies in the block of some listed start vertex. */
  lemma FixedInBlock(st: Setting, cstart: set<nat>, starts: seq<nat>, e: Cell)
    requires st.k > 0 && st.front == FixedFront(st.k, st.n, cstart, starts) && st.Reached(e)
    ensures e.0 / st.k < |starts|
  {
    BlocksFit(|starts|, st.k);
  }

  lemma FixedGathered(st: Setting, cstart: set<nat>, starts: seq<nat>, visited: set<Cell>, cfin: set<nat>, gfin: set<nat>)
    requires st.k > 0 && (forall q | q in cstart :: q < st.k) && forall b | 0 <= b < |starts| :: starts[b] < st.n
    requires st.front == FixedFront(st.k, st.n, cstart, starts)
    requires forall e :: e in visited <==> st.Reached(e)
    ensures Gathered(visited, IndexEntries(st.k, st.k, cfin, gfin, true, starts)) <= FixedReport(st, cstart, starts, cfin, gfin)
  {
    var entry := IndexEntries(st.k, st.k, cfin, gfin, true, starts);
    forall a | a in Gathered(visited, entry)
      ensures a in FixedReport(st, cstart, starts, cfin, gfin)
    {
      var e :| e in visited && entry(e).Success? && a in entry(e).value;
      FixedReported(st, cstart, starts, cfin, gfin, e);
    }
  }

  lemma FixedReported(st: Setting, cstart: set<nat>, starts: seq<nat>, cfin: set<nat>, gfin: set<nat>, e: Cell)
    requires st.k > 0 && (forall q | q in cstart :: q < st.k) && forall b | 0 <= b < |starts| :: starts[b] < st.n
    requires st.front == FixedFront(st.k, st.n, cstart, starts) && st.Reached(e)
    requires EntryByIndex(e, st.k, st.k, cfin, gfin, true, starts) != Success({})
    ensures e.1 >= st.k && 0 <= e.0 / st.k < |starts|
    ensures EntryByIndex(e, st.k, st.k, cfin, gfin, true, starts) == Success({StartVertex(starts[e.0 / st.k], e.1 - st.k)})
    ensures StartVertex(starts[e.0 / st.k], e.1 - st.k) in FixedReport(st, cstart, starts, cfin, gfin)
  {
    Quotient(e.0, st.k);
    FixedInBlock(st, cstart, starts, e);
    FixedHit(st, cstart, starts, e.0, e.1 - st.k);
    FixedJoined(st, cstart, starts, cfin, gfin, e.0, e.1 - st.k);
  }

  lemma FixedJoined(st: Setting, cstart: set<nat>, starts: seq<nat>, cfin: set<nat>, gfin: set<nat>, r: nat, v: nat)
    requires st.k > 0 && r / st.k < |starts| && FixedWalk(st, cstart, starts, r, v)
    requires r % st.k in cfin && v in gfin
    ensures StartVertex(starts[r / st.k], v) in FixedReport(st, cstart, starts, cfin, gfin)
  {
    var q: nat, w: seq<Symbol> :|
      q in cstart && |w| > 0 && Walk(st.c, q, w, r % st.k) && Walk(st.g, starts[r / st.k], w, v);
    assert Joined(st, cstart, starts[r / st.k], cfin, v);
    FixedMember(st, cstart, starts, cfin, gfin, r / st.k, v);
  }

  lemma FixedMember(st: Setting, cstart: set<nat>, starts: seq<nat>, cfin: set<nat>, gfin: set<nat>, b: nat, v: nat)
    requires b < |starts| && v in gfin && Joined(st, cstart, starts[b], cfin, v)
    ensures StartVertex(starts[b], v) in FixedReport(st, cstart, starts, cfin, gfin)
  {
  }

  lemma FixedFound(st: Setting, cstart: set<nat>, starts: seq<nat>, visited: set<Cell>, cfin: set<nat>, gfin: set<nat>)
    requires st.k > 0 && (forall q | q in cstart :: q < st.k) && forall b | 0 <= b < |starts| :: starts[b] < st.n
    requires st.front == FixedFront(st.k, st.n, cstart, starts)
    requires forall e :: e in visited <==> st.Reached(e)
    ensures FixedReport(st, cstart, starts, cfin, gfin) <= Gathered(visited, IndexEntries(st.k, st.k, cfin, gfin, true, starts))
  {
    var entry := IndexEntries(st.k, st.k, cfin, gfin, true, starts);
    forall a | a in FixedReport(st, cstart, starts, cfin, gfin)
      ensures a in Gathered(visited, entry)
    {
      var b, v :| 0 <= b < |starts| && v in gfin && Joined(st, cstart, starts[b], cfin, v) && a == StartVertex(starts[b], v);
      var e := FixedReach(st, cstart, starts, cfin, b, v);
      assert entry(e) == Success({a});
    }
  }

  /** A joined pair of block b is found at row b * k + f of a final constraint state f. */
  lemma FixedReach(st: Setting, cstart: set<nat>, starts: seq<nat>, cfin: set<nat>, b: nat, v: nat) returns (e: Cell)
    requires st.k > 0 && (forall q | q in cstart :: q < st.k) && forall b | 0 <= b < |starts| :: starts[b] < st.n
    requires st.front == FixedFront(st.k, st.n, cstart, starts)
    requires b < |starts| && Joined(st, cstart, starts[b], cfin, v)
    ensures st.Reached(e) && e.1 == st.k + v && e.0 / st.k == b && e.0 % st.k in cfin
  {
    var k: nat := st.k;
    var q: nat, f: nat, w: seq<Symbol> :|
      q in cstart && f in cfin && f < k && |w| > 0 && Walk(st.c, q, w, f) && Walk(st.g, starts[b], w, v);
    var r := Pair(b, f, k);
    UnpairPair(b, f, k);
    PairBound(b, f, |starts|, k);
    FixedHitIntro(st, cstart, starts, r, v, q, w);
    HitReached(st, r, v);
    e := (r, k + v);
  }

  /** The answer of a pooled search from rows `rows` of the front and start columns `starts`. */
  ghost function PooledResult(c: Family, k: nat, g: Family, n: nat, rows: set<nat>, starts: set<nat>,
                              cfin: set<nat>, gfin: set<nat>): Result<set<Answer>>
    requires (forall i | i in rows :: i < k) && forall u | u in starts :: u < n
  {
    Success(PooledReport(Setting(c, k, g, n, FrontOf(k, n, rows, starts)), rows, starts, cfin, gfin))
  }

  /** The answer of a separated search as written: `copies` stacked pooled fronts, rows labelled by `i // n`. */
  ghost function SeparatedResult(c: Family, k: nat, g: Family, n: nat, rows: set<nat>, starts: set<nat>, copies: nat,
                                 cfin: set<nat>, gfin: set<nat>, startIdx: seq<nat>): Result<set<Answer>>
    requires (forall i | i in rows :: i < k) && forall u | u in starts :: u < n
  {
    var st := Setting(c, k, g, n, SepFront(k, n, rows, starts, copies));
    if SepFails(st, rows, starts, cfin, gfin, startIdx)
    then Failure(if n == 0 then ZeroDivisionError else IndexError)
    else Success(SepReport(st, rows, starts, cfin, gfin, startIdx))
  }

  /** The answer of the corrected separated search. */
  ghost function FixedResult(c: Family, k: nat, g: Family, n: nat, cstart: set<nat>, starts: seq<nat>,
                             cfin: set<nat>, gfin: set<nat>): Result<set<Answer>>
  {
    Success(FixedReport(Setting(c, k, g, n, FixedFront(k, n, cstart, starts)), cstart, starts, cfin, gfin))
  }

  /** The k x (k + n) all-false front of `_construct_sep_front` with no start vertex is a well-shaped start. */
  lemma ZeroGood(c: Family, k: nat, g: Family, n: nat)
    requires Square(c, k) && Square(g, n)
    ensures Setting(c, k, g, n, Zero(k, k + n)).Good()
  {
    if k > 0 {
      UnpairPair(1, 0, k);
    }
  }

  /** A front without true entries seeds nothing, so nothing is reached. */
  lemma NothingReached(st: Setting, e: Cell)
    requires st.front.cells == {}
    ensures !st.Reached(e)
  {
  }

  /** With nothing visited, the read-off succeeds with no answers. */
  lemma NoAnswers(k: nat, block: nat, cfin: set<nat>, gfin: set<nat>, separated: bool, startIdx: seq<nat>)
    ensures ByIndex({}, k, block, cfin, gfin, separated, startIdx) == Success({})
  {
    var entry := IndexEntries(k, block, cfin, gfin, separated, startIdx);
    assert Gathered({}, entry) == {};
  }

  /** A constraint without states reports nothing. */
  lemma NoConstraintPooled(c: Family, g: Family, n: nat, rows: set<nat>, starts: set<nat>, cfin: set<nat>, gfin: set<nat>)
    requires rows == {} && forall u | u in starts :: u < n
    ensures PooledResult(c, 0, g, n, rows, starts, cfin, gfin) == Success({})
  {
    var st := Setting(c, 0, g, n, FrontOf(0, n, rows, starts));
    assert PooledReport(st, rows, starts, cfin, gfin) == {};
  }

  /** A separated search with no rows in its front (no constraint state or no copy) reports nothing. */
  lemma NoRowsSeparated(c: Family, k: nat, g: Family, n: nat, rows: set<nat>, starts: set<nat>, copies: nat,
                        cfin: set<nat>, gfin: set<nat>, startIdx: seq<nat>)
    requires (forall i | i in rows :: i < k) && forall u | u in starts :: u < n
    requires k == 0 || copies == 0
    ensures SeparatedResult(c, k, g, n, rows, starts, copies, cfin, gfin, startIdx) == Success({})
  {
    var st := Setting(c, k, g, n, SepFront(k, n, rows, starts, copies));
    assert st.front.rows == 0;
    assert !SepFails(st, rows, starts, cfin, gfin, startIdx);
    assert SepReport(st, rows, starts, cfin, gfin, startIdx) == {};
  }

  /** The corrected search with a constraint without states reports nothing. */
  lemma NoConstraintFixed(c: Family, g: Family, n: nat, cstart: set<nat>, starts: seq<nat>, cfin: set<nat>, gfin: set<nat>)
    ensures FixedResult(c, 0, g, n, cstart, starts, cfin, gfin) == Success({})
  {
    var st := Setting(c, 0, g, n, FixedFront(0, n, cstart, starts));
    assert FixedReport(st, cstart, starts, cfin, gfin) == {};
  }
}
