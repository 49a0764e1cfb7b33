/// Reading the answers of the constrained search off the visited matrix.
/// An entry (i, j) counts when j is a vertex column, row i's constraint
/// state i % k is final and vertex j - k is final. Pooled answers are the
/// vertices; separated answers pair each vertex with the start vertex
/// `start_states_indices[i // n]`. The two copies of the class differ in
/// how finality is read: from lists of final indices, or by looking the
/// index up in the state-to-index map as if it were a state.
module Answers {
  import opened BoolMatrix
  import opened Outcome

  datatype Answer = Vertex(v: nat) | StartVertex(start: nat, v: nat)

  /**
   * What a counted entry of row i at vertex v adds: the vertex, or the pair
   * of v with the start vertex of block `i // block`. The program divides
   * by the number of graph vertices n; rows come in blocks of k.
   */
  function Label(i: nat, v: nat, block: nat, separated: bool, startIdx: seq<nat>): (r: Result<set<Answer>>)
    ensures !separated ==> r == Success({Vertex(v)})
    ensures separated && block > 0 && i / block < |startIdx|
        ==> r == Success({StartVertex(startIdx[i / block], v)})
    ensures r.Failure? <==> separated && (block == 0 || i / block >= |startIdx|)
  {
    if !separated then Success({Vertex(v)})
    else if block == 0 then Failure(ZeroDivisionError)
    else if i / block < |startIdx| then Success({StartVertex(startIdx[i / block], v)})
    else Failure(IndexError)
  }

  /** One entry, finality read from the lists of final indices (`project/re`). */
  function EntryByIndex(e: Cell, k: nat, block: nat, cfin: set<nat>, gfin: set<nat>,
                        separated: bool, startIdx: seq<nat>): Result<set<Answer>>
  {
    if e.1 < k then Success({})
    else if k == 0 then Failure(ZeroDivisionError)
    else if e.0 % k !in cfin || e.1 - k !in gfin then Success({})
    else Label(e.0, e.1 - k, block, separated, startIdx)
  }

  /** One entry, finality read through the index maps with the index standing in for a state (csr copy). */
  function EntryByLookup(e: Cell, k: nat, block: nat, cIndex: map<nat, nat>, cFinal: set<nat>,
                         gIndex: map<nat, nat>, gFinal: set<nat>,
                         separated: bool, startIdx: seq<nat>): Result<set<Answer>>
  {
    if e.1 < k then Success({})
    else if k == 0 then Failure(ZeroDivisionError)
    else if e.0 % k !in cIndex then Failure(KeyError)
    else if cIndex[e.0 % k] !in cFinal then Success({})
    else if e.1 - k !in gIndex then Failure(KeyError)
    else if gIndex[e.1 - k] !in gFinal then Success({})
    else Label(e.0, e.1 - k, block, separated, startIdx)
  }

  /** The answers of the entries that succeed. */
  function Gathered(cells: set<Cell>, entry: Cell -> Result<set<Answer>>): set<Answer> {
    set e, a | e in cells && entry(e).Success? && a in entry(e).value :: a
  }

  /** The one answer of a successful entry is gathered. */
  lemma GatheredHit(cells: set<Cell>, entry: Cell -> Result<set<Answer>>, e: Cell, a: Answer)
    requires e in cells && entry(e) == Success({a})
    ensures a in Gathered(cells, entry)
  {
  }

  lemma GatheredAdd(cells: set<Cell>, entry: Cell -> Result<set<Answer>>, e: Cell)
    requires entry(e).Success?
    ensures Gathered(cells + {e}, entry) == Gathered(cells, entry) + entry(e).value
  {
    var lhs, rhs := Gathered(cells + {e}, entry), Gathered(cells, entry) + entry(e).value;
    forall a | a in rhs
      ensures a in lhs
    {
      if a !in entry(e).value {
        var d :| d in cells && entry(d).Success? && a in entry(d).value;
        assert d in cells + {e};
      }
    }
  }

  /** Row-major order, the order in which `nonzero()` lists the entries. */
  predicate Before(d: Cell, e: Cell) {
    d.0 < e.0 || (d.0 == e.0 && d.1 < e.1)
  }

  /** e fails, and every entry before it succeeds. */
  predicate FirstFailing(cells: set<Cell>, entry: Cell -> Result<set<Answer>>, e: Cell) {
    e in cells && entry(e).Failure? && forall d | d in cells && Before(d, e) :: entry(d).Success?
  }

  /** At most one entry fails first, so the error raised is determined. */
  lemma FirstFailingUnique(cells: set<Cell>, entry: Cell -> Result<set<Answer>>, e: Cell, e': Cell)
    requires FirstFailing(cells, entry, e) && FirstFailing(cells, entry, e')
    ensures e == e'
  {
  }

  /** Every non-empty set of entries has a first entry in row-major order. */
  lemma {:induction false} FirstExists(s: set<Cell>) returns (e: Cell)
    requires s != {}
    ensures e in s && forall d | d in s :: !Before(d, e)
  {
    var x :| x in s;
    if s == {x} {
      e := x;
    } else {
      var m := FirstExists(s - {x});
      e := if Before(x, m) then x else m;
      forall d | d in s
        ensures !Before(d, e)
      {
        if d != x {
          assert d in s - {x};
        }
      }
    }
  }

  /**
   * The answer loop: the entries of the visited matrix are examined in
   * row-major order; the answers of all entries are collected, unless some
   * entry raises, and then the result is the first failing entry's error.
   */
  method Collect(cells: set<Cell>, entry: Cell -> Result<set<Answer>>) returns (r: Result<set<Answer>>)
    ensures r.Success? <==> forall e | e in cells :: entry(e).Success?
    ensures r.Success? ==> r.value == Gathered(cells, entry)
    ensures r.Failure? ==> exists e :: FirstFailing(cells, entry, e) && entry(e) == Failure(r.error)
  {
    var found: set<Answer> := {};
    var todo := cells;
    while todo != {}
      invariant todo <= cells
      invariant forall e | e in cells - todo :: entry(e).Success?
      invariant forall d, e | d in cells - todo && e in todo :: Before(d, e)
      invariant found == Gathered(cells - todo, entry)
      decreases todo
    {
      ghost var first := FirstExists(todo);
      var e :| e in todo && forall d | d in todo :: !Before(d, e);
      var out := entry(e);
      if out.Failure? {
        return Failure(out.error);
      }
      forall d, e' | d in (cells - todo) + {e} && e' in todo - {e}
        ensures Before(d, e')
      {
        if d == e {
          assert !Before(e', e) && (e'.0 != e.0 || e'.1 != e.1);
        }
      }
      GatheredAdd(cells - todo, entry, e);
      found := found + out.value;
      assert (cells - todo) + {e} == cells - (todo - {e});
      todo := todo - {e};
    }
    assert cells - todo == cells;
    r := Success(found);
  }

  /** With finality read from index lists, every failing entry fails with the same error. */
  lemma {:induction false} ByIndexFailure(e: Cell, k: nat, block: nat, cfin: set<nat>, gfin: set<nat>,
                                          separated: bool, startIdx: seq<nat>)
    requires EntryByIndex(e, k, block, cfin, gfin, separated, startIdx).Failure?
    ensures EntryByIndex(e, k, block, cfin, gfin, separated, startIdx).error
        == if k == 0 || block == 0 then ZeroDivisionError else IndexError
  {
  }

  function IndexEntries(k: nat, block: nat, cfin: set<nat>, gfin: set<nat>,
                        separated: bool, startIdx: seq<nat>): Cell -> Result<set<Answer>>
  {
    e => EntryByIndex(e, k, block, cfin, gfin, separated, startIdx)
  }

  /** The answers of the `project/re` copy: the one error of any failing entry, or all answers. */
  function ByIndex(cells: set<Cell>, k: nat, block: nat, cfin: set<nat>, gfin: set<nat>,
                   separated: bool, startIdx: seq<nat>): Result<set<Answer>>
  {
    var entry := IndexEntries(k, block, cfin, gfin, separated, startIdx);
    if exists e | e in cells :: entry(e).Failure? then
      Failure(if k == 0 || block == 0 then ZeroDivisionError else IndexError)
    else
      Success(Gathered(cells, entry))
  }

  /** One failing entry makes the whole reading fail. */
  lemma ByIndexFails(cells: set<Cell>, k: nat, block: nat, cfin: set<nat>, gfin: set<nat>,
                     separated: bool, startIdx: seq<nat>, e: Cell)
    requires e in cells && EntryByIndex(e, k, block, cfin, gfin, separated, startIdx).Failure?
    ensures ByIndex(cells, k, block, cfin, gfin, separated, startIdx)
         == Failure(if k == 0 || block == 0 then ZeroDivisionError else IndexError)
  {
    assert IndexEntries(k, block, cfin, gfin, separated, startIdx)(e).Failure?;
  }

  /** The answer loop of the `project/re` copy computes `ByIndex`. */
  method CollectByIndex(cells: set<Cell>, k: nat, block: nat, cfin: set<nat>, gfin: set<nat>,
                        separated: bool, startIdx: seq<nat>) returns (r: Result<set<Answer>>)
    ensures r == ByIndex(cells, k, block, cfin, gfin, separated, startIdx)
  {
    var entry := IndexEntries(k, block, cfin, gfin, separated, startIdx);
    r := Collect(cells, entry);
    if r.Failure? {
      var e :| e in cells && entry(e) == Failure(r.error);
      ByIndexFailure(e, k, block, cfin, gfin, separated, startIdx);
    }
  }
}
