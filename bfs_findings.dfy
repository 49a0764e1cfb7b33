/// Small searches on which the constrained search as written differs from
/// what it is meant to compute, each next to the corrected search on the
/// same input.
module BfsFindings {
  import opened BoolMatrix
  import opened Walks
  import opened Frontier
  import opened Outcome
  import opened Fronts
  import opened Answers
  import opened Reports

  /** Constraint 0 -a-> 1 over states 0 and 1. */
  function StepConstraint(): Family {
    map["a" := Matrix(2, 2, {(0, 1)})]
  }

  /** One vertex with an a-loop. */
  function LoopGraph(): Family {
    map["a" := Matrix(1, 1, {(0, 0)})]
  }

  /**
   * Separated search as written, one start vertex, k = 2 constraint states
   * and n = 1 vertex: row 1 of the single block is counted, and
   * `start_states_indices[1 // 1]` is past the one-element start list.
   */
  lemma VertexCountBlocks()
    ensures SeparatedResult(StepConstraint(), 2, LoopGraph(), 1, {0, 1}, {0}, 1, {1}, {0}, [0]) == Failure(IndexError)
  {
    var st := Setting(StepConstraint(), 2, LoopGraph(), 1, SepFront(2, 1, {0, 1}, {0}, 1));
    WalkEdge(st.c, 0, "a", 1);
    WalkEdge(st.g, 0, "a", 0);
    assert SepWalk(st, {0, 1}, {0}, 1, 0);
    assert SepCounted(st, {0, 1}, {0}, {1}, {0}, 1, 0);
  }

  /** The corrected search on the same input labels the block by `i // k` and reports the loop vertex for its start. */
  lemma ConstraintSizeBlocks()
    ensures FixedResult(StepConstraint(), 2, LoopGraph(), 1, {0}, [0], {1}, {0}) == Success({StartVertex(0, 0)})
  {
    var st := Setting(StepConstraint(), 2, LoopGraph(), 1, FixedFront(2, 1, {0}, [0]));
    WalkEdge(st.c, 0, "a", 1);
    WalkEdge(st.g, 0, "a", 0);
    assert Joined(st, {0}, 0, {1}, 0);
    assert FixedReport(st, {0}, [0], {1}, {0}) == {StartVertex(0, 0)};
  }

  /** Graph 0 -a-> 1 over vertices 0 and 1. */
  function StepGraph(): Family {
    map["a" := Matrix(2, 2, {(0, 1)})]
  }

  /** No non-empty walk leaves vertex 1 of `StepGraph`. */
  lemma DeadEnd(w: seq<Symbol>, v: nat)
    requires |w| > 0
    ensures !Walk(StepGraph(), 1, w, v)
  {
  }

  /**
   * Separated search as written, start vertices 0 and 1 over k = n = 2:
   * every copy of the front carries both start vertices, so the block of
   * start vertex 1 reports (1, 1) although no walk leaves vertex 1.
   */
  lemma IdenticalCopies()
    ensures var r := SeparatedResult(StepConstraint(), 2, StepGraph(), 2, {0, 1}, {0, 1}, 2, {1}, {1}, [0, 1]);
            r.Success? && StartVertex(1, 1) in r.value
  {
    var st := Setting(StepConstraint(), 2, StepGraph(), 2, SepFront(2, 2, {0, 1}, {0, 1}, 2));
    assert !SepFails(st, {0, 1}, {0, 1}, {1}, {1}, [0, 1]) by {
      forall i: nat, v: nat | SepCounted(st, {0, 1}, {0, 1}, {1}, {1}, i, v)
        ensures i / 2 < 2
      {
      }
    }
    WalkEdge(st.c, 0, "a", 1);
    WalkEdge(st.g, 0, "a", 1);
    assert SepWalk(st, {0, 1}, {0, 1}, 3, 1);
    assert SepCounted(st, {0, 1}, {0, 1}, {1}, {1}, 3, 1);
    assert RowLabel([0, 1], 2, 3, 1) == StartVertex(1, 1);
  }

  /** The corrected search on the same input pairs vertex 1 only with start vertex 0. */
  lemma SeparateCopies()
    ensures FixedResult(StepConstraint(), 2, StepGraph(), 2, {0}, [0, 1], {1}, {1}) == Success({StartVertex(0, 1)})
  {
    var st := Setting(StepConstraint(), 2, StepGraph(), 2, FixedFront(2, 2, {0}, [0, 1]));
    WalkEdge(st.c, 0, "a", 1);
    WalkEdge(st.g, 0, "a", 1);
    assert Joined(st, {0}, 0, {1}, 1);
    assert !Joined(st, {0}, 1, {1}, 1) by {
      forall w: seq<Symbol> | |w| > 0
        ensures !Walk(st.g, 1, w, 1)
      {
        DeadEnd(w, 1);
      }
    }
    var r := FixedReport(st, {0}, [0, 1], {1}, {1});
    forall a | a in r
      ensures a == StartVertex(0, 1)
    {
      var b, v :| 0 <= b < 2 && v in {1} && Joined(st, {0}, [0, 1][b], {1}, v) && a == StartVertex([0, 1][b], v);
      assert b == 0;
    }
    assert StartVertex([0, 1][0], 1) in r;
    assert r == {StartVertex(0, 1)};
  }

  /** Constraint over states 0, 1, 2 with 1 -a-> 2 and 0 -b-> 2; only 0 is a start state. */
  function TwoWayConstraint(): Family {
    map["a" := Matrix(3, 3, {(1, 2)}), "b" := Matrix(3, 3, {(0, 2)})]
  }

  /**
   * Pooled search as written seeds every constraint state, so the word "a"
   * from state 1 (not a start state) reports vertex 1.
   */
  lemma EveryStateSeeded()
    ensures PooledResult(TwoWayConstraint(), 3, StepGraph(), 2, {0, 1, 2}, {0}, {2}, {1}) == Success({Vertex(1)})
  {
    var st := Setting(TwoWayConstraint(), 3, StepGraph(), 2, FrontOf(3, 2, {0, 1, 2}, {0}));
    WalkEdge(st.c, 1, "a", 2);
    WalkEdge(st.g, 0, "a", 1);
    assert Joined(st, {0, 1, 2}, 0, {2}, 1);
    assert PooledReport(st, {0, 1, 2}, {0}, {2}, {1}) == {Vertex(1)};
  }

  /** Seeding only the constraint's start state, the same search reports nothing: "a" is not accepted. */
  lemma StartStatesSeeded()
    ensures PooledResult(TwoWayConstraint(), 3, StepGraph(), 2, {0}, {0}, {2}, {1}) == Success({})
  {
    var st := Setting(TwoWayConstraint(), 3, StepGraph(), 2, FrontOf(3, 2, {0}, {0}));
    assert !Joined(st, {0}, 0, {2}, 1) by {
      forall q: nat, f: nat, w: seq<Symbol> | q == 0 && |w| > 0 && Walk(st.c, q, w, f)
        ensures !Walk(st.g, 0, w, 1)
      {
        assert w[0] == "b";
      }
    }
    assert PooledReport(st, {0}, {0}, {2}, {1}) == {};
  }
}
