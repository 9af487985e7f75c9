/** The four cases of packages/core/src/lib/graph.test.ts, worked through the
    model one worklist step at a time. The nodes 1, 2, 3, 4 sit at positions
    0, 1, 2, 3; an edge list `edges[v]` holds the positions `v` depends on. */
module GraphExamples {
  import opened Seqs
  import opened Wrappers
  import opened Graph

  /** One step of a concrete run: `Drain` moves to the state `Step` computes. */
  lemma {:induction false} DrainOne(idx: seq<seq<nat>>, st: KahnState, next: KahnState, fuel: nat)
    requires st.queue != [] && fuel > 0 && st.queue[0] < |idx|
    requires InRange(idx[st.queue[0]], |st.count|) && NoDup(idx[st.queue[0]])
    requires |next.count| == |st.count|
    requires forall v :: 0 <= v < |st.count| ==>
      next.count[v] == st.count[v] - (if v in idx[st.queue[0]] then 1 else 0)
    requires next.queue == st.queue[1..] + ReadyAfter(st.count, idx[st.queue[0]])
    requires next.out == st.out + [st.queue[0]]
    ensures Drain(idx, st, fuel) == Drain(idx, next, fuel - 1)
  {
    StepFormula(idx, st);
    DrainUnfold(idx, st, fuel);
    assert next.count == Step(idx, st).count;
    assert next == Step(idx, st);
  }

  // Test 1

  /** Test 1: 1 -> 2, 1 -> 3, 2 -> 4, 3 -> 4 sorts to [4, 2, 3, 1]. */
  lemma {:induction false} SortsTest1()
    ensures ValidEdges([[1, 2], [3], [3], []])
    ensures TopologicalSort([1, 2, 3, 4], [[1, 2], [3], [3], []]) == Success([4, 2, 3, 1])
  {
    assert Payloads([1, 2, 3, 4], [3, 1, 2, 0]) == [4, 2, 3, 1];
    Indices1();
  }

  lemma {:induction false} Indices1()
    ensures ValidEdges([[1, 2], [3], [3], []])
    ensures SortIndices([[1, 2], [3], [3], []]) == Success([3, 1, 2, 0])
  {
    Run1();
  }

  lemma {:induction false} Run1()
    ensures ValidEdges([[1, 2], [3], [3], []])
    ensures Run([[1, 2], [3], [3], []]) == [3, 1, 2, 0]
  {
    Index1();
    Trace1(BuildIndex([[1, 2], [3], [3], []]), Init([[1, 2], [3], [3], []]));
  }

  lemma {:induction false} Index1()
    ensures ValidEdges([[1, 2], [3], [3], []])
    ensures var idx := BuildIndex([[1, 2], [3], [3], []]);
      |idx| == 4 && idx[0] == [] && idx[1] == [0] && idx[2] == [0] && idx[3] == [1, 2]
  {
    var e: seq<seq<nat>> := [[1, 2], [3], [3], []];
    assert ValidEdges(e);
    Dependents1();
    BuildIndexSpec(e);
  }

  lemma {:induction false} Dependents1()
    ensures var e: seq<seq<nat>> := [[1, 2], [3], [3], []];
      Dependents(e, 0) == [] && Dependents(e, 1) == [0] && Dependents(e, 2) == [0] && Dependents(e, 3) == [1, 2]
  {
    var e: seq<seq<nat>> := [[1, 2], [3], [3], []];
    assert DependentsFrom(e, 3, 3) == [];
    assert DependentsFrom(e, 3, 2) == [2];
    assert DependentsFrom(e, 3, 1) == [1, 2];
  }

  lemma {:induction false} Trace1(idx: seq<seq<nat>>, s0: KahnState)
    requires |idx| == 4 && idx[0] == [] && idx[1] == [0] && idx[2] == [0] && idx[3] == [1, 2]
    requires s0 == KahnState([2, 1, 1, 0], [3], [])
    ensures Drain(idx, s0, 4) == [3, 1, 2, 0]
  {
    Trace1Step0(idx);
    Trace1Step1(idx);
    Trace1Step2(idx);
    Trace1Step3(idx);
  }

  lemma {:induction false} Trace1Step0(idx: seq<seq<nat>>)
    requires |idx| == 4 && idx[0] == [] && idx[1] == [0] && idx[2] == [0] && idx[3] == [1, 2]
    ensures Drain(idx, KahnState([2, 1, 1, 0], [3], []), 4) == Drain(idx, KahnState([2, 0, 0, 0], [1, 2], [3]), 3)
  {
    DrainOne(idx, KahnState([2, 1, 1, 0], [3], []), KahnState([2, 0, 0, 0], [1, 2], [3]), 4);
  }

  lemma {:induction false} Trace1Step1(idx: seq<seq<nat>>)
    requires |idx| == 4 && idx[0] == [] && idx[1] == [0] && idx[2] == [0] && idx[3] == [1, 2]
    ensures Drain(idx, KahnState([2, 0, 0, 0], [1, 2], [3]), 3) == Drain(idx, KahnState([1, 0, 0, 0], [2], [3, 1]), 2)
  {
    DrainOne(idx, KahnState([2, 0, 0, 0], [1, 2], [3]), KahnState([1, 0, 0, 0], [2], [3, 1]), 3);
  }

  lemma {:induction false} Trace1Step2(idx: seq<seq<nat>>)
    requires |idx| == 4 && idx[0] == [] && idx[1] == [0] && idx[2] == [0] && idx[3] == [1, 2]
    ensures Drain(idx, KahnState([1, 0, 0, 0], [2], [3, 1]), 2) == Drain(idx, KahnState([0, 0, 0, 0], [0], [3, 1, 2]), 1)
  {
    DrainOne(idx, KahnState([1, 0, 0, 0], [2], [3, 1]), KahnState([0, 0, 0, 0], [0], [3, 1, 2]), 2);
  }

  lemma {:induction false} Trace1Step3(idx: seq<seq<nat>>)
    requires |idx| == 4 && idx[0] == [] && idx[1] == [0] && idx[2] == [0] && idx[3] == [1, 2]
    ensures Drain(idx, KahnState([0, 0, 0, 0], [0], [3, 1, 2]), 1) == Drain(idx, KahnState([0, 0, 0, 0], [], [3, 1, 2, 0]), 0)
  {
    DrainOne(idx, KahnState([0, 0, 0, 0], [0], [3, 1, 2]), KahnState([0, 0, 0, 0], [], [3, 1, 2, 0]), 1);
  }

  // Test 2

  /** Test 2: 1 -> 4, 1 -> 3, 4 -> 2, 3 -> 4 sorts to [2, 4, 3, 1]. */
  lemma {:induction false} SortsTest2()
    ensures ValidEdges([[3, 2], [], [3], [1]])
    ensures TopologicalSort([1, 2, 3, 4], [[3, 2], [], [3], [1]]) == Success([2, 4, 3, 1])
  {
    assert Payloads([1, 2, 3, 4], [1, 3, 2, 0]) == [2, 4, 3, 1];
    Indices2();
  }

  lemma {:induction false} Indices2()
    ensures ValidEdges([[3, 2], [], [3], [1]])
    ensures SortIndices([[3, 2], [], [3], [1]]) == Success([1, 3, 2, 0])
  {
    Run2();
  }

  lemma {:induction false} Run2()
    ensures ValidEdges([[3, 2], [], [3], [1]])
    ensures Run([[3, 2], [], [3], [1]]) == [1, 3, 2, 0]
  {
    Index2();
    Init2();
    Trace2(BuildIndex([[3, 2], [], [3], [1]]), Init([[3, 2], [], [3], [1]]));
  }

  lemma {:induction false} Init2()
    ensures Init([[3, 2], [], [3], [1]]) == KahnState([2, 0, 1, 1], [1], [])
  {
    var e: seq<seq<nat>> := [[3, 2], [], [3], [1]];
    var c := EdgeCounts(e);
    assert c == [2, 0, 1, 1];
    assert SeedFrom(c, 3) == [] && SeedFrom(c, 2) == [];
    assert SeedFrom(c, 1) == [1] && SeedFrom(c, 0) == [1];
  }

  lemma {:induction false} Index2()
    ensures ValidEdges([[3, 2], [], [3], [1]])
    ensures var idx := BuildIndex([[3, 2], [], [3], [1]]);
      |idx| == 4 && idx[0] == [] && idx[1] == [3] && idx[2] == [0] && idx[3] == [0, 2]
  {
    var e: seq<seq<nat>> := [[3, 2], [], [3], [1]];
    assert ValidEdges(e);
    Dependents2();
    BuildIndexSpec(e);
  }

  lemma {:induction false} Dependents2()
    ensures var e: seq<seq<nat>> := [[3, 2], [], [3], [1]];
      Dependents(e, 0) == [] && Dependents(e, 1) == [3] && Dependents(e, 2) == [0] && Dependents(e, 3) == [0, 2]
  {
    var e: seq<seq<nat>> := [[3, 2], [], [3], [1]];
    assert DependentsFrom(e, 3, 3) == [];
    assert DependentsFrom(e, 3, 2) == [2];
    assert DependentsFrom(e, 3, 1) == [2];
  }

  lemma {:induction false} Trace2(idx: seq<seq<nat>>, s0: KahnState)
    requires |idx| == 4 && idx[0] == [] && idx[1] == [3] && idx[2] == [0] && idx[3] == [0, 2]
    requires s0 == KahnState([2, 0, 1, 1], [1], [])
    ensures Drain(idx, s0, 4) == [1, 3, 2, 0]
  {
    Trace2Step0(idx);
    Trace2Step1(idx);
    Trace2Step2(idx);
    Trace2Step3(idx);
  }

  lemma {:induction false} Trace2Step0(idx: seq<seq<nat>>)
    requires |idx| == 4 && idx[0] == [] && idx[1] == [3] && idx[2] == [0] && idx[3] == [0, 2]
    ensures Drain(idx, KahnState([2, 0, 1, 1], [1], []), 4) == Drain(idx, KahnState([2, 0, 1, 0], [3], [1]), 3)
  {
    DrainOne(idx, KahnState([2, 0, 1, 1], [1], []), KahnState([2, 0, 1, 0], [3], [1]), 4);
  }

  lemma {:induction false} Trace2Step1(idx: seq<seq<nat>>)
    requires |idx| == 4 && idx[0] == [] && idx[1] == [3] && idx[2] == [0] && idx[3] == [0, 2]
    ensures Drain(idx, KahnState([2, 0, 1, 0], [3], [1]), 3) == Drain(idx, KahnState([1, 0, 0, 0], [2], [1, 3]), 2)
  {
    DrainOne(idx, KahnState([2, 0, 1, 0], [3], [1]), KahnState([1, 0, 0, 0], [2], [1, 3]), 3);
  }

  lemma {:induction false} Trace2Step2(idx: seq<seq<nat>>)
    requires |idx| == 4 && idx[0] == [] && idx[1] == [3] && idx[2] == [0] && idx[3] == [0, 2]
    ensures Drain(idx, KahnState([1, 0, 0, 0], [2], [1, 3]), 2) == Drain(idx, KahnState([0, 0, 0, 0], [0], [1, 3, 2]), 1)
  {
    DrainOne(idx, KahnState([1, 0, 0, 0], [2], [1, 3]), KahnState([0, 0, 0, 0], [0], [1, 3, 2]), 2);
  }

  lemma {:induction false} Trace2Step3(idx: seq<seq<nat>>)
    requires |idx| == 4 && idx[0] == [] && idx[1] == [3] && idx[2] == [0] && idx[3] == [0, 2]
    ensures Drain(idx, KahnState([0, 0, 0, 0], [0], [1, 3, 2]), 1) == Drain(idx, KahnState([0, 0, 0, 0], [], [1, 3, 2, 0]), 0)
  {
    DrainOne(idx, KahnState([0, 0, 0, 0], [0], [1, 3, 2]), KahnState([0, 0, 0, 0], [], [1, 3, 2, 0]), 1);
  }

  // Test 4

  /** Test 4: with only 2 -> 3 the unconstrained nodes keep their input
      order: [1, 3, 4, 2]. */
  lemma {:induction false} SortsTest4()
    ensures ValidEdges([[], [2], [], []])
    ensures TopologicalSort([1, 2, 3, 4], [[], [2], [], []]) == Success([1, 3, 4, 2])
  {
    assert Payloads([1, 2, 3, 4], [0, 2, 3, 1]) == [1, 3, 4, 2];
    Indices4();
  }

  lemma {:induction false} Indices4()
    ensures ValidEdges([[], [2], [], []])
    ensures SortIndices([[], [2], [], []]) == Success([0, 2, 3, 1])
  {
    Run4();
  }

  lemma {:induction false} Run4()
    ensures ValidEdges([[], [2], [], []])
    ensures Run([[], [2], [], []]) == [0, 2, 3, 1]
  {
    Index4();
    Init4();
    Trace4(BuildIndex([[], [2], [], []]), Init([[], [2], [], []]));
  }

  lemma {:induction false} Init4()
    ensures Init([[], [2], [], []]) == KahnState([0, 1, 0, 0], [0, 2, 3], [])
  {
    var e: seq<seq<nat>> := [[], [2], [], []];
    assert EdgeCounts(e) == [0, 1, 0, 0];
    Seed4();
  }

  lemma {:induction false} Seed4()
    ensures SeedFrom([0, 1, 0, 0], 0) == [0, 2, 3]
  {
    var c := [0, 1, 0, 0];
    assert SeedFrom(c, 2) == [2, 3] by {
      assert SeedFrom(c, 3) == [3];
    }
    assert SeedFrom(c, 0) == [0] + SeedFrom(c, 2);
  }

  lemma {:induction false} Index4()
    ensures ValidEdges([[], [2], [], []])
    ensures var idx := BuildIndex([[], [2], [], []]);
      |idx| == 4 && idx[0] == [] && idx[1] == [] && idx[2] == [1] && idx[3] == []
  {
    var e: seq<seq<nat>> := [[], [2], [], []];
    assert ValidEdges(e);
    Dependents4();
    BuildIndexSpec(e);
  }

  lemma {:induction false} Dependents4()
    ensures var e: seq<seq<nat>> := [[], [2], [], []];
      Dependents(e, 0) == [] && Dependents(e, 1) == [] && Dependents(e, 2) == [1] && Dependents(e, 3) == []
  {
    var e: seq<seq<nat>> := [[], [2], [], []];
  }

  lemma {:induction false} Trace4(idx: seq<seq<nat>>, s0: KahnState)
    requires |idx| == 4 && idx[0] == [] && idx[1] == [] && idx[2] == [1] && idx[3] == []
    requires s0 == KahnState([0, 1, 0, 0], [0, 2, 3], [])
    ensures Drain(idx, s0, 4) == [0, 2, 3, 1]
  {
    Trace4Step0(idx);
    Trace4Step1(idx);
    Trace4Step2(idx);
    Trace4Step3(idx);
  }

  lemma {:induction false} Trace4Step0(idx: seq<seq<nat>>)
    requires |idx| == 4 && idx[0] == [] && idx[1] == [] && idx[2] == [1] && idx[3] == []
    ensures Drain(idx, KahnState([0, 1, 0, 0], [0, 2, 3], []), 4) == Drain(idx, KahnState([0, 1, 0, 0], [2, 3], [0]), 3)
  {
    DrainOne(idx, KahnState([0, 1, 0, 0], [0, 2, 3], []), KahnState([0, 1, 0, 0], [2, 3], [0]), 4);
  }

  lemma {:induction false} Trace4Step1(idx: seq<seq<nat>>)
    requires |idx| == 4 && idx[0] == [] && idx[1] == [] && idx[2] == [1] && idx[3] == []
    ensures Drain(idx, KahnState([0, 1, 0, 0], [2, 3], [0]), 3) == Drain(idx, KahnState([0, 0, 0, 0], [3, 1], [0, 2]), 2)
  {
    DrainOne(idx, KahnState([0, 1, 0, 0], [2, 3], [0]), KahnState([0, 0, 0, 0], [3, 1], [0, 2]), 3);
  }

  lemma {:induction false} Trace4Step2(idx: seq<seq<nat>>)
    requires |idx| == 4 && idx[0] == [] && idx[1] == [] && idx[2] == [1] && idx[3] == []
    ensures Drain(idx, KahnState([0, 0, 0, 0], [3, 1], [0, 2]), 2) == Drain(idx, KahnState([0, 0, 0, 0], [1], [0, 2, 3]), 1)
  {
    DrainOne(idx, KahnState([0, 0, 0, 0], [3, 1], [0, 2]), KahnState([0, 0, 0, 0], [1], [0, 2, 3]), 2);
  }

  lemma {:induction false} Trace4Step3(idx: seq<seq<nat>>)
    requires |idx| == 4 && idx[0] == [] && idx[1] == [] && idx[2] == [1] && idx[3] == []
    ensures Drain(idx, KahnState([0, 0, 0, 0], [1], [0, 2, 3]), 1) == Drain(idx, KahnState([0, 0, 0, 0], [], [0, 2, 3, 1]), 0)
  {
    DrainOne(idx, KahnState([0, 0, 0, 0], [1], [0, 2, 3]), KahnState([0, 0, 0, 0], [], [0, 2, 3, 1]), 1);
  }

  // Test 3

  /** Test 3: the cycle 1 -> 2 -> 4 -> 3 -> 1 makes the sort fail. */
  lemma {:induction false} SortsTest3()
    ensures ValidEdges([[1], [3], [0], [2]])
    ensures TopologicalSort([1, 2, 3, 4], [[1], [3], [0], [2]]).Failure?
  {
    var e: seq<seq<nat>> := [[1], [3], [0], [2]];
    assert ValidEdges(e);
    var c: seq<nat> := [0, 1, 3, 2];
    assert IsCycle(e, c);
    CycleFails(e, c);
  }
}
