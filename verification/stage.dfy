/** A release stage and the registry of default stages
    (packages/core/src/lib/stage.ts). */
module Stages {
  import opened Wrappers
  import opened Seqs
  import opened OrderedMap
  import opened Graph

  /** `continueOnError?: boolean | "dry-run"`. */
  datatype ContinueOnError = Flag(on: bool) | DryRunOnly

  /** `interface Stage`. An absent optional field is `None`; an absent list
      is different from an empty one only for reading, never for ordering. */
  datatype Stage = Stage(
    id: string,
    continueOnError: Option<ContinueOnError>,
    skipForDryRun: Option<bool>,
    after: Option<seq<string>>,
    before: Option<seq<string>>)

  /** A stage that declares nothing but its id. */
  function Bare(id: string): (s: Stage)
    ensures s.id == id && s.after.None? && s.before.None? && s.continueOnError.None?
  {
    Stage(id, None, None, None, None)
  }

  /** The ids listed in an optional list; an absent list lists nothing. */
  function Listed(ids: Option<seq<string>>): seq<string> {
    if ids.Some? then ids.value else []
  }

  /** `DefaultStages`: a frozen object, so an immutable constant here. */
  const DefaultStages: Entries<string, Stage> := [
    ("check", Stage("check", Some(Flag(false)), None, None, None)),
    ("edit", Stage("edit", None, None, Some(["check"]), None)),
    ("commit", Stage("commit", None, None, Some(["edit"]), None)),
    ("push", Stage("push", None, None, Some(["commit"]), None)),
    ("cleanup", Stage("cleanup", None, None, Some(["push"]), None))
  ]

  /** The default stage ids, in declaration order. */
  const DefaultIds: seq<string> := ["check", "edit", "commit", "push", "cleanup"]

  /** `id in DefaultStages` for the five registry keys. */
  predicate IsDefault(id: string) {
    Has(DefaultStages, id)
  }

  /** `DefaultStages[id]`. */
  function Default(id: string): (s: Stage)
    requires IsDefault(id)
    ensures s.id == id && (id, s) in DefaultStages
  {
    Get(DefaultStages, id).value
  }

  /** The registry holds exactly check, edit, commit, push and cleanup, in
      that order, each entry keyed by its own id. */
  lemma {:induction false} DefaultStagesShape()
    ensures Keys(DefaultStages) == DefaultIds && Valid(DefaultStages)
    ensures forall i :: 0 <= i < |DefaultStages| ==> DefaultStages[i].1.id == DefaultStages[i].0
    ensures forall id :: IsDefault(id) <==> id in DefaultIds
  {
  }

  /** `check` alone has no `after` (and it explicitly stops on errors);
      every other default follows exactly its predecessor; none declares
      `before`. */
  lemma {:induction false} DefaultLinks()
    ensures forall i :: 0 <= i < 5 ==> DefaultStages[i].1.before.None?
    ensures DefaultStages[0].1.after.None? && DefaultStages[0].1.continueOnError == Some(Flag(false))
    ensures forall i :: 1 <= i < 5 ==> DefaultStages[i].1.after == Some([DefaultIds[i - 1]])
  {
  }

  /** The `after` links of the defaults as a graph over positions. */
  const ChainEdges: seq<seq<nat>> := [[], [0], [1], [2], [3]]

  /** The `after` links read off the registry give exactly `ChainEdges`. */
  lemma {:induction false} ChainEdgesFromRegistry()
    ensures |ChainEdges| == |DefaultStages| && ValidEdges(ChainEdges)
    ensures forall i, j :: 0 <= i < 5 && 0 <= j < 5 ==>
      (j in ChainEdges[i] <==> DefaultIds[j] in Listed(DefaultStages[i].1.after))
  {
  }

  /** The chain admits one order only: check, edit, commit, push, cleanup. */
  lemma {:induction false} ChainOnlyOrder(order: seq<nat>)
    requires IsTopologicalOrder(ChainEdges, order)
    ensures order == [0, 1, 2, 3, 4]
  {
    forall v | 0 <= v < 5 ensures v in order {
      Covers(order, 5, v);
    }
    forall v | 1 <= v < 5
      ensures IndexOf(order, v - 1) < IndexOf(order, v)
    {
      var k := IndexOf(order, v);
      assert v - 1 in ChainEdges[order[k]];
      assert v - 1 in order[..k];
      var j :| 0 <= j < k && order[j] == v - 1;
      IndexOfFirst(order, v - 1, j);
    }
    var p0, p1, p2, p3, p4 := IndexOf(order, 0), IndexOf(order, 1), IndexOf(order, 2), IndexOf(order, 3), IndexOf(order, 4);
    assert p0 < p1 < p2 < p3 < p4 < 5;
    assert order[0] == 0 && order[1] == 1 && order[2] == 2 && order[3] == 3 && order[4] == 4;
  }

  lemma {:induction false} IndexOfFirst<T>(s: seq<T>, x: T, j: nat)
    requires j < |s| && s[j] == x
    ensures IndexOf(s, x) <= j
  {
  }

  /** Sorting the chain gives registry order. */
  lemma {:induction false} ChainSorts()
    ensures ValidEdges(ChainEdges)
    ensures SortIndices(ChainEdges) == Success([0, 1, 2, 3, 4])
  {
    ChainEdgesFromRegistry();
    ChainInOrder();
    SortSucceedsIff(ChainEdges);
    ChainOnlyOrder(SortIndices(ChainEdges).value);
  }

  lemma {:induction false} ChainInOrder()
    ensures IsTopologicalOrder(ChainEdges, [0, 1, 2, 3, 4])
  {
    var order: seq<nat> := [0, 1, 2, 3, 4];
    forall k | 1 <= k < 5 ensures k - 1 in order[..k] {
      assert order[..k][k - 1] == k - 1;
    }
  }

  /** The sort puts the defaults in registry order. */
  lemma {:induction false} DefaultsSortInOrder()
    ensures ValidEdges(ChainEdges)
    ensures TopologicalSort(Values(DefaultStages), ChainEdges) == Success(Values(DefaultStages))
  {
    assert Payloads(Values(DefaultStages), [0, 1, 2, 3, 4]) == Values(DefaultStages);
    ChainSorts();
  }

  // ---------------------------------------------------------------------
  // continueOnError
  //
  // The policy the `Stage` interface documents. `execute` in planner.ts
  // never reads it, so nothing in the planner or executor model uses it.
  // ---------------------------------------------------------------------

  /** Whether a run goes on after this stage when errors were recorded. */
  function ContinuesAfterErrors(s: Stage, dryRun: bool): bool {
    match s.continueOnError
    case None => false
    case Some(Flag(b)) => b
    case Some(DryRunOnly) => dryRun
  }

  /** An absent `continueOnError` behaves exactly like `false`. */
  lemma {:induction false} AbsentMeansStop(s: Stage, dryRun: bool)
    requires s.continueOnError.None?
    ensures !ContinuesAfterErrors(s, dryRun)
    ensures ContinuesAfterErrors(s, dryRun) == ContinuesAfterErrors(s.(continueOnError := Some(Flag(false))), dryRun)
  {
  }

  /** `"dry-run"` acts as `true` during a dry run and as `false` otherwise. */
  lemma {:induction false} DryRunOnlyPolicy(s: Stage)
    requires s.continueOnError == Some(DryRunOnly)
    ensures ContinuesAfterErrors(s, true) == ContinuesAfterErrors(s.(continueOnError := Some(Flag(true))), true)
    ensures ContinuesAfterErrors(s, false) == ContinuesAfterErrors(s.(continueOnError := None), false)
  {
  }

  /** No default stage lets a run go on after errors, in a dry run or not:
      `check` says `false` outright and the others leave the flag out. */
  lemma {:induction false} DefaultsStopOnErrors(dryRun: bool)
    ensures forall i :: 0 <= i < |DefaultStages| ==> !ContinuesAfterErrors(DefaultStages[i].1, dryRun)
  {
    forall i | 0 <= i < |DefaultStages| ensures !ContinuesAfterErrors(DefaultStages[i].1, dryRun) {
      if i == 0 {
        assert DefaultStages[0].1.continueOnError == Some(Flag(false));
      } else {
        AbsentMeansStop(DefaultStages[i].1, dryRun);
      }
    }
  }
}
