/** `planStages` and `planStage` of packages/core/src/lib/planner.ts, as
    written there: stages are ordered by `after` only, plugins within a
    stage by `stageDependencies` only. */
module StagePlanner {
  import opened Wrappers
  import opened Seqs
  import opened OrderedMap
  import opened Stages
  import opened Scheduling
  import opened Planner

  // ---------------------------------------------------------------------
  // Resolving and memoising `stages`
  // ---------------------------------------------------------------------

  /** The stages a plugin contributes; a plugin without `stages`
      contributes none. */
  function StagesOf(p: Plugin): seq<Stage> {
    match p.stages
    case None => []
    case Some(c) => Resolve(c)
  }

  /** `stages` is absent or already a list. */
  predicate Memoised(p: Plugin) {
    p.stages.None? || p.stages.value.Const?
  }

  /** `plugin.stages = await stages(context)` for a function-valued
      `stages`; any other plugin is left as it is. */
  function Memoise(p: Plugin): (q: Plugin)
    ensures Memoised(q) && StagesOf(q) == StagesOf(p)
    ensures q.(stages := p.stages) == p
    ensures Memoised(p) ==> q == p
  {
    match p.stages
    case Some(Dynamic(v)) => p.(stages := Some(Const(v)))
    case _ => p
  }

  /** The write-back pass 1 of `planStages` leaves on `context.plugins`. */
  function MemoiseAll(ps: seq<Plugin>): (qs: seq<Plugin>)
    ensures |qs| == |ps| && forall k :: 0 <= k < |ps| ==> qs[k] == Memoise(ps[k])
  {
    if ps == [] then [] else [Memoise(ps[0])] + MemoiseAll(ps[1..])
  }

  /** After the write-back every plugin holds a list, the same stages as
      before and the same id; a second write-back changes nothing. */
  lemma {:induction false} MemoiseAllSpec(ps: seq<Plugin>)
    ensures Ids(MemoiseAll(ps)) == Ids(ps)
    ensures forall k :: 0 <= k < |ps| ==>
      Memoised(MemoiseAll(ps)[k]) && StagesOf(MemoiseAll(ps)[k]) == StagesOf(ps[k])
    ensures MemoiseAll(MemoiseAll(ps)) == MemoiseAll(ps)
  {
  }

  // ---------------------------------------------------------------------
  // planStages
  // ---------------------------------------------------------------------

  function StageId(s: Stage): string {
    s.id
  }

  /** `stage.after`; an absent list names nothing (`if (!after) continue`). */
  function StageAfter(s: Stage): seq<string> {
    Listed(s.after)
  }

  /** Each stage paired with its id. */
  function Keyed(ss: seq<Stage>): (r: seq<(string, Stage)>)
    ensures |r| == |ss| && forall i :: 0 <= i < |ss| ==> r[i] == (ss[i].id, ss[i])
  {
    if ss == [] then [] else [(ss[0].id, ss[0])] + Keyed(ss[1..])
  }

  /** Every stage of every plugin, in plugin order, keyed by id. */
  function StageEntries(ps: seq<Plugin>): seq<(string, Stage)> {
    if ps == [] then [] else Keyed(StagesOf(ps[0])) + StageEntries(ps[1..])
  }

  /** The ids contributed, with repetitions, in contribution order. */
  function Contributed(ps: seq<Plugin>): seq<string> {
    Keys(StageEntries(ps))
  }

  /** An id is contributed exactly when some plugin lists a stage with it. */
  lemma {:induction false} ContributedSpec(ps: seq<Plugin>)
    ensures forall x :: x in Contributed(ps) <==> exists k :: 0 <= k < |ps| && Takes(ps[k], x)
    decreases |ps|
  {
    if ps != [] {
      ContributedSpec(ps[1..]);
      ContributedCons(ps);
      forall x ensures x in Contributed(ps) <==> exists k :: 0 <= k < |ps| && Takes(ps[k], x) {
        if x !in StageIds(StagesOf(ps[0])) && x in Contributed(ps[1..]) {
          var k :| 0 <= k < |ps[1..]| && Takes(ps[1..][k], x);
          assert Takes(ps[k + 1], x);
        }
        if exists k :: 0 <= k < |ps| && Takes(ps[k], x) {
          var k :| 0 <= k < |ps| && Takes(ps[k], x);
          if k > 0 {
            assert Takes(ps[1..][k - 1], x);
          }
        }
      }
    }
  }

  lemma {:induction false} ContributedCons(ps: seq<Plugin>)
    requires ps != []
    ensures Contributed(ps) == StageIds(StagesOf(ps[0])) + Contributed(ps[1..])
  {
    var a, b := Keyed(StagesOf(ps[0])), StageEntries(ps[1..]);
    assert StageEntries(ps) == a + b;
    KeysAppend(a, b);
    assert Keys(a) == StageIds(StagesOf(ps[0]));
  }

  /** Every entry is keyed by its stage's own id. */
  lemma {:induction false} StageEntriesKeyed(ps: seq<Plugin>)
    ensures forall e :: e in StageEntries(ps) ==> e.1.id == e.0
    decreases |ps|
  {
    if ps != [] {
      StageEntriesKeyed(ps[1..]);
    }
  }

  /** The ids of a list of stages. */
  function StageIds(ss: seq<Stage>): (r: seq<string>)
    ensures |r| == |ss| && forall i :: 0 <= i < |ss| ==> r[i] == ss[i].id
  {
    if ss == [] then [] else [ss[0].id] + StageIds(ss[1..])
  }

  /** Whether the plugin lists a stage with id `sid`. */
  predicate Takes(p: Plugin, sid: string) {
    sid in StageIds(StagesOf(p))
  }

  /** `graphNodes` after pass 1: `Map.set(stage.id, …)` for every
      contributed stage. */
  function StageMap(ps: seq<Plugin>): (m: Entries<string, Stage>)
    ensures Valid(m) && KeyedBy(m, StageId)
  {
    PutAllSpec([], StageEntries(ps));
    PutAllEntries([], StageEntries(ps));
    StageEntriesKeyed(ps);
    PutAll([], StageEntries(ps))
  }

  /** The nodes are the contributed ids, once each, in order of first
      contribution; each holds the stage contributed last under its id. */
  lemma {:induction false} StageMapSpec(ps: seq<Plugin>)
    ensures Keys(StageMap(ps)) == Distinct(Contributed(ps))
    ensures forall x :: x in Keys(StageMap(ps)) <==> x in Contributed(ps)
    ensures forall x :: (Get(StageMap(ps), x) ==
      if x in Contributed(ps) then Some(LastValue(StageEntries(ps), x)) else None)
  {
    PutAllSpec([], StageEntries(ps));
    DistinctSpec(Contributed(ps));
  }

  /** The planner's message for an `after` id without a node. */
  function UnknownAfter(s: Stage, d: string): PlanError {
    UnknownStageDependency(s.id, d)
  }

  /** `planStages`: every contributed stage, ordered by `after`. */
  function PlanStages(ps: seq<Plugin>): Result<seq<Stage>, PlanError> {
    PlanMap(StageMap(ps), StageAfter, UnknownAfter)
  }

  /** The plan succeeds exactly when the contributed stages can be ordered
      so that each follows its `after` ids, and then it is such an order;
      it fails with the first unknown `after` id in node order, or with a
      cycle when there is none. */
  lemma {:induction false} PlanStagesSpec(ps: seq<Plugin>)
    ensures PlanStages(ps).Success? <==> exists out :: MapOrder(StageMap(ps), StageId, StageAfter, out)
    ensures var r := PlanStages(ps);
      r.Success? ==> MapOrder(StageMap(ps), StageId, StageAfter, r.value)
    ensures var r := PlanStages(ps);
      DepsKnown(StageMap(ps), StageAfter) ==> r.Success? || r == Failure(DependencyCycle)
    ensures var r := PlanStages(ps);
      !DepsKnown(StageMap(ps), StageAfter) ==> exists i: nat, d ::
        FirstUnknownAt(StageMap(ps), StageAfter, i, d) && r == Failure(UnknownStageDependency(StageMap(ps)[i].0, d))
  {
    PlanMapSpec(StageMap(ps), StageId, StageAfter, UnknownAfter);
    PlanMapFails(StageMap(ps), StageAfter, UnknownAfter);
  }

  /** Pass 1 reads only the resolved stages, so planning again after the
      write-back gives the same plan. */
  lemma {:induction false} PlanStagesMemoised(ps: seq<Plugin>)
    ensures StageEntries(MemoiseAll(ps)) == StageEntries(ps)
    ensures PlanStages(MemoiseAll(ps)) == PlanStages(ps)
    decreases |ps|
  {
    if ps != [] {
      PlanStagesMemoised(ps[1..]);
      assert MemoiseAll(ps)[1..] == MemoiseAll(ps[1..]);
    }
  }

  // ---------------------------------------------------------------------
  // planStage
  // ---------------------------------------------------------------------

  /** The filter of `planStage`: a plugin without `stages` is skipped; one
      whose `stages` is still a function has no `.some`, which throws. */
  function Participants(ps: seq<Plugin>, sid: string): (r: Result<seq<Plugin>, PlanError>)
    ensures r.Failure? <==> exists k :: 0 <= k < |ps| && !Memoised(ps[k])
    ensures r.Failure? ==> exists k :: (0 <= k < |ps| && !Memoised(ps[k]) &&
      r.error == StagesNotResolved(ps[k].id) && forall j :: 0 <= j < k ==> Memoised(ps[j]))
    ensures r.Success? ==> forall p :: p in r.value <==> p in ps && Takes(p, sid)
    ensures r.Success? ==> Subsequence(r.value, ps)
  {
    if ps == [] then Success([])
    else if !Memoised(ps[0]) then Failure(StagesNotResolved(ps[0].id))
    else
      match Participants(ps[1..], sid)
      case Failure(e) =>
        assert forall k :: 1 <= k < |ps| ==> ps[k] == ps[1..][k - 1];
        Failure(e)
      case Success(rest) =>
        assert forall k :: 1 <= k < |ps| ==> ps[k] == ps[1..][k - 1];
        if Takes(ps[0], sid) then Success([ps[0]] + rest) else Success(rest)
  }

  /** `a` is `b` with some entries left out, the rest in the same order. */
  predicate Subsequence<T(==)>(a: seq<T>, b: seq<T>)
    decreases |b|
  {
    if a == [] then true
    else if b == [] then false
    else if a[0] == b[0] then Subsequence(a[1..], b[1..])
    else Subsequence(a, b[1..])
  }

  /** Each plugin paired with its id. */
  function KeyedPlugins(ps: seq<Plugin>): (r: seq<(string, Plugin)>)
    ensures |r| == |ps| && forall i :: 0 <= i < |ps| ==> r[i] == (ps[i].id, ps[i])
  {
    if ps == [] then [] else [(ps[0].id, ps[0])] + KeyedPlugins(ps[1..])
  }

  function PluginId(p: Plugin): string {
    p.id
  }

  /** `graphNodes` of `planStage`: `Map.set(plugin.id, …)` per participant. */
  function PluginMap(parts: seq<Plugin>): (m: Entries<string, Plugin>)
    ensures Valid(m) && KeyedBy(m, PluginId)
    ensures Keys(m) == Distinct(Ids(parts))
    ensures forall e :: e in m ==> e.1 in parts
  {
    var es := KeyedPlugins(parts);
    var m := PutAll([], es);
    assert Valid(m) && Keys(m) == Distinct(Ids(parts)) by {
      PutAllSpec([], es);
      assert Keys(es) == Ids(parts);
    }
    assert KeyedBy(m, PluginId) && forall e :: e in m ==> e.1 in parts by {
      PutAllEntries([], es);
      assert forall e :: e in es ==> e.1 in parts && e.0 == e.1.id;
      forall i | 0 <= i < |m| ensures PluginId(m[i].1) == m[i].0 {
        assert m[i] in m;
      }
    }
    m
  }

  /** `plugin.stageDependencies?.[sid]`, resolved: a callback is awaited
      afresh on every call and nothing is written back. */
  function StageDeps(p: Plugin, sid: string): seq<string> {
    match p.stageDependencies
    case None => []
    case Some(m) => if sid in m then Resolve(m[sid]) else []
  }

  function DepsIn(sid: string): Plugin -> seq<string> {
    p => StageDeps(p, sid)
  }

  /** The planner's message for a dependency on a non-participant. */
  function UnknownIn(sid: string): (Plugin, string) -> PlanError {
    (p: Plugin, d: string) => UnknownPluginDependency(p.id, d, sid)
  }

  /** `planStage`: the plugins taking part in `stage`, ordered by their
      dependencies for it. */
  function PlanStage(ps: seq<Plugin>, stage: Stage): Result<seq<Plugin>, PlanError> {
    match Participants(ps, stage.id)
    case Failure(e) => Failure(e)
    case Success(parts) => PlanMap(PluginMap(parts), DepsIn(stage.id), UnknownIn(stage.id))
  }

  /** On resolved plugins the plan succeeds exactly when the participants
      can be ordered so that each follows the plugins it depends on in this
      stage, and then it is such an order; it fails with the first unknown
      dependency in participant order, or with a cycle when there is none. */
  lemma {:induction false} PlanStageSpec(ps: seq<Plugin>, stage: Stage)
    requires forall k :: 0 <= k < |ps| ==> Memoised(ps[k])
    ensures Participants(ps, stage.id).Success?
    ensures var m := PluginMap(Participants(ps, stage.id).value);
      PlanStage(ps, stage).Success? <==> exists out :: MapOrder(m, PluginId, DepsIn(stage.id), out)
    ensures var m := PluginMap(Participants(ps, stage.id).value);
      var r := PlanStage(ps, stage);
      r.Success? ==> MapOrder(m, PluginId, DepsIn(stage.id), r.value)
    ensures var m := PluginMap(Participants(ps, stage.id).value);
      var r := PlanStage(ps, stage);
      DepsKnown(m, DepsIn(stage.id)) ==> r.Success? || r == Failure(DependencyCycle)
    ensures var m := PluginMap(Participants(ps, stage.id).value);
      var r := PlanStage(ps, stage);
      !DepsKnown(m, DepsIn(stage.id)) ==> exists i: nat, d ::
        FirstUnknownAt(m, DepsIn(stage.id), i, d) && r == Failure(UnknownPluginDependency(m[i].0, d, stage.id))
  {
    var m := PluginMap(Participants(ps, stage.id).value);
    PlanMapSpec(m, PluginId, DepsIn(stage.id), UnknownIn(stage.id));
    PlanMapFails(m, DepsIn(stage.id), UnknownIn(stage.id));
  }

  /** Only a plugin whose `stages` was never resolved can make the filter
      throw, and the error names the first such plugin. */
  lemma {:induction false} PlanStageUnresolved(ps: seq<Plugin>, stage: Stage)
    ensures var r := PlanStage(ps, stage);
      (r.Failure? && r.error.StagesNotResolved?) <==> exists k :: 0 <= k < |ps| && !Memoised(ps[k])
  {
    var r := PlanStage(ps, stage);
    var parts := Participants(ps, stage.id);
    if parts.Success? {
      var m := PluginMap(parts.value);
      PlanMapFails(m, DepsIn(stage.id), UnknownIn(stage.id));
    }
  }

  /** A stage's plan lists each participant once, by id, and places every
      plugin after the plugins it depends on in that stage; every plugin in
      it takes part in the stage. */
  lemma {:induction false} PlanStageOrder(ps: seq<Plugin>, stage: Stage)
    requires forall k :: 0 <= k < |ps| ==> Memoised(ps[k])
    ensures PlanStage(ps, stage).Success? ==>
      var out := PlanStage(ps, stage).value;
      NoDup(Ids(out)) &&
      (forall p :: p in out ==> p in ps && Takes(p, stage.id)) &&
      forall j, d :: 0 <= j < |out| && d in StageDeps(out[j], stage.id) ==> d in Ids(out)[..j]
  {
    if PlanStage(ps, stage).Failure? { return; }
    PlanStageSpec(ps, stage);
    var parts := Participants(ps, stage.id).value;
    var m := PluginMap(parts);
    var out := PlanStage(ps, stage).value;
    assert MapOrder(m, PluginId, DepsIn(stage.id), out);
    assert KeysOf(out, PluginId) == Ids(out);
    forall p | p in out ensures p in ps && Takes(p, stage.id) {
      var k :| 0 <= k < |out| && out[k] == p;
      assert Get(m, PluginId(out[k])) == Some(out[k]);
      assert (PluginId(out[k]), out[k]) in m;
    }
    forall j, d | 0 <= j < |out| && d in StageDeps(out[j], stage.id) ensures d in Ids(out)[..j] {
      assert d in DepsIn(stage.id)(out[j]);
    }
  }

  /** With distinct plugin ids, a stage's plan holds exactly the plugins
      that list the stage. */
  lemma {:induction false} PlanStageMembers(ps: seq<Plugin>, stage: Stage)
    requires forall k :: 0 <= k < |ps| ==> Memoised(ps[k])
    requires NoDup(Ids(ps))
    ensures PlanStage(ps, stage).Success? ==>
      forall p :: p in PlanStage(ps, stage).value <==> p in ps && Takes(p, stage.id)
  {
    if PlanStage(ps, stage).Failure? { return; }
    PlanStageSpec(ps, stage);
    PlanStageOrder(ps, stage);
    var parts := Participants(ps, stage.id).value;
    var out := PlanStage(ps, stage).value;
    forall p | p in parts ensures p in out {
      PlanStageCovers(ps, stage, p);
    }
  }

  lemma {:induction false} PlanStageCovers(ps: seq<Plugin>, stage: Stage, p: Plugin)
    requires forall k :: 0 <= k < |ps| ==> Memoised(ps[k])
    requires NoDup(Ids(ps))
    ensures (PlanStage(ps, stage).Success? && Participants(ps, stage.id).Success? &&
             p in Participants(ps, stage.id).value) ==> p in PlanStage(ps, stage).value
  {
    if PlanStage(ps, stage).Failure? || Participants(ps, stage.id).Failure? || p !in Participants(ps, stage.id).value {
      return;
    }
    PlanStageSpec(ps, stage);
    var parts := Participants(ps, stage.id).value;
    var m := PluginMap(parts);
    var out := PlanStage(ps, stage).value;
    assert MapOrder(m, PluginId, DepsIn(stage.id), out);
    assert p.id in Keys(m) by {
      var i :| 0 <= i < |parts| && parts[i] == p;
      assert Ids(parts)[i] == p.id;
      DistinctSpec(Ids(parts));
    }
    var k := MapOrderFind(m, out, p.id);
    assert (p.id, out[k]) in m;
    SameId(ps, p, out[k]);
  }

  /** A key of the map is the key of some plugin in a map order of it. */
  lemma {:induction false} MapOrderFind(m: Entries<string, Plugin>, out: seq<Plugin>, id: string) returns (k: nat)
    requires NoDup(KeysOf(out, PluginId)) && (forall x :: x in KeysOf(out, PluginId) <==> x in Keys(m))
    requires forall k :: 0 <= k < |out| ==> Get(m, PluginId(out[k])) == Some(out[k])
    requires id in Keys(m)
    ensures k < |out| && out[k].id == id && Get(m, id) == Some(out[k])
  {
    assert id in KeysOf(out, PluginId);
    var j :| 0 <= j < |out| && KeysOf(out, PluginId)[j] == id;
    k := j;
  }

  /** In a list with distinct ids, an id picks out one plugin. */
  lemma {:induction false} SameId(ps: seq<Plugin>, p: Plugin, q: Plugin)
    requires NoDup(Ids(ps)) && p in ps && q in ps && p.id == q.id
    ensures p == q
  {
    var i :| 0 <= i < |ps| && ps[i] == p;
    var j :| 0 <= j < |ps| && ps[j] == q;
    assert Ids(ps)[i] == p.id && Ids(ps)[j] == q.id;
    assert i == j;
  }
}
