/** `execute` of packages/core/src/lib/planner.ts: plan the stages, then
    for each stage plan its plugins and call `executeStage` on each, one
    after another, with no look at `context.errors` in between. The first
    call that throws ends the loop, and `execute` rejects with its error.
    The calls are recorded instead of performed. */
module Executor {
  import opened Wrappers
  import opened Seqs
  import opened Stages
  import opened Scheduling
  import opened Planner
  import opened StagePlanner
  import ReleaseScript

  /** One `plugin.executeStage(context, stage)` call. */
  datatype Call = Call(plugin: Plugin, stage: Stage)

  /** Why `execute` rejected: `planStages` or `planStage` threw, or one
      `executeStage` call did. */
  datatype Stop = Unplanned(cause: PlanError) | Threw(call: Call, thrown: ReleaseScript.Thrown)

  /** What `execute` leaves behind: the calls it made, in order, the
      plugins after the write-back of resolved `stages`, and the error it
      rejected with, if any. */
  datatype Run = Run(calls: seq<Call>, plugins: seq<Plugin>, error: Option<Stop>)

  /** How the loop plans one stage (`planStage(context, stage)`). */
  type StagePlan = Stage -> Result<seq<Plugin>, PlanError>

  /** Whether an `executeStage` call returns (`None`) or throws. The loop
      makes each (stage, plugin) call at most once (`PlannedOnce`), so a
      function of the call is as general as a list of answers in call
      order. */
  type Outcomes = Call -> Option<ReleaseScript.Thrown>

  /** The calls for one stage: each planned plugin once, in plan order. */
  function Batch(plugins: seq<Plugin>, stage: Stage): (r: seq<Call>)
    ensures |r| == |plugins| && forall i :: 0 <= i < |plugins| ==> r[i] == Call(plugins[i], stage)
  {
    if plugins == [] then [] else [Call(plugins[0], stage)] + Batch(plugins[1..], stage)
  }

  /** The calls the stage loop makes when every `executeStage` call
      returns: each stage's batch in turn, up to the first stage whose
      planning throws. */
  function PlannedCalls(plan: StagePlan, stages: seq<Stage>): (seq<Call>, Option<PlanError>)
    decreases |stages|
  {
    if stages == [] then ([], None)
    else match plan(stages[0])
      case Failure(e) => ([], Some(e))
      case Success(plugins) =>
        var rest := PlannedCalls(plan, stages[1..]);
        (Batch(plugins, stages[0]) + rest.0, rest.1)
  }

  /** `for (const plugin of plugins) await plugin.executeStage(context,
      stage)`: the calls up to and including the first that throws. */
  function RunBatch(outcome: Outcomes, batch: seq<Call>): (seq<Call>, Option<Stop>)
    decreases |batch|
  {
    if batch == [] then ([], None)
    else if outcome(batch[0]).Some? then ([batch[0]], Some(Threw(batch[0], outcome(batch[0]).value)))
    else
      var rest := RunBatch(outcome, batch[1..]);
      ([batch[0]] + rest.0, rest.1)
  }

  /** `for (const stage of stages)`: plan the stage's plugins, then call
      each; a planning error or a throwing call ends the loop. */
  function RunStages(plan: StagePlan, outcome: Outcomes, stages: seq<Stage>): (seq<Call>, Option<Stop>)
    decreases |stages|
  {
    if stages == [] then ([], None)
    else match plan(stages[0])
      case Failure(e) => ([], Some(Unplanned(e)))
      case Success(plugins) =>
        var done := RunBatch(outcome, Batch(plugins, stages[0]));
        if done.1.Some? then done
        else
          var rest := RunStages(plan, outcome, stages[1..]);
          (done.0 + rest.0, rest.1)
  }

  /** `planStage` on the given plugins, as the loop calls it. */
  function PlanIn(ps: seq<Plugin>): (plan: StagePlan)
    ensures forall s :: plan(s) == PlanStage(ps, s)
  {
    s => PlanStage(ps, s)
  }

  /** `execute(context)`. Pass 1 of `planStages` writes the resolved
      `stages` back before pass 2 can throw. */
  function Execute(ps: seq<Plugin>, outcome: Outcomes): Run {
    var memo := MemoiseAll(ps);
    match PlanStages(ps)
    case Failure(e) => Run([], memo, Some(Unplanned(e)))
    case Success(stages) =>
      var run := RunStages(PlanIn(memo), outcome, stages);
      Run(run.0, memo, run.1)
  }

  // ---------------------------------------------------------------------
  // The stage loop when every call returns
  // ---------------------------------------------------------------------

  /** Every stage was planned without an error. */
  predicate Completed(plan: StagePlan, stages: seq<Stage>) {
    forall m :: 0 <= m < |stages| ==> plan(stages[m]).Success?
  }

  lemma {:induction false} CompletedCons(plan: StagePlan, stages: seq<Stage>)
    requires stages != []
    ensures Completed(plan, stages) <==> plan(stages[0]).Success? && Completed(plan, stages[1..])
  {
    if plan(stages[0]).Success? && Completed(plan, stages[1..]) {
      forall m | 0 <= m < |stages| ensures plan(stages[m]).Success? {
        if m > 0 {
          assert stages[m] == stages[1..][m - 1];
        }
      }
    }
  }

  /** Planning reports no error exactly when every stage was planned; an
      error is the first failing stage's, and the calls listed are exactly
      those of the stages before it. */
  lemma {:induction false} PlannedStops(plan: StagePlan, stages: seq<Stage>)
    ensures PlannedCalls(plan, stages).1.None? <==> Completed(plan, stages)
    ensures var (calls, err) := PlannedCalls(plan, stages);
      err.Some? ==> exists n :: (0 <= n < |stages| &&
        plan(stages[n]) == Failure(err.value) &&
        Completed(plan, stages[..n]) &&
        calls == PlannedCalls(plan, stages[..n]).0)
    decreases |stages|
  {
    if stages != [] {
      CompletedCons(plan, stages);
      if plan(stages[0]).Success? {
        PlannedStops(plan, stages[1..]);
        var err := PlannedCalls(plan, stages).1;
        if err.Some? {
          StopsCons(plan, stages);
        }
      } else {
        assert stages[..0] == [];
      }
    }
  }

  lemma {:induction false} StopsCons(plan: StagePlan, stages: seq<Stage>)
    requires stages != [] && plan(stages[0]).Success?
    requires var (calls, err) := PlannedCalls(plan, stages[1..]);
      err.Some? && exists n :: (0 <= n < |stages[1..]| &&
        plan(stages[1..][n]) == Failure(err.value) &&
        Completed(plan, stages[1..][..n]) &&
        calls == PlannedCalls(plan, stages[1..][..n]).0)
    ensures var (calls, err) := PlannedCalls(plan, stages);
      err.Some? && exists n :: (0 <= n < |stages| &&
        plan(stages[n]) == Failure(err.value) &&
        Completed(plan, stages[..n]) &&
        calls == PlannedCalls(plan, stages[..n]).0)
  {
    var t := stages[1..];
    var (calls, err) := PlannedCalls(plan, t);
    var n :| 0 <= n < |t| && plan(t[n]) == Failure(err.value) &&
      Completed(plan, t[..n]) && calls == PlannedCalls(plan, t[..n]).0;
    var pre := stages[..n + 1];
    assert pre[0] == stages[0] && pre[1..] == t[..n];
    CompletedCons(plan, pre);
    assert stages[n + 1] == t[n];
  }

  /** When every stage plans, a call is listed exactly for each stage and
      each plugin planned for it. */
  lemma {:induction false} PlannedMembers(plan: StagePlan, stages: seq<Stage>)
    requires Completed(plan, stages)
    ensures forall c: Call :: c in PlannedCalls(plan, stages).0 <==>
      (c.stage in stages && plan(c.stage).Success? && c.plugin in plan(c.stage).value)
    decreases |stages|
  {
    if stages != [] {
      CompletedCons(plan, stages);
      PlannedMembers(plan, stages[1..]);
      var plugins := plan(stages[0]).value;
      var b := Batch(plugins, stages[0]);
      var rest := PlannedCalls(plan, stages[1..]).0;
      assert PlannedCalls(plan, stages).0 == b + rest;
      forall c: Call ensures c in b <==> c.stage == stages[0] && c.plugin in plugins {
        if c.stage == stages[0] && c.plugin in plugins {
          var i :| 0 <= i < |plugins| && plugins[i] == c.plugin;
          assert b[i] == c;
        }
      }
      assert forall s :: s in stages <==> s == stages[0] || s in stages[1..] by {
        assert stages == [stages[0]] + stages[1..];
      }
    }
  }

  /** The listed calls come stage by stage, in plan order. */
  lemma {:induction false} PlannedGrouped(plan: StagePlan, stages: seq<Stage>)
    requires NoDup(stages)
    ensures var calls := PlannedCalls(plan, stages).0;
      forall c :: c in calls ==> c.stage in stages
    ensures var calls := PlannedCalls(plan, stages).0;
      forall i, j :: 0 <= i < j < |calls| ==> IndexOf(stages, calls[i].stage) <= IndexOf(stages, calls[j].stage)
    decreases |stages|
  {
    if stages != [] && plan(stages[0]).Success? {
      PlannedGrouped(plan, stages[1..]);
      var b := Batch(plan(stages[0]).value, stages[0]);
      var rest := PlannedCalls(plan, stages[1..]).0;
      var calls := b + rest;
      assert PlannedCalls(plan, stages).0 == calls;
      assert IndexOf(stages, stages[0]) == 0;
      forall s | s in stages[1..] ensures s in stages && IndexOf(stages, s) == 1 + IndexOf(stages[1..], s) {
        var i :| 0 <= i < |stages[1..]| && stages[1..][i] == s;
        assert stages[i + 1] == s && s != stages[0];
      }
      forall i | 0 <= i < |calls| ensures calls[i].stage in stages {
        if i >= |b| {
          assert calls[i] == rest[i - |b|];
        }
      }
    }
  }

  /** Each plugin comes after every plugin it depends on in stage `sid`. */
  predicate DepsBefore(plugins: seq<Plugin>, sid: string) {
    forall j, d :: 0 <= j < |plugins| && d in StageDeps(plugins[j], sid) ==> d in Ids(plugins)[..j]
  }

  /** Every call comes after a call, in the same stage, of each plugin the
      called plugin depends on there. */
  predicate CalledAfterDeps(calls: seq<Call>) {
    forall j, d :: 0 <= j < |calls| && d in StageDeps(calls[j].plugin, calls[j].stage.id) ==>
      exists i :: 0 <= i < j && calls[i].stage == calls[j].stage && calls[i].plugin.id == d
  }

  /** Within each stage a plugin is called only after every plugin it
      depends on there, when every plan orders its plugins that way. */
  lemma {:induction false} PlannedDepsFirst(plan: StagePlan, stages: seq<Stage>)
    requires forall s :: plan(s).Success? ==> DepsBefore(plan(s).value, s.id)
    ensures CalledAfterDeps(PlannedCalls(plan, stages).0)
    decreases |stages|
  {
    if stages != [] && plan(stages[0]).Success? {
      PlannedDepsFirst(plan, stages[1..]);
      var plugins := plan(stages[0]).value;
      var b := Batch(plugins, stages[0]);
      var rest := PlannedCalls(plan, stages[1..]).0;
      var calls := b + rest;
      assert PlannedCalls(plan, stages).0 == calls;
      forall j, d | 0 <= j < |calls| && d in StageDeps(calls[j].plugin, calls[j].stage.id)
        ensures exists i :: 0 <= i < j && calls[i].stage == calls[j].stage && calls[i].plugin.id == d
      {
        if j < |b| {
          assert calls[j] == b[j];
          BatchDep(plugins, stages[0], j, d);
          var i :| 0 <= i < j && plugins[i].id == d;
          assert calls[i] == b[i];
        } else {
          var j' := j - |b|;
          assert calls[j] == rest[j'];
          assert CalledAfterDeps(rest);
          assert d in StageDeps(rest[j'].plugin, rest[j'].stage.id);
          var i :| 0 <= i < j' && rest[i].stage == rest[j'].stage && rest[i].plugin.id == d;
          assert calls[i + |b|] == rest[i];
        }
      }
    }
  }

  lemma {:induction false} BatchDep(plugins: seq<Plugin>, stage: Stage, j: nat, d: string)
    requires DepsBefore(plugins, stage.id)
    requires j < |plugins| && d in StageDeps(plugins[j], stage.id)
    ensures exists i :: 0 <= i < j && plugins[i].id == d
  {
    assert d in Ids(plugins)[..j];
    var i :| 0 <= i < j && Ids(plugins)[i] == d;
    assert plugins[i].id == d;
  }

  /** Distinct stages whose plans list distinct plugins give distinct
      calls: no (stage, plugin) pair is listed twice. */
  lemma {:induction false} PlannedOnce(plan: StagePlan, stages: seq<Stage>)
    requires NoDup(stages)
    requires forall s :: plan(s).Success? ==> NoDup(plan(s).value)
    ensures NoDup(PlannedCalls(plan, stages).0)
    decreases |stages|
  {
    if stages != [] && plan(stages[0]).Success? {
      assert NoDup(stages[1..]) by {
        forall i, j | 0 <= i < j < |stages[1..]| ensures stages[1..][i] != stages[1..][j] {
          assert stages[1..][i] == stages[i + 1] && stages[1..][j] == stages[j + 1];
        }
      }
      PlannedOnce(plan, stages[1..]);
      PlannedGrouped(plan, stages[1..]);
      var plugins := plan(stages[0]).value;
      var b := Batch(plugins, stages[0]);
      var rest := PlannedCalls(plan, stages[1..]).0;
      assert PlannedCalls(plan, stages).0 == b + rest;
      forall i, j | 0 <= i < j < |b| ensures b[i] != b[j] {
        assert plugins[i] != plugins[j];
      }
      forall x | x in b ensures x !in rest {
        assert x.stage == stages[0];
        assert stages[0] !in stages[1..];
      }
      NoDupConcat(b, rest);
    }
  }

  lemma {:induction false} NoDupConcat<T>(a: seq<T>, b: seq<T>)
    requires NoDup(a) && NoDup(b)
    requires forall x :: x in a ==> x !in b
    ensures NoDup(a + b)
  {
    var ab := a + b;
    forall i, j | 0 <= i < j < |ab| ensures ab[i] != ab[j] {
      if i < |a| && j >= |a| {
        assert ab[i] in a && ab[j] == b[j - |a|];
      } else if i >= |a| {
        assert ab[i] == b[i - |a|] && ab[j] == b[j - |a|];
      }
    }
  }

  // ---------------------------------------------------------------------
  // The stage loop with throwing calls
  // ---------------------------------------------------------------------

  /** How many calls return before the first that throws. */
  function Returning(outcome: Outcomes, calls: seq<Call>): (k: nat)
    ensures k <= |calls|
    ensures forall i :: 0 <= i < k ==> outcome(calls[i]).None?
    ensures k < |calls| ==> outcome(calls[k]).Some?
    decreases |calls|
  {
    if calls == [] then 0
    else if outcome(calls[0]).Some? then 0
    else
      var k := Returning(outcome, calls[1..]);
      assert forall i :: 1 <= i <= k ==> calls[i] == calls[1..][i - 1];
      1 + k
  }

  /** The planned calls cut after the first that throws: that call's error
      is the run's, and without one the planning error, if any, is. */
  function Cut(outcome: Outcomes, planned: (seq<Call>, Option<PlanError>)): (seq<Call>, Option<Stop>) {
    var (all, perr) := planned;
    var k := Returning(outcome, all);
    if k < |all| then (all[..k + 1], Some(Threw(all[k], outcome(all[k]).value)))
    else (all, if perr.Some? then Some(Unplanned(perr.value)) else None)
  }

  /** One batch run is its calls cut after the first that throws. */
  lemma {:induction false} RunBatchCut(outcome: Outcomes, batch: seq<Call>)
    ensures RunBatch(outcome, batch) == Cut(outcome, (batch, None))
    decreases |batch|
  {
    if batch != [] && outcome(batch[0]).None? {
      RunBatchCut(outcome, batch[1..]);
      var k := Returning(outcome, batch[1..]);
      if k < |batch[1..]| {
        assert [batch[0]] + batch[1..][..k + 1] == batch[..k + 2];
      } else {
        assert [batch[0]] + batch[1..] == batch;
      }
    } else if batch != [] {
      assert batch[..1] == [batch[0]];
    }
  }

  /** The calls returning before the first throw in `a + b`. */
  lemma {:induction false} ReturningConcat(outcome: Outcomes, a: seq<Call>, b: seq<Call>)
    ensures Returning(outcome, a + b) ==
      if Returning(outcome, a) < |a| then Returning(outcome, a) else |a| + Returning(outcome, b)
    decreases |a|
  {
    if a != [] {
      assert (a + b)[0] == a[0] && (a + b)[1..] == a[1..] + b;
      if outcome(a[0]).None? {
        ReturningConcat(outcome, a[1..], b);
      }
    } else {
      assert a + b == b;
    }
  }

  /** The loop with throwing calls is the loop where every call returns,
      cut after the first call that throws. */
  lemma {:induction false} RunStagesCut(plan: StagePlan, outcome: Outcomes, stages: seq<Stage>)
    ensures RunStages(plan, outcome, stages) == Cut(outcome, PlannedCalls(plan, stages))
    decreases |stages|
  {
    if stages != [] && plan(stages[0]).Success? {
      var b := Batch(plan(stages[0]).value, stages[0]);
      RunBatchCut(outcome, b);
      var (rest, perr) := PlannedCalls(plan, stages[1..]);
      assert PlannedCalls(plan, stages) == (b + rest, perr);
      ReturningConcat(outcome, b, rest);
      var k := Returning(outcome, b);
      if k < |b| {
        assert (b + rest)[..k + 1] == b[..k + 1] && (b + rest)[k] == b[k];
      } else {
        RunStagesCut(plan, outcome, stages[1..]);
        var j := Returning(outcome, rest);
        if j < |rest| {
          assert (b + rest)[..|b| + j + 1] == b + rest[..j + 1];
          assert (b + rest)[|b| + j] == rest[j];
        }
      }
    }
  }

  /** The loop calls a prefix of the planned calls, every one of which
      returns but the last when a call throws; that last call's error is
      the loop's. Without a throw the loop makes every planned call and
      reports the planning error, if any, and it reports no error exactly
      when every stage planned and every planned call returns. */
  lemma {:induction false} RunStagesStops(plan: StagePlan, outcome: Outcomes, stages: seq<Stage>)
    ensures var (calls, err) := RunStages(plan, outcome, stages);
      calls <= PlannedCalls(plan, stages).0
    ensures var (calls, err) := RunStages(plan, outcome, stages);
      err.Some? && err.value.Threw? ==>
        calls != [] && err.value.call == calls[|calls| - 1] &&
        outcome(err.value.call) == Some(err.value.thrown) &&
        forall i :: 0 <= i < |calls| - 1 ==> outcome(calls[i]).None?
    ensures var (calls, err) := RunStages(plan, outcome, stages);
      (err.None? || err.value.Unplanned?) ==>
        calls == PlannedCalls(plan, stages).0 &&
        (err.None? <==> PlannedCalls(plan, stages).1.None?) &&
        (err.Some? ==> PlannedCalls(plan, stages).1 == Some(err.value.cause)) &&
        forall i :: 0 <= i < |calls| ==> outcome(calls[i]).None?
    ensures RunStages(plan, outcome, stages).1.None? <==>
      Completed(plan, stages) && forall c :: c in PlannedCalls(plan, stages).0 ==> outcome(c).None?
  {
    RunStagesCut(plan, outcome, stages);
    PlannedStops(plan, stages);
    var all := PlannedCalls(plan, stages).0;
    var k := Returning(outcome, all);
    if k < |all| {
      assert all[..k + 1][k] == all[k] && all[k] in all;
    } else {
      forall c | c in all ensures outcome(c).None? {
        var i :| 0 <= i < |all| && all[i] == c;
      }
    }
  }

  // ---------------------------------------------------------------------
  // execute
  // ---------------------------------------------------------------------

  /** The calls `execute` would make if every `executeStage` call
      returned: none when `planStages` throws. */
  function AllCalls(ps: seq<Plugin>): seq<Call> {
    match PlanStages(ps)
    case Failure(_) => []
    case Success(stages) => PlannedCalls(PlanIn(MemoiseAll(ps)), stages).0
  }

  /** The calls of a run are a prefix of the calls it would make if every
      call returned. */
  lemma {:induction false} ExecutePrefix(ps: seq<Plugin>, outcome: Outcomes)
    ensures Execute(ps, outcome).calls <= AllCalls(ps)
  {
    var r := PlanStages(ps);
    if r.Success? {
      RunStagesStops(PlanIn(MemoiseAll(ps)), outcome, r.value);
    }
  }

  /** A prefix keeps the calls' positions. */
  lemma {:induction false} PrefixAt(calls: seq<Call>, all: seq<Call>)
    requires calls <= all
    ensures |calls| <= |all| && forall i :: 0 <= i < |calls| ==> calls[i] == all[i]
  {
    assert calls == all[..|calls|];
  }

  /** `execute` writes the resolved `stages` back, and it never meets a
      plugin whose `stages` is still a function: `planStages` resolves them
      all before any stage is planned. */
  lemma {:induction false} ExecuteResolves(ps: seq<Plugin>, outcome: Outcomes)
    ensures Execute(ps, outcome).plugins == MemoiseAll(ps)
    ensures forall k :: 0 <= k < |ps| ==> Memoised(Execute(ps, outcome).plugins[k])
    ensures var err := Execute(ps, outcome).error;
      err.Some? && err.value.Unplanned? ==> !err.value.cause.StagesNotResolved?
  {
    MemoiseAllSpec(ps);
    var memo := MemoiseAll(ps);
    var r := PlanStages(ps);
    if r.Success? {
      var plan := PlanIn(memo);
      RunStagesStops(plan, outcome, r.value);
      PlannedStops(plan, r.value);
      var err := RunStages(plan, outcome, r.value).1;
      if err.Some? && err.value.Unplanned? {
        var n :| 0 <= n < |r.value| && plan(r.value[n]) == Failure(err.value.cause);
        PlanStageUnresolved(memo, r.value[n]);
      }
    }
  }

  /** Distinct ids make distinct plugins. */
  lemma {:induction false} IdsNoDup(ps: seq<Plugin>)
    requires NoDup(Ids(ps))
    ensures NoDup(ps)
  {
    forall i, j | 0 <= i < j < |ps| ensures ps[i] != ps[j] {
      assert Ids(ps)[i] != Ids(ps)[j];
    }
  }

  /** On resolved plugins every stage plan is duplicate-free and places
      dependencies first. */
  lemma {:induction false} PlansOrdered(memo: seq<Plugin>)
    requires forall k :: 0 <= k < |memo| ==> Memoised(memo[k])
    ensures forall s :: PlanIn(memo)(s).Success? ==>
      DepsBefore(PlanIn(memo)(s).value, s.id) && NoDup(PlanIn(memo)(s).value)
  {
    forall s | PlanIn(memo)(s).Success?
      ensures DepsBefore(PlanIn(memo)(s).value, s.id) && NoDup(PlanIn(memo)(s).value)
    {
      PlanStageOrder(memo, s);
      IdsNoDup(PlanStage(memo, s).value);
    }
  }

  /** The planned stages are distinct (their ids are). */
  lemma {:induction false} StagesDistinct(ps: seq<Plugin>)
    requires PlanStages(ps).Success?
    ensures NoDup(PlanStages(ps).value)
  {
    PlanStagesSpec(ps);
    var stages := PlanStages(ps).value;
    forall i, j | 0 <= i < j < |stages| ensures stages[i] != stages[j] {
      assert KeysOf(stages, StageId)[i] != KeysOf(stages, StageId)[j];
    }
  }

  /** A run that throws while planning the stages calls nothing. */
  lemma {:induction false} ExecuteStagesFail(ps: seq<Plugin>, outcome: Outcomes)
    ensures PlanStages(ps).Failure? ==>
      Execute(ps, outcome).calls == [] && Execute(ps, outcome).error == Some(Unplanned(PlanStages(ps).error))
  {
  }

  /** `execute` stops at the first `executeStage` call that throws and
      rejects with that call's error; every call before it returned. A run
      that rejects with no throwing call has made every call it planned,
      and a run without an error made every planned call and saw each
      return. */
  lemma {:induction false} ExecuteStops(ps: seq<Plugin>, outcome: Outcomes)
    ensures var r := Execute(ps, outcome);
      r.error.Some? && r.error.value.Threw? ==>
        r.calls != [] && r.error.value.call == r.calls[|r.calls| - 1] &&
        outcome(r.error.value.call) == Some(r.error.value.thrown) &&
        forall i :: 0 <= i < |r.calls| - 1 ==> outcome(r.calls[i]).None?
    ensures var r := Execute(ps, outcome);
      (r.error.None? || r.error.value.Unplanned?) ==>
        r.calls == AllCalls(ps) && forall i :: 0 <= i < |r.calls| ==> outcome(r.calls[i]).None?
    ensures Execute(ps, outcome).error.None? <==>
      PlanStages(ps).Success? && Completed(PlanIn(MemoiseAll(ps)), PlanStages(ps).value) &&
      forall c :: c in AllCalls(ps) ==> outcome(c).None?
  {
    var r := PlanStages(ps);
    if r.Success? {
      RunStagesStops(PlanIn(MemoiseAll(ps)), outcome, r.value);
    }
  }

  /** The calls are of the given stages and come stage by stage, in the
      stages' order. */
  predicate InStageOrder(calls: seq<Call>, stages: seq<Stage>) {
    forall i, j :: 0 <= i < j < |calls| ==>
      calls[i].stage in stages && calls[j].stage in stages &&
      IndexOf(stages, calls[i].stage) <= IndexOf(stages, calls[j].stage)
  }

  /** `execute` calls `executeStage` at most once per (stage, plugin) pair,
      stage by stage in the order `planStages` gives. */
  lemma {:induction false} ExecuteGrouped(ps: seq<Plugin>, outcome: Outcomes)
    ensures NoDup(Execute(ps, outcome).calls)
    ensures PlanStages(ps).Success? ==> InStageOrder(Execute(ps, outcome).calls, PlanStages(ps).value)
  {
    if PlanStages(ps).Success? {
      PlansDistinct(ps);
      RunStagesGroupedOnce(PlanIn(MemoiseAll(ps)), outcome, PlanStages(ps).value);
    }
  }

  /** The stages `planStages` gives are distinct, and so are the plugins of
      each stage plan on the resolved plugins. */
  lemma {:induction false} PlansDistinct(ps: seq<Plugin>)
    requires PlanStages(ps).Success?
    ensures NoDup(PlanStages(ps).value)
    ensures forall s :: PlanIn(MemoiseAll(ps))(s).Success? ==> NoDup(PlanIn(MemoiseAll(ps))(s).value)
  {
    MemoiseAllSpec(ps);
    StagesDistinct(ps);
    PlansOrdered(MemoiseAll(ps));
  }

  /** The loop calls each (stage, plugin) pair at most once, stage by
      stage, whether or not a call throws. */
  lemma {:induction false} RunStagesGroupedOnce(plan: StagePlan, outcome: Outcomes, stages: seq<Stage>)
    requires NoDup(stages)
    requires forall s :: plan(s).Success? ==> NoDup(plan(s).value)
    ensures NoDup(RunStages(plan, outcome, stages).0)
    ensures InStageOrder(RunStages(plan, outcome, stages).0, stages)
  {
    PlannedGrouped(plan, stages);
    PlannedOnce(plan, stages);
    RunStagesStops(plan, outcome, stages);
    PrefixGrouped(RunStages(plan, outcome, stages).0, PlannedCalls(plan, stages).0, stages);
  }

  /** A prefix of distinct calls grouped by stage is distinct and grouped
      too. */
  lemma {:induction false} PrefixGrouped(calls: seq<Call>, all: seq<Call>, stages: seq<Stage>)
    requires calls <= all && NoDup(all)
    requires forall c :: c in all ==> c.stage in stages
    requires forall i, j :: 0 <= i < j < |all| ==> IndexOf(stages, all[i].stage) <= IndexOf(stages, all[j].stage)
    ensures NoDup(calls)
    ensures InStageOrder(calls, stages)
  {
    PrefixAt(calls, all);
    forall i | 0 <= i < |calls| ensures calls[i] == all[i] && calls[i].stage in stages {
      assert all[i] in all;
    }
  }

  /** Within a stage, `execute` calls each plugin only after every plugin it
      depends on in that stage. */
  lemma {:induction false} ExecuteDepsFirst(ps: seq<Plugin>, outcome: Outcomes)
    ensures CalledAfterDeps(Execute(ps, outcome).calls)
  {
    var memo := MemoiseAll(ps);
    MemoiseAllSpec(ps);
    var r := PlanStages(ps);
    if r.Success? {
      var plan := PlanIn(memo);
      PlansOrdered(memo);
      PlannedDepsFirst(plan, r.value);
      ExecutePrefix(ps, outcome);
      var calls := Execute(ps, outcome).calls;
      var all := PlannedCalls(plan, r.value).0;
      PrefixAt(calls, all);
      forall j, d | 0 <= j < |calls| && d in StageDeps(calls[j].plugin, calls[j].stage.id)
        ensures exists i :: 0 <= i < j && calls[i].stage == calls[j].stage && calls[i].plugin.id == d
      {
        assert calls[j] == all[j];
        var i :| 0 <= i < j && all[i].stage == all[j].stage && all[i].plugin.id == d;
        assert calls[i] == all[i];
      }
    }
  }

  /** With distinct ids and planned stages, every call `execute` makes is
      of a planned stage and a plugin listing it; when no call throws and
      every stage plans, it calls exactly those pairs. */
  lemma {:induction false} ExecuteCalls(ps: seq<Plugin>, outcome: Outcomes)
    requires NoDup(Ids(ps))
    ensures var r := Execute(ps, outcome);
      PlanStages(ps).Success? ==> forall c: Call :: c in r.calls ==>
        (c.stage in PlanStages(ps).value && c.plugin in r.plugins && Takes(c.plugin, c.stage.id))
    ensures var r := Execute(ps, outcome);
      PlanStages(ps).Success? && r.error.None? ==> forall c: Call :: c in r.calls <==>
        (c.stage in PlanStages(ps).value && c.plugin in r.plugins && Takes(c.plugin, c.stage.id))
  {
    var memo := MemoiseAll(ps);
    MemoiseAllSpec(ps);
    var r := PlanStages(ps);
    if r.Success? {
      var stages := r.value;
      var plan := PlanIn(memo);
      RunStagesStops(plan, outcome, stages);
      var calls := Execute(ps, outcome).calls;
      var all := PlannedCalls(plan, stages).0;
      PrefixAt(calls, all);
      PlannedStops(plan, stages);
      CallsOfPlan(plan, stages);
      forall c: Call | c in calls
        ensures c.stage in stages && c.plugin in memo && Takes(c.plugin, c.stage.id)
      {
        var i :| 0 <= i < |calls| && calls[i] == c;
        assert all[i] == c;
        PlanStageMembers(memo, c.stage);
      }
      if Execute(ps, outcome).error.None? {
        PlannedMembers(plan, stages);
        forall c: Call | c.stage in stages
          ensures plan(c.stage).Success? && (c.plugin in plan(c.stage).value <==> c.plugin in memo && Takes(c.plugin, c.stage.id))
        {
          PlanStageMembers(memo, c.stage);
        }
      }
    }
  }

  /** Every listed call is of a listed stage that planned, with a plugin of
      its plan. */
  lemma {:induction false} CallsOfPlan(plan: StagePlan, stages: seq<Stage>)
    ensures forall c: Call :: c in PlannedCalls(plan, stages).0 ==>
      c.stage in stages && plan(c.stage).Success? && c.plugin in plan(c.stage).value
    decreases |stages|
  {
    if stages != [] && plan(stages[0]).Success? {
      CallsOfPlan(plan, stages[1..]);
      var plugins := plan(stages[0]).value;
      var b := Batch(plugins, stages[0]);
      var rest := PlannedCalls(plan, stages[1..]).0;
      assert PlannedCalls(plan, stages).0 == b + rest;
      forall c: Call | c in b + rest ensures c.stage in stages && plan(c.stage).Success? && c.plugin in plan(c.stage).value {
        if c in b {
          var i :| 0 <= i < |b| && b[i] == c;
          assert c.plugin == plugins[i];
        } else {
          assert c.stage in stages[1..];
        }
      }
    }
  }
}
