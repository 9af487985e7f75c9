/** The plugin and stage scheduler of packages/core/src/lib/planner.ts, as
    written there: `resolvePlugins`, `planStages`, `planStage` and
    `execute`, each built on the stable topological sort of `Graph`.

    Callbacks (`ConstOrDynamic`) are represented by the value they return
    for the run's context; the only state kept is the write-back of
    resolved `stages`. */
module Planner {
  import opened Wrappers
  import opened Seqs
  import opened OrderedMap
  import opened Graph
  import opened Stages
  import opened Scheduling

  /** `ConstOrDynamic<T>`: a value, or a callback represented by the value
      it yields for the context of this run. */
  datatype ConstOrDynamic<T> = Const(value: T) | Dynamic(result: T)

  function Resolve<T>(c: ConstOrDynamic<T>): T {
    match c
    case Const(v) => v
    case Dynamic(v) => v
  }

  /** The parts of `Plugin` the scheduler reads. `stageDependencies` is an
      object keyed by stage id. */
  datatype Plugin = Plugin(
    id: string,
    dependencies: Option<seq<string>>,
    stages: Option<ConstOrDynamic<seq<Stage>>>,
    stageDependencies: Option<map<string, ConstOrDynamic<seq<string>>>>)

  // ---------------------------------------------------------------------
  // resolvePlugins
  // ---------------------------------------------------------------------

  /** An absent list of dependencies lists none. */
  function DepsOf(p: Plugin): seq<string> {
    Listed(p.dependencies)
  }

  /** `pluginMap.get(id)` where `pluginMap = new Map(allPlugins.map(p => [p.id, p]))`:
      the last plugin with that id. */
  function Lookup(all: seq<Plugin>, id: string): (r: Option<Plugin>)
    ensures r.None? <==> forall k :: 0 <= k < |all| ==> all[k].id != id
    ensures r.Some? ==> r.value.id == id && exists k :: 0 <= k < |all| && all[k] == r.value && LastWith(all, id, k)
    decreases |all|
  {
    if all == [] then None
    else if all[|all| - 1].id == id then
      assert LastWith(all, id, |all| - 1);
      Some(all[|all| - 1])
    else
      var r := Lookup(all[..|all| - 1], id);
      assert r.Some? ==> exists k :: 0 <= k < |all| && all[k] == r.value && LastWith(all, id, k) by {
        if r.Some? {
          var k :| 0 <= k < |all| - 1 && all[..|all| - 1][k] == r.value && LastWith(all[..|all| - 1], id, k);
          assert all[k] == r.value && LastWith(all, id, k);
        }
      }
      r
  }

  /** No plugin after position `k` has the id `id`. */
  predicate LastWith(all: seq<Plugin>, id: string, k: nat) {
    k < |all| && forall j :: k < j < |all| ==> all[j].id != id
  }

  predicate Known(all: seq<Plugin>, id: string) {
    Lookup(all, id).Some?
  }

  /** The dependencies of the plugin registered under `id` (none if there is
      no such plugin). */
  function DepsOfId(all: seq<Plugin>, id: string): seq<string> {
    match Lookup(all, id)
    case Some(p) => DepsOf(p)
    case None => []
  }

  /** Every id any plugin depends on, plugin by plugin. */
  function AllDeps(all: seq<Plugin>): seq<string> {
    if all == [] then [] else DepsOf(all[0]) + AllDeps(all[1..])
  }

  lemma {:induction false} DepsInAll(all: seq<Plugin>, p: Plugin)
    requires p in all
    ensures forall d :: d in DepsOf(p) ==> d in AllDeps(all)
    decreases |all|
  {
    if all[0] != p {
      DepsInAll(all[1..], p);
    }
  }

  /** A set of ids closed under the dependencies of its known members. */
  ghost predicate Closed(all: seq<Plugin>, S: set<string>) {
    forall id, d :: id in S && d in DepsOfId(all, id) ==> d in S
  }

  /** Every id the walk can ever enqueue. */
  function Universe(all: seq<Plugin>, chosen: seq<string>): set<string> {
    ElementSet(chosen + AllDeps(all))
  }

  lemma {:induction false} QueueBound(all: seq<Plugin>, chosen: seq<string>, queue: seq<string>)
    requires NoDup(queue) && forall x :: x in queue ==> x in Universe(all, chosen)
    ensures |queue| <= |Universe(all, chosen)|
  {
    Elements(queue);
    SubsetSize(ElementSet(queue), Universe(all, chosen));
  }

  /** Enqueueing the dependencies of a registered plugin keeps the queue a
      duplicate-free part of the universe. */
  lemma {:induction false} Enqueue(all: seq<Plugin>, chosen: seq<string>, queue: seq<string>, p: Plugin)
    requires NoDup(queue) && forall x :: x in queue ==> x in Universe(all, chosen)
    requires p in all
    ensures NoDup(AddAll(queue, DepsOf(p))) && |queue| <= |AddAll(queue, DepsOf(p))|
    ensures forall x :: x in AddAll(queue, DepsOf(p)) ==> x in Universe(all, chosen)
  {
    AddAllSpec(queue, DepsOf(p));
    DepsInAll(all, p);
  }

  /** Pass 1: walk the insertion-ordered queue `Set` from position `i`,
      adding the dependencies of each visited plugin; an id with no
      plugin throws. */
  function Collect(all: seq<Plugin>, chosen: seq<string>, queue: seq<string>, i: nat): Result<seq<string>, PlanError>
    requires NoDup(queue) && i <= |queue|
    requires forall x :: x in queue ==> x in Universe(all, chosen)
    decreases |Universe(all, chosen)| - i
  {
    QueueBound(all, chosen, queue);
    if i == |queue| then Success(queue)
    else match Lookup(all, queue[i])
      case None => Failure(UnknownPlugin(queue[i]))
      case Some(p) =>
        Enqueue(all, chosen, queue, p);
        Collect(all, chosen, AddAll(queue, DepsOf(p)), i + 1)
  }

  /** The walk's invariant at position `i`: the queue is a duplicate-free
      part of the universe, and every visited id is registered with all its
      dependencies already enqueued. */
  predicate Walking(all: seq<Plugin>, chosen: seq<string>, queue: seq<string>, i: nat) {
    NoDup(queue) && i <= |queue| &&
    (forall x :: x in queue ==> x in Universe(all, chosen)) &&
    (forall k :: 0 <= k < i ==> Known(all, queue[k])) &&
    (forall k, d :: 0 <= k < i && d in DepsOfId(all, queue[k]) ==> d in queue)
  }

  /** The walk ends with a duplicate-free list extending the queue it
      started from. */
  lemma {:induction false} CollectExtends(all: seq<Plugin>, chosen: seq<string>, queue: seq<string>, i: nat)
    requires Walking(all, chosen, queue, i)
    ensures var r := Collect(all, chosen, queue, i);
      r.Success? ==> NoDup(r.value) && |queue| <= |r.value| && r.value[..|queue|] == queue
    decreases |Universe(all, chosen)| - i
  {
    QueueBound(all, chosen, queue);
    if i < |queue| && Known(all, queue[i]) {
      var q' := AddAll(queue, DepsOf(Lookup(all, queue[i]).value));
      Visit(all, chosen, queue, i);
      CollectExtends(all, chosen, q', i + 1);
      var r := Collect(all, chosen, q', i + 1);
      if r.Success? {
        assert r.value[..|queue|] == r.value[..|q'|][..|queue|];
      }
    }
  }

  /** A successful walk lists registered ids only, closed under
      dependencies. */
  lemma {:induction false} CollectClosed(all: seq<Plugin>, chosen: seq<string>, queue: seq<string>, i: nat)
    requires Walking(all, chosen, queue, i)
    ensures var r := Collect(all, chosen, queue, i);
      r.Success? ==> forall x :: x in r.value ==> Known(all, x)
    ensures var r := Collect(all, chosen, queue, i);
      r.Success? ==> forall x, d :: x in r.value && d in DepsOfId(all, x) ==> d in r.value
    decreases |Universe(all, chosen)| - i
  {
    QueueBound(all, chosen, queue);
    if i == |queue| {
      Finished(all, queue);
    } else if Known(all, queue[i]) {
      var q' := AddAll(queue, DepsOf(Lookup(all, queue[i]).value));
      Visit(all, chosen, queue, i);
      CollectClosed(all, chosen, q', i + 1);
      assert Collect(all, chosen, queue, i) == Collect(all, chosen, q', i + 1);
    }
  }

  /** A failed walk names an id that has no plugin. */
  lemma {:induction false} CollectFails(all: seq<Plugin>, chosen: seq<string>, queue: seq<string>, i: nat)
    requires NoDup(queue) && i <= |queue|
    requires forall x :: x in queue ==> x in Universe(all, chosen)
    ensures var r := Collect(all, chosen, queue, i);
      r.Failure? ==> r.error.UnknownPlugin? && !Known(all, r.error.id)
    decreases |Universe(all, chosen)| - i
  {
    QueueBound(all, chosen, queue);
    if i < |queue| && Known(all, queue[i]) {
      var p := Lookup(all, queue[i]).value;
      Enqueue(all, chosen, queue, p);
      CollectFails(all, chosen, AddAll(queue, DepsOf(p)), i + 1);
    }
  }

  /** A fully visited queue is registered and closed under dependencies. */
  lemma {:induction false} Finished(all: seq<Plugin>, queue: seq<string>)
    requires forall k :: 0 <= k < |queue| ==> Known(all, queue[k])
    requires forall k, d :: 0 <= k < |queue| && d in DepsOfId(all, queue[k]) ==> d in queue
    ensures forall x :: x in queue ==> Known(all, x)
    ensures forall x, d :: x in queue && d in DepsOfId(all, x) ==> d in queue
  {
    forall x, d | x in queue && d in DepsOfId(all, x)
      ensures d in queue
    {
      var k :| 0 <= k < |queue| && queue[k] == x;
    }
  }

  /** Visiting position `i` keeps the walk's invariant. */
  lemma {:induction false} Visit(all: seq<Plugin>, chosen: seq<string>, queue: seq<string>, i: nat)
    requires Walking(all, chosen, queue, i) && i < |queue| && Known(all, queue[i])
    ensures var q' := AddAll(queue, DepsOf(Lookup(all, queue[i]).value));
      Walking(all, chosen, q', i + 1) && |queue| <= |q'| && q'[..|queue|] == queue
  {
    var p := Lookup(all, queue[i]).value;
    Enqueue(all, chosen, queue, p);
    AddAllSpec(queue, DepsOf(p));
  }

  /** Everything the walk visits, including an unknown id it stops at, lies
      in every dependency-closed set that contains the starting queue. */
  lemma {:induction false} CollectMinimal(all: seq<Plugin>, chosen: seq<string>, queue: seq<string>, i: nat, S: set<string>)
    requires NoDup(queue) && i <= |queue|
    requires forall x :: x in queue ==> x in Universe(all, chosen)
    requires forall x :: x in queue ==> x in S
    requires Closed(all, S)
    ensures var r := Collect(all, chosen, queue, i);
      r.Success? ==> forall x :: x in r.value ==> x in S
    ensures var r := Collect(all, chosen, queue, i);
      r.Failure? && r.error.UnknownPlugin? ==> r.error.id in S
    decreases |Universe(all, chosen)| - i
  {
    if i < |queue| && Known(all, queue[i]) {
      var p := Lookup(all, queue[i]).value;
      var queue' := AddAll(queue, DepsOf(p));
      assert i < |Universe(all, chosen)| by {
        QueueBound(all, chosen, queue);
      }
      assert NoDup(queue') && i + 1 <= |queue'| && forall x :: x in queue' ==> x in Universe(all, chosen) by {
        Enqueue(all, chosen, queue, p);
      }
      assert forall x :: x in queue' ==> x in S by {
        AddAllSpec(queue, DepsOf(p));
        assert forall d :: d in DepsOf(p) ==> d in DepsOfId(all, queue[i]);
      }
      CollectMinimal(all, chosen, queue', i + 1, S);
      assert Collect(all, chosen, queue, i) == Collect(all, chosen, queue', i + 1);
    }
  }

  /** The plugins registered under the given ids. */
  function PluginsOf(all: seq<Plugin>, ids: seq<string>): (r: seq<Plugin>)
    requires forall k :: 0 <= k < |ids| ==> Known(all, ids[k])
    ensures |r| == |ids|
    ensures forall k :: 0 <= k < |ids| ==> Known(all, ids[k]) && r[k] == Lookup(all, ids[k]).value
  {
    if ids == [] then [] else
      assert Known(all, ids[0]);
      [Lookup(all, ids[0]).value] + PluginsOf(all, ids[1..])
  }

  /** The dependency lists of the given ids. */
  function DepsLists(all: seq<Plugin>, ids: seq<string>): (r: seq<seq<string>>)
    ensures |r| == |ids| && forall k :: 0 <= k < |ids| ==> r[k] == DepsOfId(all, ids[k])
  {
    if ids == [] then [] else [DepsOfId(all, ids[0])] + DepsLists(all, ids[1..])
  }

  /** The ids of a list of plugins. */
  function Ids(ps: seq<Plugin>): (r: seq<string>)
    ensures |r| == |ps| && forall k :: 0 <= k < |ps| ==> r[k] == ps[k].id
  {
    if ps == [] then [] else [ps[0].id] + Ids(ps[1..])
  }

  /** The walk's starting point: `new Set(chosenPluginIds)`. */
  lemma {:induction false} StartWalking(all: seq<Plugin>, chosen: seq<string>)
    ensures Walking(all, chosen, Distinct(chosen), 0)
  {
    DistinctSpec(chosen);
  }

  /** Every closed set containing the chosen ids contains all of `ids`. */
  ghost predicate Needed(all: seq<Plugin>, chosen: seq<string>, ids: seq<string>) {
    forall S :: Closed(all, S) && (forall c :: c in chosen ==> c in S) ==>
      forall x :: x in ids ==> x in S
  }

  lemma {:induction false} CollectNeeded(all: seq<Plugin>, chosen: seq<string>)
    requires Walking(all, chosen, Distinct(chosen), 0)
    ensures var r := Collect(all, chosen, Distinct(chosen), 0);
      r.Success? ==> Needed(all, chosen, r.value)
    ensures var r := Collect(all, chosen, Distinct(chosen), 0);
      r.Failure? && r.error.UnknownPlugin? ==> Needed(all, chosen, [r.error.id])
  {
    DistinctSpec(chosen);
    forall S | Closed(all, S) && (forall c :: c in chosen ==> c in S)
      ensures var r := Collect(all, chosen, Distinct(chosen), 0);
        (r.Success? ==> forall x :: x in r.value ==> x in S) &&
        (r.Failure? && r.error.UnknownPlugin? ==> r.error.id in S)
    {
      CollectMinimal(all, chosen, Distinct(chosen), 0, S);
    }
  }

  /** Pass 1 of `resolvePlugins`: the breadth-first walk from the chosen
      ids, which stops at the first id without a plugin. */
  function Closure(all: seq<Plugin>, chosen: seq<string>): (r: Result<seq<string>, PlanError>)
    ensures r.Success? ==> NoDup(r.value) && forall c :: c in chosen ==> c in r.value
    ensures r.Success? ==> forall x :: x in r.value ==> Known(all, x)
    ensures r.Success? ==> forall x, d :: x in r.value && d in DepsOfId(all, x) ==> d in r.value
    ensures r.Success? ==> Needed(all, chosen, r.value)
    ensures r.Failure? ==> r.error.UnknownPlugin? && !Known(all, r.error.id)
    ensures r.Failure? ==> Needed(all, chosen, [r.error.id])
  {
    StartWalking(all, chosen);
    DistinctSpec(chosen);
    CollectExtends(all, chosen, Distinct(chosen), 0);
    CollectClosed(all, chosen, Distinct(chosen), 0);
    CollectFails(all, chosen, Distinct(chosen), 0);
    CollectNeeded(all, chosen);
    var r := Collect(all, chosen, Distinct(chosen), 0);
    assert r.Success? ==> forall c :: c in chosen ==> c in r.value[..|Distinct(chosen)|];
    r
  }

  /** `resolvePlugins`: the dependency closure of the chosen ids, in load
      order. */
  function ResolvePlugins(all: seq<Plugin>, chosen: seq<string>): Result<seq<Plugin>, PlanError> {
    match Closure(all, chosen)
    case Failure(e) => Failure(e)
    case Success(ids) =>
      assert forall k :: 0 <= k < |ids| ==> Known(all, ids[k]) by {
        assert forall k :: 0 <= k < |ids| ==> ids[k] in ids;
      }
      assert forall k, d :: 0 <= k < |ids| && d in DepsLists(all, ids)[k] ==> d in ids by {
        assert forall k :: 0 <= k < |ids| ==> ids[k] in ids;
      }
      Schedule(PluginsOf(all, ids), ids, DepsLists(all, ids))
  }

  /** A list `resolvePlugins` may return for `chosen`: each id once, every
      chosen id, each entry the plugin registered last under its id, every
      dependency before the plugin that needs it, and nothing the chosen
      ids do not need. */
  ghost predicate LoadOrder(all: seq<Plugin>, chosen: seq<string>, ps: seq<Plugin>) {
    NoDup(Ids(ps)) &&
    (forall c :: c in chosen ==> c in Ids(ps)) &&
    (forall k :: 0 <= k < |ps| ==> Lookup(all, ps[k].id) == Some(ps[k])) &&
    (forall k, d :: 0 <= k < |ps| && d in DepsOf(ps[k]) ==> d in Ids(ps)[..k]) &&
    Needed(all, chosen, Ids(ps))
  }

  /** A set of registered ids that contains the chosen ones and everything
      they depend on. */
  ghost predicate Resolvable(all: seq<Plugin>, chosen: seq<string>, S: set<string>) {
    Closed(all, S) && (forall c :: c in chosen ==> c in S) && forall x :: x in S ==> Known(all, x)
  }

  /** What `resolvePlugins` returns is a load order. */
  lemma {:induction false} ResolveOrder(all: seq<Plugin>, chosen: seq<string>)
    ensures var r := ResolvePlugins(all, chosen);
      r.Success? ==> LoadOrder(all, chosen, r.value)
  {
    var c := Closure(all, chosen);
    if c.Success? {
      var ids := c.value;
      assert forall k :: 0 <= k < |ids| ==> ids[k] in ids;
      var nodes := PluginsOf(all, ids);
      var dl := DepsLists(all, ids);
      ScheduleSpec(nodes, ids, dl);
      var r := ResolvePlugins(all, chosen);
      if r.Success? {
        var names :| NameOrder(ids, dl, names) && Arranged(nodes, ids, names, r.value);
        LoadOrderOf(all, chosen, ids, names, r.value);
      }
    }
  }

  lemma {:induction false} LoadOrderOf(all: seq<Plugin>, chosen: seq<string>, ids: seq<string>, names: seq<string>, ps: seq<Plugin>)
    requires NoDup(ids) && (forall c :: c in chosen ==> c in ids) && Needed(all, chosen, ids)
    requires forall k :: 0 <= k < |ids| ==> Known(all, ids[k])
    requires NameOrder(ids, DepsLists(all, ids), names)
    requires Arranged(PluginsOf(all, ids), ids, names, ps)
    ensures LoadOrder(all, chosen, ps)
  {
    forall m | 0 <= m < |ps| ensures ps[m] == Lookup(all, names[m]).value && ps[m].id == names[m] {
      assert ps[m] == PluginsOf(all, ids)[IndexOf(ids, names[m])];
    }
    assert Ids(ps) == names;
    forall k, d | 0 <= k < |ps| && d in DepsOf(ps[k]) ensures d in Ids(ps)[..k] {
      assert DepsOf(ps[k]) == DepsLists(all, ids)[IndexOf(ids, names[k])];
    }
  }

  /** `resolvePlugins` succeeds exactly when a load order exists. */
  lemma {:induction false} ResolveSucceedsIff(all: seq<Plugin>, chosen: seq<string>)
    ensures ResolvePlugins(all, chosen).Success? <==> exists ps :: LoadOrder(all, chosen, ps)
  {
    ResolveOrder(all, chosen);
    if ps :| LoadOrder(all, chosen, ps) {
      LoadOrderResolves(all, chosen, ps);
    }
  }

  /** Any load order makes `resolvePlugins` succeed. */
  lemma {:induction false} LoadOrderResolves(all: seq<Plugin>, chosen: seq<string>, ps: seq<Plugin>)
    requires LoadOrder(all, chosen, ps)
    ensures ResolvePlugins(all, chosen).Success?
  {
    LoadOrderClosed(all, chosen, ps);
    ClosureSucceeds(all, chosen, ElementSet(Ids(ps)));
    var ids := Closure(all, chosen).value;
    assert forall k :: 0 <= k < |ids| ==> ids[k] in ids;
    LoadOrderNames(all, chosen, ps, ids);
    ScheduleSpec(PluginsOf(all, ids), ids, DepsLists(all, ids));
  }

  /** The walk succeeds when some resolvable set exists. */
  lemma {:induction false} ClosureSucceeds(all: seq<Plugin>, chosen: seq<string>, S: set<string>)
    requires Resolvable(all, chosen, S)
    ensures Closure(all, chosen).Success?
  {
  }

  /** The ids of a load order form a closed set of registered ids. */
  lemma {:induction false} LoadOrderClosed(all: seq<Plugin>, chosen: seq<string>, ps: seq<Plugin>)
    requires LoadOrder(all, chosen, ps)
    ensures Resolvable(all, chosen, ElementSet(Ids(ps)))
  {
    var P := ElementSet(Ids(ps));
    forall x, d | x in P && d in DepsOfId(all, x) ensures d in P {
      var k :| 0 <= k < |ps| && Ids(ps)[k] == x;
      assert DepsOfId(all, x) == DepsOf(ps[k]);
      assert d in Ids(ps)[..k];
    }
    forall x | x in P ensures Known(all, x) {
      var k :| 0 <= k < |ps| && Ids(ps)[k] == x;
    }
  }

  /** The ids of a load order are the walk's ids in a dependency-first
      order. */
  lemma {:induction false} LoadOrderNames(all: seq<Plugin>, chosen: seq<string>, ps: seq<Plugin>, ids: seq<string>)
    requires LoadOrder(all, chosen, ps)
    requires NoDup(ids) && (forall c :: c in chosen ==> c in ids) && Needed(all, chosen, ids)
    requires forall x, d :: x in ids && d in DepsOfId(all, x) ==> d in ids
    ensures NameOrder(ids, DepsLists(all, ids), Ids(ps))
  {
    LoadOrderClosed(all, chosen, ps);
    var names := Ids(ps);
    assert Closed(all, ElementSet(ids));
    assert forall x :: x in names <==> x in ids;
    Elements(names);
    Elements(ids);
    assert ElementSet(names) == ElementSet(ids);
    forall m, d | 0 <= m < |names| && d in DepsLists(all, ids)[IndexOf(ids, names[m])]
      ensures d in names[..m]
    {
      assert DepsOfId(all, names[m]) == DepsOf(ps[m]);
    }
  }

  /** `resolvePlugins` reports an unknown plugin exactly when no set of
      registered plugins contains the chosen ids and their dependencies. */
  lemma {:induction false} ResolveUnknownIff(all: seq<Plugin>, chosen: seq<string>)
    ensures var r := ResolvePlugins(all, chosen);
      r.Failure? && r.error.UnknownPlugin? <==> !exists S :: Resolvable(all, chosen, S)
  {
    var c := Closure(all, chosen);
    if c.Success? {
      assert Resolvable(all, chosen, ElementSet(c.value));
    } else {
      forall S | Resolvable(all, chosen, S) ensures false {
        ClosureSucceeds(all, chosen, S);
      }
    }
  }
}
