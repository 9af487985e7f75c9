/** Pass 2 and the sort, shared by the three planners of
    packages/core/src/lib/planner.ts: a graph over named nodes built from
    dependency lists, the first dependency that names no node, and the
    sorted result mapped back to the nodes, with the planner's errors. */
module Scheduling {
  import opened Wrappers
  import opened Seqs
  import opened OrderedMap
  import opened Graph

  /** The errors the planner throws. The sort's own error is not shown in
      the source and is represented by `DependencyCycle`. */
  datatype PlanError =
    | UnknownPlugin(id: string)
    | UnknownStageDependency(stage: string, dep: string)
    | UnknownPluginDependency(plugin: string, dep: string, stage: string)
    | StagesNotResolved(plugin: string)
    | DependencyCycle

  /** The message of the thrown `Error`. */
  function Message(e: PlanError): string {
    match e
    case UnknownPlugin(id) => "Unknown plugin: " + id
    case UnknownStageDependency(s, d) => "Stage " + s + " has unknown dependency " + d + "!"
    case UnknownPluginDependency(p, d, s) =>
      "Plugin " + p + " has unknown dependency " + d + " in stage " + s + "!"
    case StagesNotResolved(p) => "p.stages.some is not a function"
    case DependencyCycle => "circular dependency"
  }

  /** The unknown-plugin message quotes the id (the test matches it). */
  lemma {:induction false} UnknownPluginMessage(id: string)
    ensures Contains(Message(UnknownPlugin(id)), id)
  {
    assert Message(UnknownPlugin(id)) == "Unknown plugin: " + id + "";
    Middle("Unknown plugin: ", id, "");
  }

  /** The unknown-stage-dependency message quotes the stage and the dependency. */
  lemma {:induction false} UnknownStageDependencyMessage(st: string, d: string)
    ensures Contains(Message(UnknownStageDependency(st, d)), st)
    ensures Contains(Message(UnknownStageDependency(st, d)), d)
  {
    var m := Message(UnknownStageDependency(st, d));
    assert m == "Stage " + st + (" has unknown dependency " + d + "!");
    Middle("Stage ", st, " has unknown dependency " + d + "!");
    assert m == "Stage " + st + " has unknown dependency " + d + "!";
    Middle("Stage " + st + " has unknown dependency ", d, "!");
  }

  /** The unknown-plugin-dependency message quotes plugin, dependency and stage. */
  lemma {:induction false} UnknownPluginDependencyMessage(p: string, d: string, st: string)
    ensures Contains(Message(UnknownPluginDependency(p, d, st)), p)
    ensures Contains(Message(UnknownPluginDependency(p, d, st)), d)
    ensures Contains(Message(UnknownPluginDependency(p, d, st)), st)
  {
    var m := Message(UnknownPluginDependency(p, d, st));
    assert m == "Plugin " + p + (" has unknown dependency " + d + " in stage " + st + "!");
    Middle("Plugin ", p, " has unknown dependency " + d + " in stage " + st + "!");
    assert m == "Plugin " + p + " has unknown dependency " + d + (" in stage " + st + "!");
    Middle("Plugin " + p + " has unknown dependency ", d, " in stage " + st + "!");
    assert m == "Plugin " + p + " has unknown dependency " + d + " in stage " + st + "!";
    Middle("Plugin " + p + " has unknown dependency " + d + " in stage ", st, "!");
  }

  /** `s` occurs in `t` as a contiguous piece. */
  predicate Contains(t: string, s: string) {
    exists i, j :: 0 <= i <= j <= |t| && t[i..j] == s
  }

  lemma {:induction false} Middle(a: string, s: string, b: string)
    ensures Contains(a + s + b, s)
  {
    assert (a + s + b)[|a|..|a| + |s|] == s;
  }

  // ---------------------------------------------------------------------
  // Building a graph from id lists
  // ---------------------------------------------------------------------

  /** The positions of `deps` among `keys`. */
  function Positions(keys: seq<string>, deps: seq<string>): (r: seq<nat>)
    requires forall d :: d in deps ==> d in keys
    ensures |r| == |deps| && forall i :: 0 <= i < |deps| ==> r[i] < |keys| && keys[r[i]] == deps[i]
  {
    if deps == [] then [] else [IndexOf(keys, deps[0])] + Positions(keys, deps[1..])
  }

  /** `for (dep of deps) node.edges.add(graphNodes.get(dep)!)`: the node
      positions of `deps`, each once, in first-mention order. */
  function EdgeList(keys: seq<string>, deps: seq<string>): seq<nat>
    requires forall d :: d in deps ==> d in keys
  {
    Distinct(Positions(keys, deps))
  }

  /** The edge list of a node is a `Set` of node positions, and it points
      at exactly the nodes named by `deps`. */
  lemma {:induction false} EdgeListSpec(keys: seq<string>, deps: seq<string>)
    requires NoDup(keys) && forall d :: d in deps ==> d in keys
    ensures NoDup(EdgeList(keys, deps)) && InRange(EdgeList(keys, deps), |keys|)
    ensures forall t: nat :: t in EdgeList(keys, deps) <==> t < |keys| && keys[t] in deps
  {
    var ps := Positions(keys, deps);
    DistinctSpec(ps);
    forall t: nat | t < |keys| && keys[t] in deps
      ensures t in ps
    {
      var i :| 0 <= i < |deps| && deps[i] == keys[t];
      assert keys[ps[i]] == keys[t];
    }
    forall k | 0 <= k < |EdgeList(keys, deps)|
      ensures EdgeList(keys, deps)[k] < |keys|
    {
      assert EdgeList(keys, deps)[k] in ps;
    }
  }

  /** One edge list per node. */
  function EdgesFor(keys: seq<string>, depsOf: seq<seq<string>>): (r: seq<seq<nat>>)
    requires forall k, d :: 0 <= k < |depsOf| && d in depsOf[k] ==> d in keys
    ensures |r| == |depsOf| && forall k :: 0 <= k < |depsOf| ==> r[k] == EdgeList(keys, depsOf[k])
  {
    if depsOf == [] then [] else [EdgeList(keys, depsOf[0])] + EdgesFor(keys, depsOf[1..])
  }

  lemma {:induction false} EdgesForValid(keys: seq<string>, depsOf: seq<seq<string>>)
    requires NoDup(keys) && |depsOf| == |keys|
    requires forall k, d :: 0 <= k < |depsOf| && d in depsOf[k] ==> d in keys
    ensures ValidEdges(EdgesFor(keys, depsOf))
    ensures forall k, t: nat :: 0 <= k < |depsOf| ==>
      (t in EdgesFor(keys, depsOf)[k] <==> t < |keys| && keys[t] in depsOf[k])
  {
    forall k | 0 <= k < |depsOf|
      ensures NoDup(EdgesFor(keys, depsOf)[k]) && InRange(EdgesFor(keys, depsOf)[k], |keys|)
      ensures forall t: nat :: t in EdgesFor(keys, depsOf)[k] <==> t < |keys| && keys[t] in depsOf[k]
    {
      EdgeListSpec(keys, depsOf[k]);
    }
  }

  /** Pass 2's check: the first dependency, by node and then by list
      position, that names no node. */
  function FirstUnknown(keys: seq<string>, depsOf: seq<seq<string>>): (r: Option<(nat, string)>)
    ensures r.None? <==> forall k, d :: 0 <= k < |depsOf| && d in depsOf[k] ==> d in keys
    ensures r.Some? ==> r.value.0 < |depsOf| && r.value.1 in depsOf[r.value.0] && r.value.1 !in keys
    ensures r.Some? ==> forall k, d :: 0 <= k < r.value.0 && d in depsOf[k] ==> d in keys
    ensures r.Some? ==> FirstOutside(keys, depsOf[r.value.0]) == Some(r.value.1)
    decreases |depsOf|
  {
    if depsOf == [] then None
    else match FirstOutside(keys, depsOf[0])
      case Some(d) => Some((0, d))
      case None =>
        match FirstUnknown(keys, depsOf[1..])
        case None => None
        case Some((k, d)) => Some((k + 1, d))
  }

  /** The first element of `ds` that is not among `keys`. */
  function FirstOutside(keys: seq<string>, ds: seq<string>): (r: Option<string>)
    ensures r.None? <==> forall d :: d in ds ==> d in keys
    ensures r.Some? ==> r.value in ds && r.value !in keys
    ensures r.Some? ==> forall i :: 0 <= i < IndexOf(ds, r.value) ==> ds[i] in keys
  {
    if ds == [] then None
    else if ds[0] !in keys then Some(ds[0])
    else
      var r := FirstOutside(keys, ds[1..]);
      assert forall d :: d in ds <==> d == ds[0] || d in ds[1..] by {
        assert ds == [ds[0]] + ds[1..];
      }
      if r.Some? then
        assert IndexOf(ds, r.value) == 1 + IndexOf(ds[1..], r.value);
        r
      else r
  }

  /** The sort, with its error reported as the planner's. */
  function Sort<T>(nodes: seq<T>, edges: seq<seq<nat>>): (r: Result<seq<T>, PlanError>)
    requires |nodes| == |edges| && ValidEdges(edges)
    ensures r.Success? <==> SortIndices(edges).Success?
    ensures r.Failure? ==> r.error == DependencyCycle
    ensures r.Success? ==> r.value == Payloads(nodes, SortIndices(edges).value)
  {
    match TopologicalSort(nodes, edges)
    case Success(s) => Success(s)
    case Failure(_) => Failure(DependencyCycle)
  }

  /** Pass 2 and the sort together: a graph whose node `keys[i]` depends on
      the nodes named in `depsOf[i]`, sorted and mapped back to `nodes`. */
  function Schedule<T>(nodes: seq<T>, keys: seq<string>, depsOf: seq<seq<string>>): (r: Result<seq<T>, PlanError>)
    requires |nodes| == |keys| == |depsOf| && NoDup(keys)
    requires forall k, d :: 0 <= k < |depsOf| && d in depsOf[k] ==> d in keys
    ensures r.Failure? ==> r.error == DependencyCycle
    ensures r.Success? ==> |r.value| == |nodes|
  {
    EdgesForValid(keys, depsOf);
    Sort(nodes, EdgesFor(keys, depsOf))
  }

  /** `names` lists every key once, each after all the keys it depends on
      (`depsOf[i]` are the dependencies of `keys[i]`). */
  ghost predicate NameOrder(keys: seq<string>, depsOf: seq<seq<string>>, names: seq<string>) {
    |depsOf| == |keys| && |names| == |keys| && NoDup(names) &&
    (forall x :: x in names <==> x in keys) &&
    forall m, d :: 0 <= m < |names| && d in depsOf[IndexOf(keys, names[m])] ==> d in names[..m]
  }

  /** The keys at the positions of an order. */
  function NamesAt(keys: seq<string>, order: seq<nat>): (r: seq<string>)
    requires InRange(order, |keys|)
    ensures |r| == |order| && forall m :: 0 <= m < |order| ==> r[m] == keys[order[m]]
  {
    if order == [] then [] else [keys[order[0]]] + NamesAt(keys, order[1..])
  }

  /** A dependency-first order of positions names the keys in a
      dependency-first order. */
  lemma {:induction false} OrderToNames(keys: seq<string>, depsOf: seq<seq<string>>, order: seq<nat>)
    requires NoDup(keys) && |depsOf| == |keys|
    requires forall k, d :: 0 <= k < |depsOf| && d in depsOf[k] ==> d in keys
    requires IsTopologicalOrder(EdgesFor(keys, depsOf), order)
    ensures NameOrder(keys, depsOf, NamesAt(keys, order))
  {
    NamesAtPermutes(keys, order);
    NamesAtDepsFirst(keys, depsOf, order);
  }

  /** The keys at the positions of a permutation are the keys permuted. */
  lemma {:induction false} NamesAtPermutes(keys: seq<string>, order: seq<nat>)
    requires NoDup(keys) && |order| == |keys| && NoDup(order) && InRange(order, |keys|)
    ensures NoDup(NamesAt(keys, order))
    ensures forall x :: x in NamesAt(keys, order) <==> x in keys
  {
    var names := NamesAt(keys, order);
    forall x | x in keys ensures x in names {
      var v := IndexOf(keys, x);
      Covers(order, |keys|, v);
      var j := IndexOf(order, v);
      assert names[j] == x;
    }
  }

  lemma {:induction false} NamesAtDepsFirst(keys: seq<string>, depsOf: seq<seq<string>>, order: seq<nat>)
    requires NoDup(keys) && |depsOf| == |keys|
    requires forall k, d :: 0 <= k < |depsOf| && d in depsOf[k] ==> d in keys
    requires IsTopologicalOrder(EdgesFor(keys, depsOf), order)
    ensures forall m, d :: 0 <= m < |order| && d in depsOf[order[m]] ==> d in NamesAt(keys, order)[..m]
  {
    EdgesForValid(keys, depsOf);
    var names := NamesAt(keys, order);
    forall m, d | 0 <= m < |order| && d in depsOf[order[m]]
      ensures d in names[..m]
    {
      var t := IndexOf(keys, d);
      assert t in EdgesFor(keys, depsOf)[order[m]];
      assert t in order[..m];
      var j :| 0 <= j < m && order[j] == t;
      assert names[..m][j] == d;
    }
  }

  /** A dependency-first order of the keys gives one of positions. */
  lemma {:induction false} NamesToOrder(keys: seq<string>, depsOf: seq<seq<string>>, names: seq<string>)
    requires NoDup(keys)
    requires forall k, d :: 0 <= k < |depsOf| && d in depsOf[k] ==> d in keys
    requires NameOrder(keys, depsOf, names)
    ensures IsTopologicalOrder(EdgesFor(keys, depsOf), Positions(keys, names))
  {
    var edges := EdgesFor(keys, depsOf);
    var order := Positions(keys, names);
    assert |order| == |edges| && InRange(order, |edges|);
    PositionsDistinct(keys, names);
    forall k | 0 <= k < |order|
      ensures order[k] < |edges| && forall t :: t in edges[order[k]] ==> t in order[..k]
    {
      PositionsDepsFirst(keys, depsOf, names, k);
      assert order[k] < |edges|;
    }
    assert DepsFirst(edges, order);
  }

  /** Distinct names have distinct positions. */
  lemma {:induction false} PositionsDistinct(keys: seq<string>, names: seq<string>)
    requires forall x :: x in names ==> x in keys
    requires NoDup(names)
    ensures NoDup(Positions(keys, names))
  {
    var order := Positions(keys, names);
    forall i, j | 0 <= i < j < |order| ensures order[i] != order[j] {
      assert keys[order[i]] == names[i] && keys[order[j]] == names[j];
    }
  }

  lemma {:induction false} PositionsDepsFirst(keys: seq<string>, depsOf: seq<seq<string>>, names: seq<string>, k: nat)
    requires NoDup(keys)
    requires forall k, d :: 0 <= k < |depsOf| && d in depsOf[k] ==> d in keys
    requires NameOrder(keys, depsOf, names) && k < |names|
    ensures var order := Positions(keys, names);
      order[k] < |EdgesFor(keys, depsOf)| && forall t :: t in EdgesFor(keys, depsOf)[order[k]] ==> t in order[..k]
  {
    var order := Positions(keys, names);
    var i := order[k];
    assert i == IndexOf(keys, names[k]) && i < |keys| == |EdgesFor(keys, depsOf)|;
    var edges := EdgesFor(keys, depsOf)[i];
    assert forall t :: t in edges ==> t < |keys| && keys[t] in depsOf[i] by {
      EdgeListSpec(keys, depsOf[i]);
    }
    forall t | t in edges ensures t in order[..k] {
      assert keys[t] in names[..k];
      var j :| 0 <= j < k && names[j] == keys[t];
      assert order[j] == t;
      assert order[..k][j] == t;
    }
  }

  /** `Schedule` succeeds exactly when the keys can be put in a
      dependency-first order, and then returns the nodes in such an order. */
  lemma {:induction false} ScheduleSpec<T>(nodes: seq<T>, keys: seq<string>, depsOf: seq<seq<string>>)
    requires |nodes| == |keys| == |depsOf| && NoDup(keys)
    requires forall k, d :: 0 <= k < |depsOf| && d in depsOf[k] ==> d in keys
    ensures Schedule(nodes, keys, depsOf).Success? <==> exists names :: NameOrder(keys, depsOf, names)
    ensures var r := Schedule(nodes, keys, depsOf);
      r.Success? ==> exists names :: NameOrder(keys, depsOf, names) && Arranged(nodes, keys, names, r.value)
  {
    EdgesForValid(keys, depsOf);
    var edges := EdgesFor(keys, depsOf);
    SortSucceedsIff(edges);
    var r := Schedule(nodes, keys, depsOf);
    if r.Success? {
      var order := SortIndices(edges).value;
      OrderToNames(keys, depsOf, order);
      var names := NamesAt(keys, order);
      assert Arranged(nodes, keys, names, r.value);
    }
    if names :| NameOrder(keys, depsOf, names) {
      NamesToOrder(keys, depsOf, names);
    }
  }

  /** `out` holds the nodes of `names`, in that order. */
  ghost predicate Arranged<T>(nodes: seq<T>, keys: seq<string>, names: seq<string>, out: seq<T>)
    requires |nodes| == |keys|
    requires forall x :: x in names ==> x in keys
  {
    |out| == |names| && forall m :: 0 <= m < |names| ==> out[m] == nodes[IndexOf(keys, names[m])]
  }

  // ---------------------------------------------------------------------
  // A map of nodes keyed by id
  // ---------------------------------------------------------------------

  /** The keys `key` gives to a list of values. */
  function KeysOf<T>(vs: seq<T>, key: T -> string): (r: seq<string>)
    ensures |r| == |vs| && forall k :: 0 <= k < |vs| ==> r[k] == key(vs[k])
  {
    if vs == [] then [] else [key(vs[0])] + KeysOf(vs[1..], key)
  }

  /** The dependency list of each value. */
  function DepsAll<T>(vs: seq<T>, deps: T -> seq<string>): (r: seq<seq<string>>)
    ensures |r| == |vs| && forall k :: 0 <= k < |vs| ==> r[k] == deps(vs[k])
  {
    if vs == [] then [] else [deps(vs[0])] + DepsAll(vs[1..], deps)
  }

  /** Every value is stored under its own key. */
  predicate KeyedBy<T>(m: Entries<string, T>, key: T -> string) {
    forall i :: 0 <= i < |m| ==> key(m[i].1) == m[i].0
  }

  /** Every dependency names a key of the map. */
  predicate DepsKnown<T>(m: Entries<string, T>, deps: T -> seq<string>) {
    forall i, d :: 0 <= i < |m| && d in deps(m[i].1) ==> d in Keys(m)
  }

  /** `out` lists the values of `m`, each once, each after the values its
      dependencies name. */
  ghost predicate MapOrder<T>(m: Entries<string, T>, key: T -> string, deps: T -> seq<string>, out: seq<T>) {
    NoDup(KeysOf(out, key)) &&
    (forall x :: x in KeysOf(out, key) <==> x in Keys(m)) &&
    (forall k :: 0 <= k < |out| ==> Get(m, key(out[k])) == Some(out[k])) &&
    (forall k, d :: 0 <= k < |out| && d in deps(out[k]) ==> d in KeysOf(out, key)[..k])
  }

  /** Pass 2 and the sort over the nodes of a `Map`: the first dependency
      that names no node is reported through `unknown`, then the values are
      sorted. */
  function PlanMap<T>(m: Entries<string, T>, deps: T -> seq<string>, unknown: (T, string) -> PlanError): (r: Result<seq<T>, PlanError>)
    requires Valid(m)
    ensures r.Success? ==> |r.value| == |m|
  {
    var keys, nodes := Keys(m), Values(m);
    var depsOf := DepsAll(nodes, deps);
    match FirstUnknown(keys, depsOf)
    case Some((k, d)) => Failure(unknown(nodes[k], d))
    case None => Schedule(nodes, keys, depsOf)
  }

  /** The error is the first unknown dependency of the first node, in map
      order, that has one; without one, only a cycle can fail the plan. */
  lemma {:induction false} PlanMapFails<T>(m: Entries<string, T>, deps: T -> seq<string>, unknown: (T, string) -> PlanError)
    requires Valid(m)
    ensures var r := PlanMap(m, deps, unknown);
      DepsKnown(m, deps) ==> r.Success? || r == Failure(DependencyCycle)
    ensures var r := PlanMap(m, deps, unknown);
      !DepsKnown(m, deps) ==> exists i: nat, d :: FirstUnknownAt(m, deps, i, d) && r == Failure(unknown(m[i].1, d))
  {
    var keys, nodes := Keys(m), Values(m);
    var depsOf := DepsAll(nodes, deps);
    var f := FirstUnknown(keys, depsOf);
    if f.Some? {
      var (i, d) := f.value;
      assert FirstUnknownAt(m, deps, i, d);
    } else {
      assert DepsKnown(m, deps);
    }
  }

  /** `d` is the first dependency of node `i` naming no key, and the nodes
      before `i` name only keys. */
  predicate FirstUnknownAt<T>(m: Entries<string, T>, deps: T -> seq<string>, i: nat, d: string) {
    i < |m| && d in deps(m[i].1) && d !in Keys(m) &&
    FirstOutside(Keys(m), deps(m[i].1)) == Some(d) &&
    forall j, d' :: 0 <= j < i && d' in deps(m[j].1) ==> d' in Keys(m)
  }

  /** With all dependencies known, the plan succeeds exactly when an order of
      the map's values exists, and it returns one. */
  lemma {:induction false} PlanMapSpec<T>(m: Entries<string, T>, key: T -> string, deps: T -> seq<string>, unknown: (T, string) -> PlanError)
    requires Valid(m) && KeyedBy(m, key)
    ensures PlanMap(m, deps, unknown).Success? <==> exists out :: MapOrder(m, key, deps, out)
    ensures var r := PlanMap(m, deps, unknown);
      r.Success? ==> MapOrder(m, key, deps, r.value)
  {
    var keys, nodes := Keys(m), Values(m);
    var depsOf := DepsAll(nodes, deps);
    var r := PlanMap(m, deps, unknown);
    if r.Success? {
      assert FirstUnknown(keys, depsOf).None?;
      ScheduleSpec(nodes, keys, depsOf);
      var names :| NameOrder(keys, depsOf, names) && Arranged(nodes, keys, names, r.value);
      ArrangedMapOrder(m, key, deps, names, r.value);
    }
    if out :| MapOrder(m, key, deps, out) {
      MapOrderDepsKnown(m, key, deps, out);
      MapOrderNames(m, key, deps, out);
      ScheduleSpec(nodes, keys, depsOf);
    }
  }

  lemma {:induction false} ArrangedMapOrder<T>(m: Entries<string, T>, key: T -> string, deps: T -> seq<string>, names: seq<string>, out: seq<T>)
    requires Valid(m) && KeyedBy(m, key)
    requires NameOrder(Keys(m), DepsAll(Values(m), deps), names)
    requires Arranged(Values(m), Keys(m), names, out)
    ensures MapOrder(m, key, deps, out)
  {
    forall j | 0 <= j < |out|
      ensures key(out[j]) == names[j] && Get(m, key(out[j])) == Some(out[j])
    {
      var i := IndexOf(Keys(m), names[j]);
      GetAt(m, i);
    }
    assert KeysOf(out, key) == names;
    forall k, d | 0 <= k < |out| && d in deps(out[k]) ensures d in names[..k] {
      assert deps(out[k]) == DepsAll(Values(m), deps)[IndexOf(Keys(m), names[k])];
    }
  }

  /** The value a map order lists under a key is the value stored there. */
  lemma {:induction false} MapOrderAt<T>(m: Entries<string, T>, key: T -> string, deps: T -> seq<string>, out: seq<T>, i: nat)
    requires Valid(m) && KeyedBy(m, key) && MapOrder(m, key, deps, out) && i < |m|
    ensures exists k :: 0 <= k < |out| && out[k] == m[i].1 && key(out[k]) == m[i].0
  {
    var x := Keys(m)[i];
    assert x in KeysOf(out, key);
    var k :| 0 <= k < |out| && KeysOf(out, key)[k] == x;
    GetAt(m, i);
    assert Get(m, x) == Some(out[k]);
    assert out[k] == Values(m)[i];
  }

  lemma {:induction false} MapOrderDepsKnown<T>(m: Entries<string, T>, key: T -> string, deps: T -> seq<string>, out: seq<T>)
    requires Valid(m) && KeyedBy(m, key) && MapOrder(m, key, deps, out)
    ensures DepsKnown(m, deps)
  {
    forall i, d | 0 <= i < |m| && d in deps(m[i].1) ensures d in Keys(m) {
      MapOrderAt(m, key, deps, out, i);
      var k :| 0 <= k < |out| && out[k] == m[i].1 && key(out[k]) == m[i].0;
      assert d in KeysOf(out, key)[..k];
    }
  }

  lemma {:induction false} MapOrderNames<T>(m: Entries<string, T>, key: T -> string, deps: T -> seq<string>, out: seq<T>)
    requires Valid(m) && KeyedBy(m, key) && MapOrder(m, key, deps, out)
    ensures NameOrder(Keys(m), DepsAll(Values(m), deps), KeysOf(out, key))
  {
    var names := KeysOf(out, key);
    Elements(names);
    Elements(Keys(m));
    assert ElementSet(names) == ElementSet(Keys(m));
    forall j, d | 0 <= j < |names| && d in DepsAll(Values(m), deps)[IndexOf(Keys(m), names[j])]
      ensures d in names[..j]
    {
      var i := IndexOf(Keys(m), names[j]);
      GetAt(m, i);
      assert Values(m)[i] == out[j];
    }
  }
}
