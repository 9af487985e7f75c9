/** The stable topological sort behind every planning pass.

    A graph is a list of nodes; `edges[v]` lists, in insertion order and
    without repetition, the nodes `v` depends on (an edge `v -> t` means `t`
    must come first). Nodes are addressed by their position in the list, and
    the payloads are attached only at the very end.

    The sort is Kahn's algorithm with a first-in-first-out queue:
      1. every node starts with a counter equal to its number of edges;
      2. a dependents index records, for each node, the nodes that point to
         it, found by scanning the nodes in list order and each node's edges
         in insertion order;
      3. the queue is seeded with the nodes whose counter is zero, in list
         order;
      4. the front node is emitted, the counters of its dependents are
         decremented in recorded order, and every dependent reaching zero is
         appended to the queue;
      5. when the queue runs dry with nodes left over, the graph has a cycle
         and the sort fails. */
module Graph {
  import opened Seqs
  import opened Wrappers

  /** Every entry of `s` is a node index below `n`. */
  predicate InRange(s: seq<nat>, n: nat) {
    forall k :: 0 <= k < |s| ==> s[k] < n
  }

  /** Edge lists behave like JavaScript `Set`s of nodes of this graph. */
  predicate ValidEdges(edges: seq<seq<nat>>) {
    forall v :: 0 <= v < |edges| ==> NoDup(edges[v]) && InRange(edges[v], |edges|)
  }

  /** Every node of `order` is placed after all of the nodes it depends on. */
  predicate DepsFirst(edges: seq<seq<nat>>, order: seq<nat>) {
    forall k :: 0 <= k < |order| ==>
      order[k] < |edges| && forall t :: t in edges[order[k]] ==> t in order[..k]
  }

  /** `order` lists every node exactly once with dependencies first. */
  predicate IsTopologicalOrder(edges: seq<seq<nat>>, order: seq<nat>) {
    |order| == |edges| && NoDup(order) && InRange(order, |edges|) && DepsFirst(edges, order)
  }

  /** A closed walk `c[0] -> c[1] -> ... -> c[|c| - 1] -> c[0]`; a self-loop is
      a cycle of length one. */
  predicate IsCycle(edges: seq<seq<nat>>, c: seq<nat>) {
    |c| >= 1 && InRange(c, |edges|) &&
    forall k :: 0 <= k < |c| ==> c[(k + 1) % |c|] in edges[c[k]]
  }

  /** A non-empty set of nodes each of which depends on a member of the set:
      none of them can ever be placed first. */
  predicate Blocked(edges: seq<seq<nat>>, L: set<nat>) {
    L != {} &&
    (forall v :: v in L ==> v < |edges|) &&
    forall v {:trigger edges[v]} :: v in L ==> exists t :: t in edges[v] && t in L
  }

  // ---------------------------------------------------------------------
  // The dependents index
  // ---------------------------------------------------------------------

  /** The nodes from `v` on that have an edge to `u`, in list order. */
  function DependentsFrom(edges: seq<seq<nat>>, u: nat, v: nat): seq<nat>
    decreases |edges| - v
  {
    if v >= |edges| then []
    else (if u in edges[v] then [v] else []) + DependentsFrom(edges, u, v + 1)
  }

  /** The nodes that have an edge to `u`, in list order. */
  function Dependents(edges: seq<seq<nat>>, u: nat): seq<nat> {
    DependentsFrom(edges, u, 0)
  }

  lemma {:induction false} DependentsFromSpec(edges: seq<seq<nat>>, u: nat, v: nat)
    ensures forall d: nat :: d in DependentsFrom(edges, u, v) <==> v <= d < |edges| && u in edges[d]
    ensures NoDup(DependentsFrom(edges, u, v))
    decreases |edges| - v
  {
    if v < |edges| {
      DependentsFromSpec(edges, u, v + 1);
    }
  }

  /** A node is a dependent of `u` exactly when it has an edge to `u`; each is
      listed once. */
  lemma {:induction false} DependentsSpec(edges: seq<seq<nat>>, u: nat)
    ensures forall d: nat :: d in Dependents(edges, u) <==> d < |edges| && u in edges[d]
    ensures NoDup(Dependents(edges, u))
    ensures InRange(Dependents(edges, u), |edges|)
  {
    DependentsFromSpec(edges, u, 0);
    var ds := Dependents(edges, u);
    assert forall k :: 0 <= k < |ds| ==> ds[k] in ds;
  }

  /** Records node `v` as a dependent of each of `targets`, in order. */
  function RecordEdges(index: seq<seq<nat>>, v: nat, targets: seq<nat>): (r: seq<seq<nat>>)
    requires InRange(targets, |index|)
    ensures |r| == |index|
    decreases |targets|
  {
    if targets == [] then index
    else RecordEdges(index[targets[0] := index[targets[0]] + [v]], v, targets[1..])
  }

  /** Scans the nodes from `v` on, recording each node's edges. */
  function ScanNodes(edges: seq<seq<nat>>, v: nat, index: seq<seq<nat>>): (r: seq<seq<nat>>)
    requires ValidEdges(edges) && |index| == |edges|
    ensures |r| == |edges|
    decreases |edges| - v
  {
    if v >= |edges| then index
    else ScanNodes(edges, v + 1, RecordEdges(index, v, edges[v]))
  }

  /** The dependents index as the sort builds it: one scan over all nodes and
      their edges, starting from empty lists. */
  function BuildIndex(edges: seq<seq<nat>>): (r: seq<seq<nat>>)
    requires ValidEdges(edges)
    ensures |r| == |edges|
  {
    ScanNodes(edges, 0, EmptyLists(|edges|))
  }

  /** `n` empty lists. */
  function EmptyLists(n: nat): (r: seq<seq<nat>>)
    ensures |r| == n && forall u :: 0 <= u < n ==> r[u] == []
  {
    if n == 0 then [] else EmptyLists(n - 1) + [[]]
  }

  lemma {:induction false} RecordEdgesSpec(index: seq<seq<nat>>, v: nat, targets: seq<nat>)
    requires InRange(targets, |index|) && NoDup(targets)
    ensures forall u :: 0 <= u < |index| ==>
      RecordEdges(index, v, targets)[u] == index[u] + (if u in targets then [v] else [])
    decreases |targets|
  {
    if targets != [] {
      var t := targets[0];
      var index' := index[t := index[t] + [v]];
      RecordEdgesSpec(index', v, targets[1..]);
      forall u | 0 <= u < |index|
        ensures RecordEdges(index, v, targets)[u] == index[u] + (if u in targets then [v] else [])
      {
        assert u in targets <==> u == t || u in targets[1..] by {
          assert targets == [t] + targets[1..];
        }
        if u == t {
          assert t !in targets[1..];
        }
      }
    }
  }

  lemma {:induction false} ScanNodesSpec(edges: seq<seq<nat>>, v: nat, index: seq<seq<nat>>)
    requires ValidEdges(edges) && |index| == |edges| && v <= |edges|
    ensures forall u :: 0 <= u < |edges| ==>
      ScanNodes(edges, v, index)[u] == index[u] + DependentsFrom(edges, u, v)
    decreases |edges| - v
  {
    if v < |edges| {
      var index' := RecordEdges(index, v, edges[v]);
      RecordEdgesSpec(index, v, edges[v]);
      ScanNodesSpec(edges, v + 1, index');
    }
  }

  /** The scan records, for each node, exactly its dependents in list order. */
  lemma {:induction false} BuildIndexSpec(edges: seq<seq<nat>>)
    requires ValidEdges(edges)
    ensures forall u :: 0 <= u < |edges| ==> BuildIndex(edges)[u] == Dependents(edges, u)
  {
    ScanNodesSpec(edges, 0, EmptyLists(|edges|));
  }

  // ---------------------------------------------------------------------
  // Kahn's worklist
  // ---------------------------------------------------------------------

  /** Counters, the queue of ready nodes, and the nodes emitted so far. */
  datatype KahnState = KahnState(count: seq<int>, queue: seq<nat>, out: seq<nat>)

  /** How many of `targets` are not yet in `done`. */
  function Pending(targets: seq<nat>, done: seq<nat>): (p: nat)
    ensures p <= |targets|
    ensures p == 0 <==> forall t :: t in targets ==> t in done
    decreases |targets|
  {
    if targets == [] then 0
    else
      assert forall t :: t in targets <==> t == targets[0] || t in targets[1..] by {
        assert targets == [targets[0]] + targets[1..];
      }
      (if targets[0] in done then 0 else 1) + Pending(targets[1..], done)
  }

  lemma {:induction false} PendingSnoc(targets: seq<nat>, done: seq<nat>, u: nat)
    requires NoDup(targets) && u !in done
    ensures Pending(targets, done + [u]) == Pending(targets, done) - (if u in targets then 1 else 0)
    decreases |targets|
  {
    if targets != [] {
      assert targets == [targets[0]] + targets[1..];
      PendingSnoc(targets[1..], done, u);
    }
  }

  /** Decrements the counter of every node in `ds`, in order, appending to the
      queue each one that reaches zero. */
  function Relax(count: seq<int>, queue: seq<nat>, ds: seq<nat>): (r: (seq<int>, seq<nat>))
    requires InRange(ds, |count|)
    ensures |r.0| == |count|
    decreases |ds|
  {
    if ds == [] then (count, queue)
    else
      var d := ds[0];
      var count' := count[d := count[d] - 1];
      Relax(count', if count'[d] == 0 then queue + [d] else queue, ds[1..])
  }

  /** The nodes of `ds` whose counter is exactly one, in order. */
  function ReadyAfter(count: seq<int>, ds: seq<nat>): (r: seq<nat>)
    requires InRange(ds, |count|)
    ensures forall d :: d in r <==> d in ds && count[d] == 1
    ensures |r| <= |ds|
    decreases |ds|
  {
    if ds == [] then []
    else
      assert forall d :: d in ds <==> d == ds[0] || d in ds[1..] by {
        assert ds == [ds[0]] + ds[1..];
      }
      (if count[ds[0]] == 1 then [ds[0]] else []) + ReadyAfter(count, ds[1..])
  }

  lemma {:induction false} ReadyAfterNoDup(count: seq<int>, ds: seq<nat>)
    requires InRange(ds, |count|) && NoDup(ds)
    ensures NoDup(ReadyAfter(count, ds))
    decreases |ds|
  {
    if ds != [] {
      ReadyAfterNoDup(count, ds[1..]);
      assert ds[0] !in ds[1..];
    }
  }

  /** Relaxing a duplicate-free list decrements each listed counter once and
      enqueues, in list order, exactly the listed nodes whose counter was one. */
  lemma {:induction false} RelaxSpec(count: seq<int>, queue: seq<nat>, ds: seq<nat>)
    requires InRange(ds, |count|) && NoDup(ds)
    ensures forall v :: 0 <= v < |count| ==>
      Relax(count, queue, ds).0[v] == count[v] - (if v in ds then 1 else 0)
    ensures Relax(count, queue, ds).1 == queue + ReadyAfter(count, ds)
  {
    RelaxCounts(count, queue, ds);
    RelaxQueue(count, queue, ds);
  }

  lemma {:induction false} RelaxCounts(count: seq<int>, queue: seq<nat>, ds: seq<nat>)
    requires InRange(ds, |count|) && NoDup(ds)
    ensures forall v :: 0 <= v < |count| ==>
      Relax(count, queue, ds).0[v] == count[v] - (if v in ds then 1 else 0)
    decreases |ds|
  {
    if ds != [] {
      var d := ds[0];
      var count' := count[d := count[d] - 1];
      var queue' := if count'[d] == 0 then queue + [d] else queue;
      RelaxCounts(count', queue', ds[1..]);
      assert forall v :: v in ds <==> v == d || v in ds[1..] by {
        assert ds == [d] + ds[1..];
      }
      assert d !in ds[1..];
    }
  }

  lemma {:induction false} RelaxQueue(count: seq<int>, queue: seq<nat>, ds: seq<nat>)
    requires InRange(ds, |count|) && NoDup(ds)
    ensures Relax(count, queue, ds).1 == queue + ReadyAfter(count, ds)
    decreases |ds|
  {
    if ds != [] {
      var d := ds[0];
      var count' := count[d := count[d] - 1];
      var queue' := if count'[d] == 0 then queue + [d] else queue;
      var rest := ds[1..];
      assert ReadyAfter(count', rest) == ReadyAfter(count, rest) by {
        assert forall k :: 0 <= k < |rest| ==> rest[k] == ds[k + 1];
        assert forall k :: 0 <= k < |rest| ==> count'[rest[k]] == count[rest[k]];
        ReadyAfterFrame(count, count', rest);
      }
      RelaxQueue(count', queue', rest);
      var x := if count[d] == 1 then [d] else [];
      assert ReadyAfter(count, ds) == x + ReadyAfter(count, rest);
      assert queue' == queue + x;
      Assoc(queue, x, ReadyAfter(count, rest));
    }
  }

  lemma {:induction false} ReadyAfterFrame(c1: seq<int>, c2: seq<int>, ds: seq<nat>)
    requires InRange(ds, |c1|) && |c1| == |c2|
    requires forall k :: 0 <= k < |ds| ==> c1[ds[k]] == c2[ds[k]]
    ensures ReadyAfter(c1, ds) == ReadyAfter(c2, ds)
    decreases |ds|
  {
    if ds != [] {
      ReadyAfterFrame(c1, c2, ds[1..]);
    }
  }

  /** Nodes from `v` on whose counter is zero, in list order. */
  function SeedFrom(count: seq<int>, v: nat): (r: seq<nat>)
    ensures forall w :: w in r <==> v <= w < |count| && count[w] == 0
    ensures NoDup(r)
    decreases |count| - v
  {
    if v >= |count| then []
    else (if count[v] == 0 then [v] else []) + SeedFrom(count, v + 1)
  }

  /** The starting state: counters equal to edge counts, zero-count nodes
      queued in list order, nothing emitted. */
  function Init(edges: seq<seq<nat>>): KahnState {
    var count := EdgeCounts(edges);
    KahnState(count, SeedFrom(count, 0), [])
  }

  /** The number of edges of each node. */
  function EdgeCounts(edges: seq<seq<nat>>): (r: seq<int>)
    ensures |r| == |edges| && forall v :: 0 <= v < |edges| ==> r[v] == |edges[v]|
  {
    if edges == [] then [] else EdgeCounts(edges[..|edges| - 1]) + [|edges[|edges| - 1]|]
  }

  /** What stays true between steps of the worklist. */
  predicate Inv(edges: seq<seq<nat>>, st: KahnState) {
    ValidEdges(edges) &&
    |st.count| == |edges| &&
    InRange(st.out, |edges|) && InRange(st.queue, |edges|) &&
    NoDup(st.out + st.queue) &&
    (forall v :: 0 <= v < |edges| ==> st.count[v] == Pending(edges[v], st.out)) &&
    (forall k :: 0 <= k < |st.queue| ==> st.count[st.queue[k]] == 0) &&
    (forall v :: 0 <= v < |edges| && v !in st.out && v !in st.queue ==> st.count[v] > 0) &&
    DepsFirst(edges, st.out)
  }

  /** `index` is the dependents index of `edges`. */
  predicate IsIndex(edges: seq<seq<nat>>, index: seq<seq<nat>>) {
    |index| == |edges| && forall u :: 0 <= u < |edges| ==> index[u] == Dependents(edges, u)
  }

  /** One step: emit the front of the queue and relax its dependents. */
  function Step(index: seq<seq<nat>>, st: KahnState): KahnState
    requires st.queue != [] && st.queue[0] < |index|
    requires InRange(index[st.queue[0]], |st.count|)
  {
    var u := st.queue[0];
    var r := Relax(st.count, st.queue[1..], index[u]);
    KahnState(r.0, r.1, st.out + [u])
  }

  lemma {:induction false} InitInv(edges: seq<seq<nat>>)
    requires ValidEdges(edges)
    ensures Inv(edges, Init(edges))
  {
    var st := Init(edges);
    assert forall k :: 0 <= k < |st.queue| ==> st.queue[k] in st.queue;
    assert st.out + st.queue == st.queue;
    forall v | 0 <= v < |edges|
      ensures st.count[v] == Pending(edges[v], st.out)
    {
      PendingNone(edges[v]);
    }
  }

  lemma {:induction false} PendingNone(targets: seq<nat>)
    ensures Pending(targets, []) == |targets|
    decreases |targets|
  {
    if targets != [] {
      PendingNone(targets[1..]);
    }
  }

  /** `v, v + 1, ..., n - 1`. */
  function Range(v: nat, n: nat): (r: seq<nat>)
    ensures |r| == if v <= n then n - v else 0
    ensures forall k :: 0 <= k < |r| ==> r[k] == v + k
    decreases n - v
  {
    if v >= n then [] else [v] + Range(v + 1, n)
  }

  /** The node indices below `n`, in order. */
  function Nodes(n: nat): (r: seq<nat>)
    ensures |r| == n && NoDup(r)
    ensures forall k :: 0 <= k < n ==> r[k] == k
    ensures forall v: nat :: v in r <==> v < n
  {
    var r := Range(0, n);
    assert NoDup(r) by {
      forall i, j | 0 <= i < j < n
        ensures r[i] != r[j]
      {
        assert r[i] == i && r[j] == j;
      }
    }
    forall v: nat | v in r
      ensures v < n
    {
      var k :| 0 <= k < |r| && r[k] == v;
    }
    forall v: nat | v < n
      ensures v in r
    {
      assert r[v] == v;
    }
    r
  }

  /** A duplicate-free list of nodes below `n` has at most `n` entries. */
  lemma {:induction false} NoDupBound(s: seq<nat>, n: nat)
    requires NoDup(s) && InRange(s, n)
    ensures |s| <= n
  {
    Elements(s);
    Elements(Nodes(n));
    SubsetSize(ElementSet(s), ElementSet(Nodes(n)));
  }

  /** If every node below `n` occurs in `s` then `s` has at least `n` entries. */
  lemma {:induction false} CoverBound(s: seq<nat>, n: nat)
    requires forall v: nat :: v < n ==> v in s
    ensures |s| >= n
  {
    Elements(s);
    Elements(Nodes(n));
    SubsetSize(ElementSet(Nodes(n)), ElementSet(s));
  }

  /** A duplicate-free list of `n` nodes below `n` contains every node. */
  lemma {:induction false} Covers(order: seq<nat>, n: nat, v: nat)
    requires |order| == n && NoDup(order) && InRange(order, n) && v < n
    ensures v in order
  {
    if v !in order {
      Elements(order);
      Elements(Nodes(n));
      SubsetSize(ElementSet(order), ElementSet(Nodes(n)) - {v});
    }
  }

  lemma {:induction false} DepsFirstSnoc(edges: seq<seq<nat>>, out: seq<nat>, u: nat)
    requires DepsFirst(edges, out) && u < |edges|
    requires forall t :: t in edges[u] ==> t in out
    ensures DepsFirst(edges, out + [u])
  {
    var o := out + [u];
    forall k | 0 <= k < |o|
      ensures o[k] < |edges| && forall t :: t in edges[o[k]] ==> t in o[..k]
    {
      if k < |out| {
        assert o[..k] == out[..k];
      } else {
        assert o[..k] == out;
      }
    }
  }

  lemma {:induction false} NoDupAppend<T>(a: seq<T>, b: seq<T>)
    requires NoDup(a) && NoDup(b)
    requires forall x :: x in a ==> x !in b
    ensures NoDup(a + b)
  {
    var ab := a + b;
    forall i, j | 0 <= i < j < |ab|
      ensures ab[i] != ab[j]
    {
      if j < |a| {
      } else if i >= |a| {
        assert ab[i] == b[i - |a|] && ab[j] == b[j - |a|];
      } else {
        assert ab[i] in a && ab[j] in b;
      }
    }
  }

  /** A node in `out` at position `k` has all its dependencies before it. */
  lemma {:induction false} DepsFirstMember(edges: seq<seq<nat>>, out: seq<nat>, d: nat, t: nat)
    requires DepsFirst(edges, out) && d in out && t in edges[d]
    ensures t in out
  {
    var k := IndexOf(out, d);
    assert t in out[..k];
  }

  /** Facts about the front of the queue. */
  lemma {:induction false} FrontFacts(edges: seq<seq<nat>>, st: KahnState)
    requires Inv(edges, st) && st.queue != []
    ensures st.queue[0] < |edges| && st.queue[0] !in st.out
    ensures forall t :: t in edges[st.queue[0]] ==> t in st.out
    ensures |st.out| < |edges|
  {
    var u := st.queue[0];
    var all := st.out + st.queue;
    assert all[|st.out|] == u;
    assert u < |edges|;
    assert st.count[st.queue[0]] == 0;
    NoDupBound(all, |edges|);
    forall i | 0 <= i < |st.out|
      ensures st.out[i] != u
    {
      assert all[i] == st.out[i];
    }
  }

  /** The nodes a step enqueues were neither emitted nor queued before. */
  lemma {:induction false} NewsFresh(edges: seq<seq<nat>>, index: seq<seq<nat>>, st: KahnState)
    requires Inv(edges, st) && IsIndex(edges, index) && st.queue != []
    requires st.queue[0] < |edges| && st.queue[0] !in st.out
    ensures InRange(index[st.queue[0]], |st.count|)
    ensures forall d :: d in ReadyAfter(st.count, index[st.queue[0]]) ==>
      d < |edges| && st.queue[0] in edges[d] && d !in st.out + st.queue
  {
    var u := st.queue[0];
    DependentsSpec(edges, u);
    var news := ReadyAfter(st.count, index[u]);
    forall d | d in news
      ensures d < |edges| && u in edges[d] && d !in st.out + st.queue
    {
      assert d in index[u];
      if d in st.out {
        DepsFirstMember(edges, st.out, d, u);
      }
    }
  }

  /** The worklist step keeps the invariant. */
  lemma {:induction false} StepInv(edges: seq<seq<nat>>, index: seq<seq<nat>>, st: KahnState)
    requires Inv(edges, st) && IsIndex(edges, index) && st.queue != []
    ensures st.queue[0] < |index| && InRange(index[st.queue[0]], |st.count|)
    ensures |st.out| < |edges|
    ensures Inv(edges, Step(index, st))
  {
    FrontFacts(edges, st);
    NewsFresh(edges, index, st);
    var u := st.queue[0];
    var ds := index[u];
    DependentsSpec(edges, u);
    RelaxSpec(st.count, st.queue[1..], ds);
    var news := ReadyAfter(st.count, ds);
    ReadyAfterNoDup(st.count, ds);
    var st' := Step(index, st);
    assert st'.queue == st.queue[1..] + news;
    assert st'.out == st.out + [u];
    assert st'.out + st'.queue == (st.out + st.queue) + news by {
      SnocShift(st.out, st.queue, news);
    }
    assert InRange(news, |edges|) by {
      assert forall k :: 0 <= k < |news| ==> news[k] in news;
    }
    NoDupAppend(st.out + st.queue, news);
    StepRanges(edges, st, st', news);
    StepCounts(edges, st.count, st.out, u, ds, st'.count);
    StepQueue(edges, st.count, st.queue, st.out, u, ds, st'.count, news);
    StepWaiting(edges, st.count, st.queue, st.out, u, ds, st'.count, news);
    DepsFirstSnoc(edges, st.out, u);
  }

  lemma {:induction false} SnocShift<T>(out: seq<T>, queue: seq<T>, news: seq<T>)
    requires queue != []
    ensures (out + [queue[0]]) + (queue[1..] + news) == (out + queue) + news
  {
    assert queue == [queue[0]] + queue[1..];
  }

  lemma {:induction false} StepRanges(edges: seq<seq<nat>>, st: KahnState, st': KahnState, news: seq<nat>)
    requires InRange(st.out, |edges|) && InRange(st.queue, |edges|) && st.queue != []
    requires forall d :: d in news ==> d < |edges|
    requires st'.out == st.out + [st.queue[0]] && st'.queue == st.queue[1..] + news
    ensures InRange(st'.out, |edges|) && InRange(st'.queue, |edges|)
  {
    assert forall k :: 0 <= k < |news| ==> news[k] in news;
  }

  /** Emitting `u` lowers, by one, exactly the counters of the nodes that
      depend on `u`, matching their pending edges. */
  lemma {:induction false} StepCounts(edges: seq<seq<nat>>, count: seq<int>, out: seq<nat>, u: nat,
                   ds: seq<nat>, count': seq<int>)
    requires ValidEdges(edges) && |count| == |edges| == |count'| && u !in out
    requires forall v :: 0 <= v < |edges| ==> count[v] == Pending(edges[v], out)
    requires forall d: nat :: d in ds <==> d < |edges| && u in edges[d]
    requires forall v :: 0 <= v < |count| ==> count'[v] == count[v] - (if v in ds then 1 else 0)
    ensures forall v :: 0 <= v < |edges| ==> count'[v] == Pending(edges[v], out + [u])
  {
    forall v | 0 <= v < |edges|
      ensures count'[v] == Pending(edges[v], out + [u])
    {
      PendingSnoc(edges[v], out, u);
    }
  }

  /** After the step every queued node still has a zero counter. */
  lemma {:induction false} StepQueue(edges: seq<seq<nat>>, count: seq<int>, queue: seq<nat>, out: seq<nat>, u: nat,
                  ds: seq<nat>, count': seq<int>, news: seq<nat>)
    requires |count| == |edges| == |count'| && queue != [] && queue[0] == u && u !in out
    requires InRange(queue, |edges|)
    requires forall k :: 0 <= k < |queue| ==> count[queue[k]] == 0
    requires forall v :: 0 <= v < |edges| ==> count[v] == Pending(edges[v], out)
    requires forall d: nat :: d in ds <==> d < |edges| && u in edges[d]
    requires forall v :: 0 <= v < |count| ==> count'[v] == count[v] - (if v in ds then 1 else 0)
    requires InRange(news, |edges|) && forall d :: d in news ==> d in ds && count[d] == 1
    ensures forall k :: 0 <= k < |queue[1..] + news| ==> count'[(queue[1..] + news)[k]] == 0
  {
    var q := queue[1..] + news;
    forall k | 0 <= k < |q|
      ensures count'[q[k]] == 0
    {
      var w := q[k];
      if k < |queue| - 1 {
        assert w == queue[k + 1];
        assert Pending(edges[w], out) == 0;
        assert u !in edges[w];
      } else {
        assert w in news;
      }
    }
  }

  /** After the step a node neither emitted nor queued still has a positive
      counter. */
  lemma {:induction false} StepWaiting(edges: seq<seq<nat>>, count: seq<int>, queue: seq<nat>, out: seq<nat>, u: nat,
                    ds: seq<nat>, count': seq<int>, news: seq<nat>)
    requires |count| == |edges| == |count'| && queue != [] && queue[0] == u
    requires forall v :: 0 <= v < |edges| && v !in out && v !in queue ==> count[v] > 0
    requires forall v :: 0 <= v < |count| ==> count'[v] == count[v] - (if v in ds then 1 else 0)
    requires InRange(ds, |edges|)
    requires forall d :: d in news <==> d in ds && count[d] == 1
    ensures forall v :: 0 <= v < |edges| && v !in out + [u] && v !in queue[1..] + news ==> count'[v] > 0
  {
    forall v | 0 <= v < |edges| && v !in out + [u] && v !in queue[1..] + news
      ensures count'[v] > 0
    {
      assert v !in queue by {
        assert queue == [u] + queue[1..];
      }
    }
  }

  /** Runs the worklist until the queue is empty and returns the emitted
      list. Every step emits one node, so `fuel` = the number of nodes not
      yet emitted always suffices (`DrainSpec`); the range guard never fails
      on a well-formed index either. */
  function Drain(index: seq<seq<nat>>, st: KahnState, fuel: nat): seq<nat>
    decreases fuel
  {
    if st.queue == [] || fuel == 0 then st.out
    else if st.queue[0] < |index| && InRange(index[st.queue[0]], |st.count|) then
      Drain(index, Step(index, st), fuel - 1)
    else st.out
  }

  /** What a finished run guarantees: `r` is duplicate-free, places
      dependencies first, and every node left out depends on another node
      left out. */
  predicate Finished(edges: seq<seq<nat>>, r: seq<nat>) {
    NoDup(r) && InRange(r, |edges|) && DepsFirst(edges, r) && Stuck(edges, r)
  }

  /** Every node left out of `r` depends on another node left out. */
  predicate Stuck(edges: seq<seq<nat>>, r: seq<nat>) {
    forall v {:trigger edges[v]} :: 0 <= v < |edges| && v !in r ==> exists t :: t in edges[v] && t !in r
  }

  /** Draining any state that satisfies the invariant finishes. */
  lemma {:induction false} DrainSpec(edges: seq<seq<nat>>, index: seq<seq<nat>>, st: KahnState)
    requires Inv(edges, st) && IsIndex(edges, index) && |st.out| <= |edges|
    ensures Finished(edges, Drain(index, st, |edges| - |st.out|))
    decreases |edges| - |st.out|
  {
    var r := Drain(index, st, |edges| - |st.out|);
    if st.queue == [] {
      assert r == st.out;
      EmptyQueueFinished(edges, st);
    } else {
      StepInv(edges, index, st);
      var st' := Step(index, st);
      DrainUnfold(index, st, |edges| - |st.out|);
      assert r == Drain(index, st', |edges| - |st'.out|);
      DrainSpec(edges, index, st');
    }
  }

  lemma {:induction false} EmptyQueueFinished(edges: seq<seq<nat>>, st: KahnState)
    requires Inv(edges, st) && st.queue == []
    ensures Finished(edges, st.out)
  {
    assert st.out + st.queue == st.out;
    assert forall v :: 0 <= v < |edges| && v !in st.out ==> Pending(edges[v], st.out) > 0;
  }

  lemma {:induction false} DrainUnfold(index: seq<seq<nat>>, st: KahnState, fuel: nat)
    requires st.queue != [] && fuel > 0
    requires st.queue[0] < |index| && InRange(index[st.queue[0]], |st.count|)
    ensures |Step(index, st).out| == |st.out| + 1
    ensures Drain(index, st, fuel) == Drain(index, Step(index, st), fuel - 1)
  {
  }

  /** Why the sort fails. */
  datatype SortError = CircularDependency

  /** The complete worklist run: build the index, seed the queue, drain it. */
  function Run(edges: seq<seq<nat>>): seq<nat>
    requires ValidEdges(edges)
  {
    Drain(BuildIndex(edges), Init(edges), |edges|)
  }

  /** The run from the initial state finishes. */
  lemma {:induction false} RunSpec(edges: seq<seq<nat>>)
    requires ValidEdges(edges)
    ensures Finished(edges, Run(edges))
  {
    BuildIndexSpec(edges);
    InitInv(edges);
    DrainSpec(edges, BuildIndex(edges), Init(edges));
  }

  /** The sort on node indices. */
  function SortIndices(edges: seq<seq<nat>>): (r: Result<seq<nat>, SortError>)
    requires ValidEdges(edges)
    ensures r.Success? ==> IsTopologicalOrder(edges, r.value)
  {
    var out := Run(edges);
    if |out| < |edges| then Failure(CircularDependency)
    else
      RunSpec(edges);
      NoDupBound(out, |edges|);
      Success(out)
  }

  /** The payloads at the given positions. */
  function Payloads<T>(nodes: seq<T>, order: seq<nat>): (r: seq<T>)
    requires InRange(order, |nodes|)
    ensures |r| == |order| && forall k :: 0 <= k < |order| ==> r[k] == nodes[order[k]]
  {
    if order == [] then [] else [nodes[order[0]]] + Payloads(nodes, order[1..])
  }

  /** `topologicalSort`: the payloads of the nodes in sorted order. */
  function TopologicalSort<T>(nodes: seq<T>, edges: seq<seq<nat>>): (r: Result<seq<T>, SortError>)
    requires |nodes| == |edges| && ValidEdges(edges)
    ensures r.Success? <==> SortIndices(edges).Success?
    ensures r.Success? ==> |r.value| == |nodes|
  {
    match SortIndices(edges)
    case Failure(e) => Failure(e)
    case Success(order) => Success(Payloads(nodes, order))
  }

  // ---------------------------------------------------------------------
  // Properties
  // ---------------------------------------------------------------------

  /** No topological order can start a blocked set. */
  lemma {:induction false} BlockedAbsent(edges: seq<seq<nat>>, order: seq<nat>, L: set<nat>, k: nat)
    requires DepsFirst(edges, order) && Blocked(edges, L) && k <= |order|
    ensures forall i :: 0 <= i < k ==> order[i] !in L
    decreases k
  {
    if k > 0 {
      BlockedAbsent(edges, order, L, k - 1);
      var v := order[k - 1];
      forall t | t in edges[v]
        ensures t !in L
      {
        DepsFirstAt(edges, order, k - 1, t);
      }
    }
  }

  lemma {:induction false} DepsFirstAt(edges: seq<seq<nat>>, order: seq<nat>, k: nat, t: nat)
    requires DepsFirst(edges, order) && k < |order| && order[k] < |edges| && t in edges[order[k]]
    ensures exists i :: 0 <= i < k && order[i] == t
  {
    assert t in order[..k];
    var i :| 0 <= i < k && order[..k][i] == t;
  }

  /** A blocked set rules out every topological order. */
  lemma {:induction false} BlockedNoOrder(edges: seq<seq<nat>>, L: set<nat>)
    requires Blocked(edges, L)
    ensures forall order :: !IsTopologicalOrder(edges, order)
  {
    forall order | IsTopologicalOrder(edges, order)
      ensures false
    {
      var v :| v in L;
      BlockedAbsent(edges, order, L, |order|);
      Covers(order, |edges|, v);
    }
  }

  /** The nodes of the graph missing from `out`. */
  function Leftover(edges: seq<seq<nat>>, out: seq<nat>): (L: set<nat>)
    ensures forall w: nat :: w in L <==> w < |edges| && w !in out
  {
    set w | w in Nodes(|edges|) && w !in out
  }

  /** The nodes a short run leaves out form a blocked set. */
  lemma {:induction false} LeftoverBlocked(edges: seq<seq<nat>>, out: seq<nat>)
    requires ValidEdges(edges) && |out| < |edges|
    requires Stuck(edges, out)
    ensures Blocked(edges, Leftover(edges, out))
  {
    var L := Leftover(edges, out);
    assert L != {} by {
      var v: nat :| v < |edges| && v !in out by {
        if forall v: nat :: v < |edges| ==> v in out {
          CoverBound(out, |edges|);
        }
      }
      assert v in L;
    }
    forall w | w in L
      ensures exists t :: t in edges[w] && t in L
    {
      var t :| t in edges[w] && t !in out;
      assert t < |edges|;
      assert t in L;
    }
  }

  /** The sort succeeds exactly when some topological order exists. */
  lemma {:induction false} SortSucceedsIff(edges: seq<seq<nat>>)
    requires ValidEdges(edges)
    ensures SortIndices(edges).Success? <==> exists order :: IsTopologicalOrder(edges, order)
  {
    var r := SortIndices(edges);
    if r.Success? {
      assert IsTopologicalOrder(edges, r.value);
    } else {
      var out := Run(edges);
      RunSpec(edges);
      LeftoverBlocked(edges, out);
      BlockedNoOrder(edges, Leftover(edges, out));
    }
  }

  /** A cycle makes the sort fail. */
  lemma {:induction false} CycleFails(edges: seq<seq<nat>>, c: seq<nat>)
    requires ValidEdges(edges) && IsCycle(edges, c)
    ensures SortIndices(edges).Failure?
  {
    var L := set k | 0 <= k < |c| :: c[k];
    assert c[0] in L;
    forall v | v in L
      ensures v < |edges| && exists t :: t in edges[v] && t in L
    {
      var k :| 0 <= k < |c| && c[k] == v;
      var t := c[(k + 1) % |c|];
      assert t in edges[v] && t in L;
    }
    BlockedNoOrder(edges, L);
    SortSucceedsIff(edges);
  }

  /** One step in closed form: the front node's dependents lose one from
      their counters, those that were at one join the queue, and the front
      node is emitted. */
  lemma {:induction false} StepFormula(index: seq<seq<nat>>, st: KahnState)
    requires st.queue != [] && st.queue[0] < |index|
    requires InRange(index[st.queue[0]], |st.count|) && NoDup(index[st.queue[0]])
    ensures |Step(index, st).count| == |st.count|
    ensures forall v :: 0 <= v < |st.count| ==>
      Step(index, st).count[v] == st.count[v] - (if v in index[st.queue[0]] then 1 else 0)
    ensures Step(index, st).queue == st.queue[1..] + ReadyAfter(st.count, index[st.queue[0]])
    ensures Step(index, st).out == st.out + [st.queue[0]]
  {
    RelaxSpec(st.count, st.queue[1..], index[st.queue[0]]);
  }

  /** With no edges at all, draining emits the queue as it stands. */
  lemma {:induction false} DrainNoEdges(index: seq<seq<nat>>, st: KahnState, fuel: nat)
    requires forall u :: 0 <= u < |index| ==> index[u] == []
    requires InRange(st.queue, |index|) && fuel >= |st.queue|
    ensures Drain(index, st, fuel) == st.out + st.queue
    decreases |st.queue|
  {
    if st.queue != [] {
      var st' := Step(index, st);
      assert st' == KahnState(st.count, st.queue[1..], st.out + [st.queue[0]]);
      DrainNoEdges(index, st', fuel - 1);
      assert st.queue == [st.queue[0]] + st.queue[1..];
    }
  }

  /** Nodes without any dependencies keep their input order. */
  lemma {:induction false} NoEdgesKeepsOrder<T>(nodes: seq<T>)
    ensures ValidEdges(EmptyLists(|nodes|))
    ensures TopologicalSort(nodes, EmptyLists(|nodes|)) == Success(nodes)
  {
    var n := |nodes|;
    NoEdgesRun(n);
    assert SortIndices(EmptyLists(n)) == Success(Nodes(n));
    assert Payloads(nodes, Nodes(n)) == nodes;
  }

  lemma {:induction false} NoEdgesRun(n: nat)
    ensures ValidEdges(EmptyLists(n))
    ensures Run(EmptyLists(n)) == Nodes(n)
  {
    var e := EmptyLists(n);
    var index := BuildIndex(e);
    BuildIndexSpec(e);
    forall u | 0 <= u < n
      ensures index[u] == []
    {
      DependentsNone(e, u, 0);
    }
    var st := Init(e);
    assert st.queue == Nodes(n) by {
      SeedAll(st.count, 0);
    }
    DrainNoEdges(index, st, n);
  }

  lemma {:induction false} DependentsNone(edges: seq<seq<nat>>, u: nat, v: nat)
    requires forall w :: 0 <= w < |edges| ==> edges[w] == []
    ensures DependentsFrom(edges, u, v) == []
    decreases |edges| - v
  {
    if v < |edges| {
      DependentsNone(edges, u, v + 1);
    }
  }

  /** When every counter is zero the seed is every node from `v` on. */
  lemma {:induction false} SeedAll(count: seq<int>, v: nat)
    requires forall w :: 0 <= w < |count| ==> count[w] == 0
    ensures v <= |count| ==> SeedFrom(count, v) == Range(v, |count|)
    decreases |count| - v
  {
    if v < |count| {
      SeedAll(count, v + 1);
    }
  }

  /** Two graphs whose nodes have the same edge sets. */
  ghost predicate SameEdgeSets(e1: seq<seq<nat>>, e2: seq<seq<nat>>) {
    |e1| == |e2| && forall v :: 0 <= v < |e1| ==> forall t :: t in e1[v] <==> t in e2[v]
  }

  lemma {:induction false} DependentsFromSame(e1: seq<seq<nat>>, e2: seq<seq<nat>>, u: nat, v: nat)
    requires SameEdgeSets(e1, e2)
    ensures DependentsFrom(e1, u, v) == DependentsFrom(e2, u, v)
    decreases |e1| - v
  {
    if v < |e1| {
      DependentsFromSame(e1, e2, u, v + 1);
    }
  }

  /** The order in which edges were added never matters: the sort depends
      only on the node order and on which edges exist. */
  lemma {:induction false} SortIgnoresEdgeOrder(e1: seq<seq<nat>>, e2: seq<seq<nat>>)
    requires ValidEdges(e1) && ValidEdges(e2) && SameEdgeSets(e1, e2)
    ensures SortIndices(e1) == SortIndices(e2)
  {
    BuildIndexSpec(e1);
    BuildIndexSpec(e2);
    forall u | 0 <= u < |e1|
      ensures BuildIndex(e1)[u] == BuildIndex(e2)[u]
    {
      DependentsFromSame(e1, e2, u, 0);
    }
    assert BuildIndex(e1) == BuildIndex(e2);
    forall v | 0 <= v < |e1|
      ensures |e1[v]| == |e2[v]|
    {
      Elements(e1[v]);
      Elements(e2[v]);
      assert ElementSet(e1[v]) == ElementSet(e2[v]);
    }
    assert EdgeCounts(e1) == EdgeCounts(e2);
    assert Run(e1) == Run(e2);
  }
}
