/** JavaScript's insertion-ordered `Map` (and the key order of a plain
    object with non-numeric keys) as a sequence of entries with distinct
    keys. `Put` on a present key replaces the value in place; on a new key
    it appends. */
module OrderedMap {
  import opened Wrappers
  import opened Seqs

  type Entries<K, V> = seq<(K, V)>

  /** The keys, in insertion order. */
  function Keys<K, V>(m: Entries<K, V>): (ks: seq<K>)
    ensures |ks| == |m| && forall i :: 0 <= i < |m| ==> ks[i] == m[i].0
  {
    if m == [] then [] else [m[0].0] + Keys(m[1..])
  }

  /** The values, in key order. */
  function Values<K, V>(m: Entries<K, V>): (vs: seq<V>)
    ensures |vs| == |m| && forall i :: 0 <= i < |m| ==> vs[i] == m[i].1
  {
    if m == [] then [] else [m[0].1] + Values(m[1..])
  }

  lemma {:induction false} KeysAppend<K, V>(a: Entries<K, V>, b: Entries<K, V>)
    ensures Keys(a + b) == Keys(a) + Keys(b)
  {
    assert forall i :: 0 <= i < |a| + |b| ==> Keys(a + b)[i] == (Keys(a) + Keys(b))[i];
  }

  /** Keys are distinct: the shape every `Map` has. */
  predicate Valid<K(==), V>(m: Entries<K, V>) {
    NoDup(Keys(m))
  }

  /** `map.get(k)`: the value stored under `k`. */
  function Get<K(==), V>(m: Entries<K, V>, k: K): (r: Option<V>)
    ensures r.None? <==> k !in Keys(m)
    ensures r.Some? ==> (k, r.value) in m
  {
    if m == [] then None
    else if m[0].0 == k then Some(m[0].1)
    else
      assert Keys(m) == [m[0].0] + Keys(m[1..]);
      Get(m[1..], k)
  }

  /** `map.has(k)`. */
  predicate Has<K(==), V>(m: Entries<K, V>, k: K) {
    k in Keys(m)
  }

  /** `map.set(k, v)`. */
  function Put<K(==), V>(m: Entries<K, V>, k: K, v: V): (r: Entries<K, V>)
    decreases |m|
  {
    if m == [] then [(k, v)]
    else if m[0].0 == k then [(k, v)] + m[1..]
    else [m[0]] + Put(m[1..], k, v)
  }

  /** `Put` on a present key keeps every position; on a new key it appends. */
  lemma {:induction false} PutKeys<K, V>(m: Entries<K, V>, k: K, v: V)
    requires Valid(m)
    ensures Keys(Put(m, k, v)) == Add(Keys(m), k)
    decreases |m|
  {
    if m != [] {
      assert Keys(m) == [m[0].0] + Keys(m[1..]);
      if m[0].0 != k {
        PutKeys(m[1..], k, v);
        assert Keys(Put(m, k, v)) == [m[0].0] + Keys(Put(m[1..], k, v));
        if k !in Keys(m) {
          assert Keys(m) + [k] == [m[0].0] + (Keys(m[1..]) + [k]);
        }
      } else {
        assert Keys(Put(m, k, v)) == [k] + Keys(m[1..]);
      }
    }
  }

  /** After `Put`, `k` reads back `v` and every other key reads as before. */
  lemma {:induction false} PutGet<K, V>(m: Entries<K, V>, k: K, v: V, k': K)
    ensures Get(Put(m, k, v), k') == if k' == k then Some(v) else Get(m, k')
    decreases |m|
  {
    if m != [] && m[0].0 != k {
      PutGet(m[1..], k, v, k');
    } else if m != [] {
      assert Put(m, k, v)[1..] == m[1..];
    }
  }

  /** `Put` keeps keys distinct, places `k` by `Add`, and changes only `k`. */
  lemma {:induction false} PutSpec<K, V>(m: Entries<K, V>, k: K, v: V)
    requires Valid(m)
    ensures Valid(Put(m, k, v))
    ensures Keys(Put(m, k, v)) == Add(Keys(m), k)
    ensures forall k' :: Get(Put(m, k, v), k') == if k' == k then Some(v) else Get(m, k')
  {
    PutKeys(m, k, v);
    AddNoDup(Keys(m), k);
    forall k' ensures Get(Put(m, k, v), k') == if k' == k then Some(v) else Get(m, k') {
      PutGet(m, k, v, k');
    }
  }

  /** With distinct keys, the key at a position reads back the value at
      that position. */
  lemma {:induction false} GetAt<K, V>(m: Entries<K, V>, i: nat)
    requires Valid(m) && i < |m|
    ensures Get(m, Keys(m)[i]) == Some(Values(m)[i])
    decreases |m|
  {
    if i > 0 {
      assert Keys(m[1..]) == Keys(m)[1..];
      GetAt(m[1..], i - 1);
    }
  }

  /** `new Map(pairs)` and a loop of `set`s: every entry put in order. */
  function PutAll<K(==), V>(m: Entries<K, V>, es: seq<(K, V)>): (r: Entries<K, V>)
    decreases |es|
  {
    if es == [] then m else PutAll(Put(m, es[0].0, es[0].1), es[1..])
  }

  /** Putting a list of entries: the keys are the first occurrences in order,
      and each key's value is the one put last. */
  lemma {:induction false} PutAllSpec<K, V>(m: Entries<K, V>, es: seq<(K, V)>)
    requires Valid(m)
    ensures Valid(PutAll(m, es))
    ensures Keys(PutAll(m, es)) == AddAll(Keys(m), Keys(es))
    ensures forall k :: Get(PutAll(m, es), k) == (if k in Keys(es) then Some(LastValue(es, k)) else Get(m, k))
    decreases |es|
  {
    if es != [] {
      PutSpec(m, es[0].0, es[0].1);
      PutAllSpec(Put(m, es[0].0, es[0].1), es[1..]);
      assert Keys(es)[1..] == Keys(es[1..]);
      assert Keys(es)[0] == es[0].0;
      forall k
        ensures Get(PutAll(m, es), k) == (if k in Keys(es) then Some(LastValue(es, k)) else Get(m, k))
      {
        assert k in Keys(es) <==> k == es[0].0 || k in Keys(es[1..]) by {
          assert Keys(es) == [es[0].0] + Keys(es[1..]);
        }
      }
    }
  }

  /** Every entry after `Put` is an old entry or the new one. */
  lemma {:induction false} PutEntries<K, V>(m: Entries<K, V>, k: K, v: V)
    ensures forall e :: e in Put(m, k, v) ==> e in m || e == (k, v)
    decreases |m|
  {
    if m != [] && m[0].0 != k {
      PutEntries(m[1..], k, v);
    }
  }

  /** Every entry after `PutAll` is an old entry or one of those put. */
  lemma {:induction false} PutAllEntries<K, V>(m: Entries<K, V>, es: seq<(K, V)>)
    ensures forall e :: e in PutAll(m, es) ==> e in m || e in es
    decreases |es|
  {
    if es != [] {
      PutEntries(m, es[0].0, es[0].1);
      PutAllEntries(Put(m, es[0].0, es[0].1), es[1..]);
    }
  }

  /** The value of the last entry with key `k`. */
  function LastValue<K(==), V>(es: seq<(K, V)>, k: K): V
    requires k in Keys(es)
    decreases |es|
  {
    assert Keys(es) == [es[0].0] + Keys(es[1..]);
    if k in Keys(es[1..]) then LastValue(es[1..], k) else es[0].1
  }

  /** `set` on a new key appends. */
  lemma {:induction false} PutFresh<K, V>(m: Entries<K, V>, k: K, v: V)
    requires k !in Keys(m)
    ensures Put(m, k, v) == m + [(k, v)]
    decreases |m|
  {
    if m != [] {
      assert Keys(m) == [m[0].0] + Keys(m[1..]);
      PutFresh(m[1..], k, v);
      assert m == [m[0]] + m[1..];
    }
  }

  /** Setting entries whose keys are all new, and distinct, appends them. */
  lemma {:induction false} PutAllFresh<K, V>(m: Entries<K, V>, es: seq<(K, V)>)
    requires Valid(m + es)
    ensures PutAll(m, es) == m + es
    decreases |es|
  {
    if es != [] {
      var e := es[0];
      FreshHead(m, es);
      PutFresh(m, e.0, e.1);
      var m' := m + [e];
      assert m' + es[1..] == m + es by {
        assert es == [e] + es[1..];
      }
      PutAllFresh(m', es[1..]);
    }
  }

  lemma {:induction false} FreshHead<K, V>(m: Entries<K, V>, es: seq<(K, V)>)
    requires Valid(m + es) && es != []
    ensures es[0].0 !in Keys(m)
  {
    var ks := Keys(m + es);
    KeysAppend(m, es);
    assert ks[|m|] == es[0].0;
    forall i | 0 <= i < |m| ensures Keys(m)[i] != es[0].0 {
      assert Keys(m)[i] == ks[i];
    }
  }

  /** In a map the value put last under a key is the one stored. */
  lemma {:induction false} LastValueGet<K, V>(m: Entries<K, V>, k: K)
    requires Valid(m) && k in Keys(m)
    ensures Get(m, k) == Some(LastValue(m, k))
    decreases |m|
  {
    assert Keys(m) == [m[0].0] + Keys(m[1..]);
    if k in Keys(m[1..]) {
      assert Keys(m[1..]) == Keys(m)[1..];
      assert m[0].0 != k by {
        var i := IndexOf(Keys(m[1..]), k);
        assert Keys(m)[i + 1] == k;
      }
      LastValueGet(m[1..], k);
    }
  }
}
