/** Sequence helpers that stand in for JavaScript's insertion-ordered `Set`:
    adding an element that is already present changes nothing, a new one goes
    to the end. */
module Seqs {

  /** No element occurs twice. */
  predicate NoDup<T(==)>(s: seq<T>) {
    forall i, j :: 0 <= i < j < |s| ==> s[i] != s[j]
  }

  /** Concatenation is associative; stated once so that proofs can cite it
      instead of rediscovering it. */
  lemma {:induction false} Assoc<T>(a: seq<T>, b: seq<T>, c: seq<T>)
    ensures (a + b) + c == a + (b + c)
  {
  }

  /** `Set.prototype.add`: appends `x` unless it is already present. */
  function Add<T(==)>(s: seq<T>, x: T): seq<T> {
    if x in s then s else s + [x]
  }

  /** Adds every element of `xs` in order, as `for (x of xs) set.add(x)`. */
  function AddAll<T(==)>(s: seq<T>, xs: seq<T>): seq<T>
    decreases |xs|
  {
    if xs == [] then s else AddAll(Add(s, xs[0]), xs[1..])
  }

  /** `new Set(xs)` read back as an array: the first occurrence of each element. */
  function Distinct<T(==)>(xs: seq<T>): seq<T> {
    AddAll([], xs)
  }

  /** Position of the first occurrence of `x` (JavaScript `indexOf` on a hit). */
  function IndexOf<T(==)>(s: seq<T>, x: T): (i: nat)
    requires x in s
    ensures i < |s| && s[i] == x && x !in s[..i]
  {
    if s[0] == x then 0 else
      assert s == [s[0]] + s[1..];
      1 + IndexOf(s[1..], x)
  }

  /** `strings.join("")`. */
  function Concat(ss: seq<string>): string {
    if ss == [] then [] else ss[0] + Concat(ss[1..])
  }

  lemma {:induction false} AddNoDup<T>(s: seq<T>, x: T)
    requires NoDup(s)
    ensures NoDup(Add(s, x))
  {
  }

  lemma {:induction false} AddAllSpec<T>(s: seq<T>, xs: seq<T>)
    requires NoDup(s)
    ensures NoDup(AddAll(s, xs))
    ensures forall x :: x in AddAll(s, xs) <==> x in s || x in xs
    ensures |s| <= |AddAll(s, xs)|
    ensures forall i :: 0 <= i < |s| ==> AddAll(s, xs)[i] == s[i]
    decreases |xs|
  {
    if xs != [] {
      var s' := Add(s, xs[0]);
      AddNoDup(s, xs[0]);
      AddAllSpec(s', xs[1..]);
      assert forall x :: x in xs <==> x == xs[0] || x in xs[1..] by {
        assert xs == [xs[0]] + xs[1..];
      }
    }
  }

  /** Adding elements none of which is present yet appends them. */
  lemma {:induction false} AddAllFresh<T>(s: seq<T>, xs: seq<T>)
    requires NoDup(s + xs)
    ensures AddAll(s, xs) == s + xs
    decreases |xs|
  {
    if xs != [] {
      forall i | 0 <= i < |s| ensures s[i] != xs[0] {
        assert (s + xs)[i] == s[i] && (s + xs)[|s|] == xs[0];
      }
      assert s + xs == (s + [xs[0]]) + xs[1..];
      AddAllFresh(s + [xs[0]], xs[1..]);
    }
  }

  /** `new Set(xs)` keeps a list without repetitions as it is. */
  lemma {:induction false} DistinctNoDup<T>(xs: seq<T>)
    requires NoDup(xs)
    ensures Distinct(xs) == xs
  {
    assert [] + xs == xs;
    AddAllFresh([], xs);
  }

  /** Adding an element that is already present is a no-op. */
  lemma {:induction false} AddAllPresent<T>(s: seq<T>, xs: seq<T>)
    requires forall x :: x in xs ==> x in s
    ensures AddAll(s, xs) == s
    decreases |xs|
  {
    if xs != [] {
      AddAllPresent(s, xs[1..]);
    }
  }

  /** `r` lists elements of `xs` ordered by where they first occur in `xs`. */
  predicate InFirstOccurrenceOrder<T(==)>(xs: seq<T>, r: seq<T>) {
    forall i, j :: 0 <= i < j < |r| ==> OccursBefore(xs, r[i], r[j])
  }

  /** `a` and `b` both occur in `xs`, and `a` occurs first. */
  predicate OccursBefore<T(==)>(xs: seq<T>, a: T, b: T) {
    a in xs && b in xs && IndexOf(xs, a) < IndexOf(xs, b)
  }

  /** `Distinct` keeps exactly the elements of its input, once each, ordered by
      their first occurrence in the input. */
  lemma {:induction false} DistinctSpec<T>(xs: seq<T>)
    ensures NoDup(Distinct(xs))
    ensures forall x :: x in Distinct(xs) <==> x in xs
    ensures InFirstOccurrenceOrder(xs, Distinct(xs))
  {
    AddAllSpec([], xs);
    DistinctOrder(xs);
  }

  /** Order of first occurrences, proved by peeling the last input element. */
  lemma {:induction false} DistinctOrder<T>(xs: seq<T>)
    ensures InFirstOccurrenceOrder(xs, Distinct(xs))
    decreases |xs|
  {
    if xs != [] {
      DistinctOrder(xs[..|xs| - 1]);
      var r := Distinct(xs);
      forall i, j | 0 <= i < j < |r|
        ensures OccursBefore(xs, r[i], r[j])
      {
        DistinctOrderStep(xs, i, j);
      }
    }
  }

  lemma {:induction false} DistinctOrderStep<T>(xs: seq<T>, i: nat, j: nat)
    requires xs != []
    requires InFirstOccurrenceOrder(xs[..|xs| - 1], Distinct(xs[..|xs| - 1]))
    requires i < j < |Distinct(xs)|
    ensures OccursBefore(xs, Distinct(xs)[i], Distinct(xs)[j])
  {
    var init := xs[..|xs| - 1];
    var last := xs[|xs| - 1];
    assert xs == init + [last];
    AddAllSnoc([], init, last);
    AddAllSpec([], init);
    var d := Distinct(init);
    var r := Distinct(xs);
    assert r == Add(d, last);
    assert i < |d| && r[i] == d[i];
    IndexOfPrefix(init, [last], r[i]);
    if j < |d| {
      assert r[j] == d[j];
      IndexOfPrefix(init, [last], r[j]);
    } else {
      assert r == d + [last] && last !in init;
    }
  }

  lemma {:induction false} IndexOfPrefix<T>(a: seq<T>, b: seq<T>, x: T)
    requires x in a
    decreases |a|
    ensures IndexOf(a + b, x) == IndexOf(a, x)
  {
    if a[0] != x {
      assert (a + b)[1..] == a[1..] + b;
      IndexOfPrefix(a[1..], b, x);
    }
  }

  lemma {:induction false} AddAllSnoc<T>(s: seq<T>, xs: seq<T>, x: T)
    ensures AddAll(s, xs + [x]) == Add(AddAll(s, xs), x)
    decreases |xs|
  {
    if xs == [] {
      assert [x][1..] == [];
    } else {
      assert (xs + [x])[1..] == xs[1..] + [x];
      AddAllSnoc(Add(s, xs[0]), xs[1..], x);
    }
  }

  lemma {:induction false} ConcatAppend(a: seq<string>, b: seq<string>)
    ensures Concat(a + b) == Concat(a) + Concat(b)
    decreases |a|
  {
    if a == [] {
      assert a + b == b;
    } else {
      assert (a + b)[0] == a[0];
      assert (a + b)[1..] == a[1..] + b;
      ConcatAppend(a[1..], b);
      calc {
        Concat(a + b);
        a[0] + Concat(a[1..] + b);
        a[0] + (Concat(a[1..]) + Concat(b));
        (a[0] + Concat(a[1..])) + Concat(b);
      }
    }
  }

  /** The elements of a sequence, as a set. */
  function ElementSet<T>(s: seq<T>): set<T> {
    set x | x in s
  }

  /** A sequence has at least as many entries as distinct elements, and
      exactly as many when it is duplicate-free. */
  lemma {:induction false} Elements<T>(s: seq<T>)
    ensures |ElementSet(s)| <= |s|
    ensures NoDup(s) ==> |ElementSet(s)| == |s|
    decreases |s|
  {
    if s != [] {
      var init := s[..|s| - 1];
      var last := s[|s| - 1];
      Elements(init);
      assert s == init + [last];
      assert ElementSet(s) == ElementSet(init) + {last};
      if NoDup(s) {
        assert NoDup(init);
        assert last !in init;
      }
    }
  }

  lemma {:induction false} SubsetSize<T>(A: set<T>, B: set<T>)
    requires A <= B
    ensures |A| <= |B|
  {
    assert B == A + (B - A);
  }
}
