/** The changelog helpers of `src/tools.ts` other than the clean-up and the
    split: reading the work-in-progress section, the two key-order helpers
    for the `news` object of `io-package.json`, and inserting entries into
    an older changelog. `packages/plugin-iobroker/src/tools.ts` repeats
    `prependKey` and `limitKeys` word for word; they are modelled once. */
module Changelog {
  import opened Wrappers
  import opened Seqs
  import opened OrderedMap
  import opened Text

  // ---------------------------------------------------------------------
  // extractCurrentChangelog
  // ---------------------------------------------------------------------

  /** A regular-expression match: where it starts and how long it is. */
  datatype Match = Match(index: nat, length: nat)

  /** The match lies inside the text. */
  predicate MatchIn(text: string, m: Match) {
    m.index + m.length <= |text|
  }

  /** The header that ends the section: `prefix` followed by a space. */
  function HeaderMark(prefix: string): (r: string)
    ensures |r| == |prefix| + 1
  {
    prefix + " "
  }

  /** Where the section that starts at `start` ends: at the first
      `prefix + " "` at or after `start`, or at the end of the text. */
  function SectionEnd(text: string, prefix: string, start: nat): (end: nat)
    requires start <= |text|
    ensures start <= end <= |text|
    ensures forall k :: start <= k < end ==> !OccursAt(text, HeaderMark(prefix), k)
    ensures end == |text| || OccursAt(text, HeaderMark(prefix), end)
  {
    match IndexFrom(text, HeaderMark(prefix), start)
    case Some(e) => e
    case None => |text|
  }

  /** `extractCurrentChangelog`. The placeholder regular expression belongs
      to the caller; its first match is passed in, `None` when it does not
      match. */
  function ExtractCurrent(text: string, prefix: string, placeholder: Option<Match>): (r: Option<string>)
    requires placeholder.Some? ==> MatchIn(text, placeholder.value)
    ensures r.Some? <==> placeholder.Some?
    ensures r.Some? ==> Trim(r.value) == r.value
  {
    match placeholder
    case None => None
    case Some(m) =>
      var start := m.index + m.length;
      var section := text[start..SectionEnd(text, prefix, start)];
      TrimIdempotent(section);
      Some(Trim(section))
  }

  /** The section read is the text from the end of the placeholder up to the
      first `prefix + " "` at or after it, or to the end of the text, with
      white space trimmed: any end point with those two properties gives the
      result. */
  lemma {:induction false} ExtractSection(text: string, prefix: string, m: Match, end: nat)
    requires MatchIn(text, m)
    requires m.index + m.length <= end <= |text|
    requires forall k :: m.index + m.length <= k < end ==> !OccursAt(text, HeaderMark(prefix), k)
    requires end == |text| || OccursAt(text, HeaderMark(prefix), end)
    ensures ExtractCurrent(text, prefix, Some(m)) == Some(Trim(text[m.index + m.length..end]))
  {
    SectionEndUnique(text, HeaderMark(prefix), prefix, m.index + m.length, end);
  }

  /** Only one end point has the two properties of `SectionEnd`. */
  lemma {:induction false} SectionEndUnique(text: string, mark: string, prefix: string, start: nat, end: nat)
    requires mark == HeaderMark(prefix)
    requires start <= end <= |text|
    requires forall k :: start <= k < end ==> !OccursAt(text, mark, k)
    requires end == |text| || OccursAt(text, mark, end)
    ensures SectionEnd(text, prefix, start) == end
  {
  }

  // ---------------------------------------------------------------------
  // prependKey and limitKeys
  // ---------------------------------------------------------------------

  /** `prependKey`: a new object with `newKey` set first, then every entry of
      `obj` set in order. */
  function PrependKey<V>(obj: Entries<string, V>, newKey: string, value: V): (r: Entries<string, V>)
    requires Valid(obj)
    ensures Valid(r) && |r| >= 1 && r[0].0 == newKey
    ensures Keys(r) == AddAll([newKey], Keys(obj))
    ensures forall k :: Get(r, k) == (if k in Keys(obj) then Get(obj, k) else if k == newKey then Some(value) else None)
  {
    PrependSpec(obj, newKey, value);
    PutAll([(newKey, value)], obj)
  }

  lemma {:induction false} PrependSpec<V>(obj: Entries<string, V>, newKey: string, value: V)
    requires Valid(obj)
    ensures var r := PutAll([(newKey, value)], obj);
      Valid(r) && |r| >= 1 && r[0].0 == newKey && Keys(r) == AddAll([newKey], Keys(obj)) &&
      forall k :: Get(r, k) == (if k in Keys(obj) then Get(obj, k) else if k == newKey then Some(value) else None)
  {
    var m := [(newKey, value)];
    assert Keys(m) == [newKey];
    assert Valid(m);
    PutAllSpec(m, obj);
    var r := PutAll(m, obj);
    AddAllPrefix([newKey], Keys(obj));
    assert Keys(r)[0] == newKey;
    forall k ensures Get(r, k) == (if k in Keys(obj) then Get(obj, k) else if k == newKey then Some(value) else None) {
      if k in Keys(obj) {
        LastValueGet(obj, k);
      }
    }
  }

  /** Adding elements keeps what was already there in front. */
  lemma {:induction false} AddAllPrefix<T>(s: seq<T>, xs: seq<T>)
    ensures |AddAll(s, xs)| >= |s| && AddAll(s, xs)[..|s|] == s
    decreases |xs|
  {
    if xs != [] {
      var s' := Add(s, xs[0]);
      AddAllPrefix(s', xs[1..]);
      assert s'[..|s|] == s;
    }
  }

  /** A key not yet present ends up in front of the unchanged object. */
  lemma {:induction false} PrependFresh<V>(obj: Entries<string, V>, newKey: string, value: V)
    requires Valid(obj) && newKey !in Keys(obj)
    ensures PrependKey(obj, newKey, value) == [(newKey, value)] + obj
  {
    var m := [(newKey, value)];
    KeysAppend(m, obj);
    assert Keys(m) == [newKey];
    assert Valid(m + obj) by {
      var ks := Keys(m + obj);
      forall i, j | 0 <= i < j < |ks| ensures ks[i] != ks[j] {
        if i == 0 {
          assert ks[j] == Keys(obj)[j - 1];
        } else {
          assert ks[i] == Keys(obj)[i - 1] && ks[j] == Keys(obj)[j - 1];
        }
      }
    }
    PutAllFresh(m, obj);
  }

  /** `Array.prototype.slice(0, count)`: the end position it keeps up to. A
      negative count counts from the end. */
  function SliceEnd(len: nat, count: int): (e: nat)
    ensures e <= len
    ensures count >= 0 ==> e == if count < len then count else len
    ensures count < 0 ==> e == if len + count > 0 then len + count else 0
  {
    if count >= 0 then (if count < len then count else len)
    else if len + count > 0 then len + count else 0
  }

  /** `limitKeys`: a new object with the first `count` entries of `obj`. */
  function LimitKeys<V>(obj: Entries<string, V>, count: int): (r: Entries<string, V>)
    requires Valid(obj)
  {
    PutAll([], obj[..SliceEnd(|obj|, count)])
  }

  /** The limited object is the object's first entries, in order, and holds
      `min(count, size)` of them for a non-negative count. */
  lemma {:induction false} LimitKeysSpec<V>(obj: Entries<string, V>, count: int)
    requires Valid(obj)
    ensures var r := LimitKeys(obj, count);
      Valid(r) && |r| <= |obj| && r == obj[..|r|] &&
      (count >= 0 ==> |r| == if count < |obj| then count else |obj|)
  {
    var e := SliceEnd(|obj|, count);
    PrefixValid(obj, e);
    assert [] + obj[..e] == obj[..e];
    PutAllFresh([], obj[..e]);
  }

  lemma {:induction false} PrefixValid<V>(obj: Entries<string, V>, e: nat)
    requires Valid(obj) && e <= |obj|
    ensures Valid(obj[..e])
  {
    var p := obj[..e];
    forall i, j | 0 <= i < j < |p| ensures Keys(p)[i] != Keys(p)[j] {
      assert Keys(p)[i] == Keys(obj)[i] && Keys(p)[j] == Keys(obj)[j];
    }
  }

  /** Limiting twice keeps the smaller limit. */
  lemma {:induction false} LimitKeysTwice<V>(obj: Entries<string, V>, a: nat, b: nat)
    requires Valid(obj)
    ensures Valid(LimitKeys(obj, a))
    ensures LimitKeys(LimitKeys(obj, a), b) == LimitKeys(obj, if a < b then a else b)
  {
    LimitKeysSpec(obj, a);
    var r := LimitKeys(obj, a);
    LimitKeysSpec(r, b);
    LimitKeysSpec(obj, if a < b then a else b);
  }

  /** The update of the `news` object: the new version first, at most
      `limit` entries, and the previous entries after it in their order. */
  lemma {:induction false} NewsUpdate<V>(news: Entries<string, V>, version: string, text: V, limit: nat)
    requires Valid(news) && version !in Keys(news) && limit >= 1
    ensures var r := LimitKeys(PrependKey(news, version, text), limit);
      |r| == (if limit < |news| + 1 then limit else |news| + 1) &&
      r[0] == (version, text) && r[1..] == news[..|r| - 1]
  {
    PrependFresh(news, version, text);
    var p := PrependKey(news, version, text);
    LimitKeysSpec(p, limit);
    var r := LimitKeys(p, limit);
    assert r[1..] == p[1..|r|];
  }

  // ---------------------------------------------------------------------
  // insertIntoChangelog
  // ---------------------------------------------------------------------

  /** `insertIntoChangelog`: the new entries go right before the first
      occurrence of `prefix`, or at the end when there is none. */
  function InsertIntoChangelog(changelog: string, newEntries: string, prefix: string): (r: string)
    ensures |r| == |changelog| + |newEntries|
  {
    match IndexFrom(changelog, prefix, 0)
    case None => changelog + newEntries
    case Some(k) => changelog[..k] + newEntries + changelog[k..]
  }

  /** The insertion point: the first occurrence of the prefix, or the end. */
  predicate InsertionPoint(changelog: string, prefix: string, k: nat) {
    k <= |changelog| &&
    (forall j :: 0 <= j < k ==> !OccursAt(changelog, prefix, j)) &&
    (OccursAt(changelog, prefix, k) || (k == |changelog| && !OccursAt(changelog, prefix, k)))
  }

  /** The entries are inserted at the insertion point, and taking them out
      again gives back the changelog. */
  lemma {:induction false} InsertSpec(changelog: string, newEntries: string, prefix: string)
    ensures exists k: nat :: (InsertionPoint(changelog, prefix, k) &&
      InsertIntoChangelog(changelog, newEntries, prefix) == changelog[..k] + newEntries + changelog[k..])
    ensures forall k: nat :: InsertionPoint(changelog, prefix, k) ==>
      var r := InsertIntoChangelog(changelog, newEntries, prefix);
      r[k..k + |newEntries|] == newEntries && r[..k] + r[k + |newEntries|..] == changelog
  {
    var found := IndexFrom(changelog, prefix, 0);
    var k0 := if found.Some? then found.value else |changelog|;
    assert changelog[..|changelog|] == changelog && changelog[|changelog|..] == [];
    assert InsertionPoint(changelog, prefix, k0);
    forall k: nat | InsertionPoint(changelog, prefix, k)
      ensures var r := InsertIntoChangelog(changelog, newEntries, prefix);
        r[k..k + |newEntries|] == newEntries && r[..k] + r[k + |newEntries|..] == changelog
    {
      InsertionPointUnique(changelog, prefix, k, k0);
      var r := InsertIntoChangelog(changelog, newEntries, prefix);
      assert r == changelog[..k] + newEntries + changelog[k..];
      assert r[..k] == changelog[..k];
      assert r[k + |newEntries|..] == changelog[k..];
      assert changelog[..k] + changelog[k..] == changelog;
    }
  }

  /** There is only one insertion point. */
  lemma {:induction false} InsertionPointUnique(changelog: string, prefix: string, k: nat, k': nat)
    requires InsertionPoint(changelog, prefix, k) && InsertionPoint(changelog, prefix, k')
    ensures k == k'
  {
  }
}
