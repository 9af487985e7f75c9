/** `splitChangelog` of `src/tools.ts`: keeping the newest version entries
    of a changelog and moving the rest to an "old" changelog.

    A version header is a whole line `<prefix> <major>.<minor>.<patch>`,
    optionally followed by any text ending in a date `(YYYY-MM-DD)`. An
    entry runs from its header to the next line that starts with the
    prefix less its first character (the next heading of the same or a
    higher level), or to the end of the text. */
module ChangelogSplit {
  import opened Wrappers
  import opened Seqs
  import opened Text

  // ---------------------------------------------------------------------
  // Version headers
  // ---------------------------------------------------------------------

  /** `\(\d{4}\-\d{2}\-\d{2}\)`. */
  predicate DateTag(d: string) {
    |d| == 12 && d[0] == '(' && AllDigits(d[1..5]) && d[5] == '-' &&
    AllDigits(d[6..8]) && d[8] == '-' && AllDigits(d[9..11]) && d[11] == ')'
  }

  /** `\d+(.+?\(\d{4}\-\d{2}\-\d{2}\))?` up to the end of the line: the patch
      number, or a patch number, at least one more character and a date. */
  predicate ReleaseTail(r: string) {
    |r| >= 1 && IsDigit(r[0]) && (AllDigits(r) || (|r| >= 14 && DateTag(r[|r| - 12..])))
  }

  /** `\d+\.\d+\.` followed by a release tail. The digit runs are greedy, and
      a shorter run would leave a digit where the `.` must be. */
  predicate VersionTail(t: string) {
    var a := Run(t, IsDigit);
    1 <= a < |t| && t[a] == '.' &&
    var u := t[a + 1..];
    var b := Run(u, IsDigit);
    1 <= b < |u| && u[b] == '.' && ReleaseTail(u[b + 1..])
  }

  /** A line (without its terminator) is a version header. */
  predicate IsHeader(line: string, prefix: string) {
    var mark := prefix + " ";
    |line| > |mark| && line[..|mark|] == mark && VersionTail(line[|mark|..])
  }

  /** The header regular expression (flags `gm`) matches at `i`: `^` holds
      there and the rest of the line is a header, so `$` closes it. */
  predicate HeaderAt(s: string, prefix: string, i: nat)
    requires i <= |s|
  {
    LineStart(s, i) && IsHeader(s[i..LineEnd(s, i)], prefix)
  }

  /** Strictly increasing positions. */
  predicate Increasing(hs: seq<nat>) {
    forall k, l :: 0 <= k < l < |hs| ==> hs[k] < hs[l]
  }

  /** The header positions at or after `i`: what the `exec` loop visits. */
  function HeadersFrom(s: string, prefix: string, i: nat): (hs: seq<nat>)
    requires i <= |s|
    ensures forall k :: 0 <= k < |hs| ==> i <= hs[k] < |s|
    ensures Increasing(hs)
    decreases |s| - i
  {
    if i == |s| then []
    else if HeaderAt(s, prefix, i) then [i] + HeadersFrom(s, prefix, i + 1)
    else HeadersFrom(s, prefix, i + 1)
  }

  function Headers(s: string, prefix: string): (hs: seq<nat>)
    ensures InText(s, hs) && Increasing(hs)
  {
    HeadersFrom(s, prefix, 0)
  }

  /** The loop finds exactly the headers: a match ends at its line's end,
      where no header can start, so `lastIndex` never skips one. */
  lemma {:induction false} HeadersFromSpec(s: string, prefix: string, i: nat)
    requires i <= |s|
    ensures var hs := HeadersFrom(s, prefix, i);
      (forall k :: 0 <= k < |hs| ==> HeaderAt(s, prefix, hs[k])) &&
      (forall j :: i <= j < |s| ==> (HeaderAt(s, prefix, j) <==> j in hs))
  {
    HeadersSound(s, prefix, i);
    HeadersComplete(s, prefix, i);
  }

  lemma {:induction false} HeadersSound(s: string, prefix: string, i: nat)
    requires i <= |s|
    ensures forall k :: 0 <= k < |HeadersFrom(s, prefix, i)| ==> HeaderAt(s, prefix, HeadersFrom(s, prefix, i)[k])
    decreases |s| - i
  {
    if i < |s| {
      HeadersSound(s, prefix, i + 1);
      var hs := HeadersFrom(s, prefix, i);
      var rest := HeadersFrom(s, prefix, i + 1);
      if HeaderAt(s, prefix, i) {
        assert hs == [i] + rest;
        forall k | 0 <= k < |hs| ensures HeaderAt(s, prefix, hs[k]) {
          if k > 0 {
            assert hs[k] == rest[k - 1];
            assert HeaderAt(s, prefix, rest[k - 1]);
          } else {
            assert hs[k] == i;
          }
        }
      } else {
        assert hs == rest;
      }
    }
  }

  lemma {:induction false} HeadersComplete(s: string, prefix: string, i: nat)
    requires i <= |s|
    ensures forall j :: i <= j < |s| && HeaderAt(s, prefix, j) ==> j in HeadersFrom(s, prefix, i)
    decreases |s| - i
  {
    if i < |s| {
      HeadersComplete(s, prefix, i + 1);
      var hs := HeadersFrom(s, prefix, i);
      var rest := HeadersFrom(s, prefix, i + 1);
      assert forall x :: x in rest ==> x in hs by {
        if HeaderAt(s, prefix, i) {
          assert hs == [i] + rest;
        } else {
          assert hs == rest;
        }
      }
      assert HeaderAt(s, prefix, i) ==> hs[0] == i;
    }
  }

  /** `String.prototype.slice(1)`. */
  function DropFirst(s: string): (r: string)
    ensures s != [] ==> s == [s[0]] + r
    ensures s == [] ==> r == []
  {
    if s == [] then [] else s[1..]
  }

  /** The next-headline expression `^<prefix.slice(1)>` (flag `m`), run on
      the text after the header line, which starts at `e`, matches at `j`:
      `^` holds at the start of that text and after every line terminator. */
  predicate HeadlineAt(s: string, sub: string, e: nat, j: nat)
    requires e <= j <= |s|
  {
    (j == e || IsLineTerminator(s[j - 1])) && OccursAt(s, sub, j)
  }

  /** The first headline at or after `j`, or the end of the text. */
  function NextHeadline(s: string, sub: string, e: nat, j: nat): (r: nat)
    requires e <= j <= |s|
    ensures j <= r <= |s|
    ensures forall k :: j <= k < r ==> !HeadlineAt(s, sub, e, k)
    ensures r == |s| || HeadlineAt(s, sub, e, r)
    decreases |s| - j
  {
    if j == |s| || HeadlineAt(s, sub, e, j) then j else NextHeadline(s, sub, e, j + 1)
  }

  /** Where the entry whose header starts at `h` ends. */
  function EntryEnd(s: string, prefix: string, h: nat): (r: nat)
    requires h <= |s|
    ensures h <= r <= |s|
  {
    var e := LineEnd(s, h);
    NextHeadline(s, DropFirst(prefix), e, e)
  }

  /** An entry takes in at least its header line, and stops at the first
      headline after it. */
  lemma {:induction false} EntryEndSpec(s: string, prefix: string, h: nat)
    requires h <= |s|
    ensures var e := LineEnd(s, h); var r := EntryEnd(s, prefix, h);
      e <= r &&
      (forall k :: e <= k < r ==> !HeadlineAt(s, DropFirst(prefix), e, k)) &&
      (r == |s| || HeadlineAt(s, DropFirst(prefix), e, r))
  {
  }

  predicate InText(s: string, hs: seq<nat>) {
    forall k :: 0 <= k < |hs| ==> hs[k] <= |s|
  }

  /** Where each entry ends, one per header. */
  function EntryEnds(s: string, prefix: string, hs: seq<nat>): (ends: seq<nat>)
    requires InText(s, hs)
    ensures |ends| == |hs|
    ensures forall k :: 0 <= k < |hs| ==> hs[k] <= ends[k] <= |s|
    decreases |hs|
  {
    if hs == [] then [] else [EntryEnd(s, prefix, hs[0])] + EntryEnds(s, prefix, hs[1..])
  }

  lemma {:induction false} EntryEndsAt(s: string, prefix: string, hs: seq<nat>, k: nat)
    requires InText(s, hs) && k < |hs|
    ensures EntryEnds(s, prefix, hs)[k] == EntryEnd(s, prefix, hs[k])
    decreases k
  {
    if k > 0 {
      EntryEndsAt(s, prefix, hs[1..], k - 1);
    }
  }

  /** Starts and ends of pieces of `s`, each piece in order. */
  predicate Spans(s: string, hs: seq<nat>, ends: seq<nat>) {
    |ends| == |hs| && forall k :: 0 <= k < |hs| ==> hs[k] <= ends[k] <= |s|
  }

  lemma {:induction false} EntrySpans(s: string, prefix: string)
    ensures Spans(s, Headers(s, prefix), EntryEnds(s, prefix, Headers(s, prefix)))
  {
  }

  /** The pieces `s[hs[k]..ends[k]]`: the entry texts. */
  function Pieces(s: string, hs: seq<nat>, ends: seq<nat>): (es: seq<string>)
    requires Spans(s, hs, ends)
    ensures |es| == |hs|
  {
    seq(|hs|, k requires 0 <= k < |hs| => s[hs[k]..ends[k]])
  }

  // ---------------------------------------------------------------------
  // The split
  // ---------------------------------------------------------------------

  datatype SplitResult = SplitResult(newChangelog: string, oldChangelog: Option<string>)

  function Min(a: nat, b: nat): nat {
    if a < b then a else b
  }

  /** Each old entry with its first character dropped, one heading level up. */
  function Promote(es: seq<string>): (r: seq<string>)
    ensures |r| == |es|
    ensures forall k :: 0 <= k < |es| ==> r[k] == DropFirst(es[k])
  {
    seq(|es|, k requires 0 <= k < |es| => DropFirst(es[k]))
  }

  /** The two results once the entries are known: the text before `first`,
      the first `n` entries and the text after the last entry make the new
      changelog; the remaining entries, if any, make the old one. */
  function Assemble(s: string, hs: seq<nat>, ends: seq<nat>, first: nat, n: nat): SplitResult
    requires hs != [] && Spans(s, hs, ends) && first <= |s|
  {
    var es := Pieces(s, hs, ends);
    var lastEnd := ends[|hs| - 1];
    SplitResult(
      s[..first] + Concat(es[..Min(n, |es|)]) + s[lastEnd..],
      if |es| > n then Some(Concat(Promote(es[n..]))) else None)
  }

  /** `if (!firstStartIndex) firstStartIndex = matchStart.index` over the
      matches: `0` counts as unset, so a header at the very start of the
      text is passed over for the next one. */
  function FirstStartAsWritten(hs: seq<nat>, f: nat): (r: nat)
    ensures f > 0 ==> r == f
    ensures f == 0 ==> (r == 0 <==> forall k :: 0 <= k < |hs| ==> hs[k] == 0)
    ensures f == 0 && r > 0 ==> exists k :: 0 <= k < |hs| && hs[k] == r && forall l :: 0 <= l < k ==> hs[l] == 0
    decreases |hs|
  {
    if hs == [] then f
    else
      var r := FirstStartAsWritten(hs[1..], if f == 0 then hs[0] else f);
      assert f == 0 && r > 0 && hs[0] == 0 ==> exists k :: 0 <= k < |hs[1..]| && hs[1..][k] == r && forall l :: 0 <= l < k ==> hs[1..][l] == 0;
      r
  }

  /** `splitChangelog` as written. */
  function SplitAsWritten(s: string, prefix: string, n: nat): SplitResult {
    var hs := Headers(s, prefix);
    var f := FirstStartAsWritten(hs, 0);
    if f == 0 then SplitResult(s, None) else Assemble(s, hs, EntryEnds(s, prefix, hs), f, n)
  }

  /** `splitChangelog` with the first entry's start taken as the first match,
      also when that match is at position 0. */
  function Split(s: string, prefix: string, n: nat): SplitResult {
    var hs := Headers(s, prefix);
    if hs == [] then SplitResult(s, None) else Assemble(s, hs, EntryEnds(s, prefix, hs), hs[0], n)
  }

  // ---------------------------------------------------------------------
  // The first start
  // ---------------------------------------------------------------------

  /** On increasing positions the as-written start is the first position,
      unless that is 0: then it is the second, or 0 when there is none. */
  lemma {:induction false} FirstStartCases(hs: seq<nat>)
    requires Increasing(hs)
    ensures hs == [] ==> FirstStartAsWritten(hs, 0) == 0
    ensures hs != [] && hs[0] > 0 ==> FirstStartAsWritten(hs, 0) == hs[0]
    ensures |hs| >= 2 && hs[0] == 0 ==> FirstStartAsWritten(hs, 0) == hs[1]
    ensures hs == [0] ==> FirstStartAsWritten(hs, 0) == 0
  {
    if |hs| >= 2 && hs[0] == 0 {
      assert hs[1] > 0;
      assert FirstStartAsWritten(hs, 0) == FirstStartAsWritten(hs[1..], 0);
      assert FirstStartAsWritten(hs[1..], 0) == FirstStartAsWritten(hs[2..], hs[1]);
    } else if hs != [] && hs[0] > 0 {
      assert FirstStartAsWritten(hs, 0) == FirstStartAsWritten(hs[1..], hs[0]);
    } else if hs == [0] {
      assert FirstStartAsWritten(hs, 0) == FirstStartAsWritten([], 0);
    }
  }

  /** When the first header is not at the very start, the code as written
      and the corrected split agree. */
  lemma {:induction false} SplitAgrees(s: string, prefix: string, n: nat)
    requires Headers(s, prefix) == [] || Headers(s, prefix)[0] > 0
    ensures SplitAsWritten(s, prefix, n) == Split(s, prefix, n)
  {
    FirstStartCases(Headers(s, prefix));
  }

  /** With a header at the very start and another after it, the code as
      written keeps the text up to the second header and then adds the
      kept entries again, the first one included. */
  lemma {:induction false} SplitAsWrittenRepeats(s: string, prefix: string, n: nat)
    requires var hs := Headers(s, prefix); |hs| >= 2 && hs[0] == 0
    ensures var hs := Headers(s, prefix);
      SplitAsWritten(s, prefix, n).newChangelog == s[..hs[1]] + Split(s, prefix, n).newChangelog
    ensures n >= 1 ==> var e := EntryEnd(s, prefix, 0);
      e <= |Split(s, prefix, n).newChangelog| && Split(s, prefix, n).newChangelog[..e] == s[..e]
  {
    var hs := Headers(s, prefix);
    var ends := EntryEnds(s, prefix, hs);
    FirstStartCases(hs);
    EntrySpans(s, prefix);
    AssembleShift(s, hs, ends, hs[1], n);
    if n >= 1 {
      AssembleLeads(s, hs, ends, n);
      EntryEndsAt(s, prefix, hs, 0);
    }
  }

  /** Starting the new changelog at `first` rather than at 0 puts the text
      before `first` in front. */
  lemma {:induction false} AssembleShift(s: string, hs: seq<nat>, ends: seq<nat>, first: nat, n: nat)
    requires hs != [] && Spans(s, hs, ends) && first <= |s|
    ensures Assemble(s, hs, ends, first, n).newChangelog == s[..first] + Assemble(s, hs, ends, 0, n).newChangelog
  {
    var es := Pieces(s, hs, ends);
    var c := Concat(es[..Min(n, |es|)]);
    var t := s[ends[|hs| - 1]..];
    assert s[..0] == [];
    Seqs.Assoc(s[..first], c, t);
  }

  /** Keeping at least one entry, the new changelog starts with the first. */
  lemma {:induction false} AssembleLeads(s: string, hs: seq<nat>, ends: seq<nat>, n: nat)
    requires hs != [] && Spans(s, hs, ends) && hs[0] == 0 && n >= 1
    ensures var r := Assemble(s, hs, ends, 0, n).newChangelog;
      ends[0] <= |r| && r[..ends[0]] == s[..ends[0]]
  {
    var es := Pieces(s, hs, ends);
    var m := Min(n, |es|);
    var t := s[ends[|hs| - 1]..];
    assert s[..0] == [];
    assert es[..m] == [es[0]] + es[1..m];
    assert Concat(es[..m]) == es[0] + Concat(es[1..m]);
    Seqs.Assoc(es[0], Concat(es[1..m]), t);
    assert es[0] == s[..ends[0]];
  }

  /** With a lone header at the very start the code as written returns the
      changelog unchanged, whatever number of entries is asked for. */
  lemma {:induction false} SplitAsWrittenLone(s: string, prefix: string, n: nat)
    requires Headers(s, prefix) == [0]
    ensures SplitAsWritten(s, prefix, n) == SplitResult(s, None)
  {
    FirstStartCases(Headers(s, prefix));
  }

  /** The corrected split moves a lone entry at the very start into the old
      changelog when no entry is to be kept. */
  lemma {:induction false} SplitLoneMoved(s: string, prefix: string)
    requires Headers(s, prefix) == [0]
    ensures Split(s, prefix, 0).oldChangelog == Some(DropFirst(s[..EntryEnd(s, prefix, 0)]))
  {
    var hs := Headers(s, prefix);
    var ends := EntryEnds(s, prefix, hs);
    EntrySpans(s, prefix);
    AssembleLone(s, hs, ends);
    EntryEndsAt(s, prefix, hs, 0);
  }

  lemma {:induction false} AssembleLone(s: string, hs: seq<nat>, ends: seq<nat>)
    requires hs == [0] && Spans(s, hs, ends)
    ensures Assemble(s, hs, ends, 0, 0).oldChangelog == Some(DropFirst(s[..ends[0]]))
  {
    var es := Pieces(s, hs, ends);
    var e := s[..ends[0]];
    assert es[0] == s[0..ends[0]] == e;
    assert es[0..] == [e];
    assert Promote(es[0..]) == [DropFirst(e)];
    assert Concat([DropFirst(e)]) == DropFirst(e) + Concat([]);
    assert Concat([]) == [];
    assert DropFirst(e) + [] == DropFirst(e);
    assert Concat(Promote(es[0..])) == DropFirst(e);
    assert Assemble(s, hs, ends, 0, 0).oldChangelog == Some(Concat(Promote(es[0..])));
  }

  // ---------------------------------------------------------------------
  // Entries that meet
  // ---------------------------------------------------------------------

  /** The prefix less its first character is a prefix of the prefix, as for
      `##` and `###`: every version header then also starts a headline. */
  predicate Nested(prefix: string) {
    |prefix| >= 1 && prefix[1..] == prefix[..|prefix| - 1]
  }

  /** With a nested prefix an entry never runs past the next header: the
      entries are disjoint and in text order. */
  lemma {:induction false} EntriesDisjoint(s: string, prefix: string, k: nat)
    requires Nested(prefix)
    requires k + 1 < |Headers(s, prefix)|
    ensures var hs := Headers(s, prefix); EntryEnd(s, prefix, hs[k]) <= hs[k + 1]
  {
    var hs := Headers(s, prefix);
    HeaderFound(s, prefix, k + 1);
    var h, h' := hs[k], hs[k + 1];
    HeaderStartsHeadline(s, prefix, h');
    NextHeadlineBefore(s, prefix, h, h');
  }

  lemma {:induction false} NextHeadlineBefore(s: string, prefix: string, h: nat, h': nat)
    requires h < h' <= |s| && LineStart(s, h') && OccursAt(s, DropFirst(prefix), h')
    ensures EntryEnd(s, prefix, h) <= h'
  {
    var e := LineEnd(s, h);
    EntryEndSpec(s, prefix, h);
    assert e < h' by {
      assert IsLineTerminator(s[h' - 1]);
    }
    assert HeadlineAt(s, DropFirst(prefix), e, h');
  }

  lemma {:induction false} HeaderStartsHeadline(s: string, prefix: string, h: nat)
    requires Nested(prefix) && h <= |s| && HeaderAt(s, prefix, h)
    ensures LineStart(s, h) && OccursAt(s, DropFirst(prefix), h)
  {
    var e := LineEnd(s, h);
    var line := s[h..e];
    var mark := prefix + " ";
    var sub := DropFirst(prefix);
    assert line[..|mark|] == mark;
    assert sub == mark[..|sub|];
    SliceOfSlice(s, h, e, |sub|);
  }

  lemma {:induction false} SliceOfSlice<T>(s: seq<T>, a: nat, b: nat, n: nat)
    requires a + n <= b <= |s|
    ensures s[a..b][..n] == s[a..a + n]
  {
  }

  /** Consecutive entries meet: each one ends where the next header starts.
      Text between an entry's end and the next header belongs to no entry. */
  predicate Tiled(hs: seq<nat>, ends: seq<nat>)
    requires |ends| == |hs|
  {
    forall k :: 0 <= k < |hs| - 1 ==> ends[k] == hs[k + 1]
  }

  /** Pieces that meet put back together the text they cover. */
  lemma {:induction false} ConcatTiled(s: string, hs: seq<nat>, ends: seq<nat>, a: nat, b: nat)
    requires Spans(s, hs, ends) && Tiled(hs, ends) && a < b <= |hs|
    ensures hs[a] <= ends[b - 1]
    ensures Concat(Pieces(s, hs, ends)[a..b]) == s[hs[a]..ends[b - 1]]
    decreases b - a
  {
    var es := Pieces(s, hs, ends);
    if a + 1 == b {
      assert es[a..b] == [es[a]];
      assert Concat([es[a]]) == es[a] + Concat([]);
    } else {
      ConcatTiled(s, hs, ends, a + 1, b);
      assert es[a..b] == [es[a]] + es[a + 1..b];
      assert Concat(es[a..b]) == es[a] + Concat(es[a + 1..b]);
      SliceJoin(s, hs[a], hs[a + 1], ends[b - 1]);
    }
  }

  lemma {:induction false} SliceJoin<T>(s: seq<T>, i: nat, j: nat, k: nat)
    requires i <= j <= k <= |s|
    ensures s[i..j] + s[j..k] == s[i..k]
  {
  }

  /** Keeping at least as many pieces as there are, when they meet, gives
      back the text and no old part. */
  lemma {:induction false} AssembleKeepsAll(s: string, hs: seq<nat>, ends: seq<nat>, n: nat)
    requires hs != [] && Spans(s, hs, ends) && Tiled(hs, ends) && n >= |hs|
    ensures Assemble(s, hs, ends, hs[0], n) == SplitResult(s, None)
  {
    var es := Pieces(s, hs, ends);
    ConcatTiled(s, hs, ends, 0, |hs|);
    var lastEnd := ends[|hs| - 1];
    assert es[..Min(n, |es|)] == es[0..|hs|];
    assert s[..hs[0]] + s[hs[0]..lastEnd] + s[lastEnd..] == s;
  }

  /** Keeping fewer pieces than there are, when they meet: the new text is
      the text before piece `n` and after the last piece, and the moved
      pieces cover exactly what lies between. */
  lemma {:induction false} AssembleMoves(s: string, hs: seq<nat>, ends: seq<nat>, n: nat)
    requires Spans(s, hs, ends) && Tiled(hs, ends) && n < |hs|
    ensures var es := Pieces(s, hs, ends); var lastEnd := ends[|hs| - 1];
      hs[n] <= lastEnd &&
      Assemble(s, hs, ends, hs[0], n).newChangelog == s[..hs[n]] + s[lastEnd..] &&
      Concat(es[n..]) == s[hs[n]..lastEnd] &&
      Assemble(s, hs, ends, hs[0], n).oldChangelog == Some(Concat(Promote(es[n..])))
  {
    var es := Pieces(s, hs, ends);
    ConcatTiled(s, hs, ends, n, |hs|);
    assert es[n..] == es[n..|hs|];
    if n > 0 {
      ConcatTiled(s, hs, ends, 0, n);
      assert ends[n - 1] == hs[n];
      assert es[..Min(n, |es|)] == es[0..n];
      SliceJoin(s, 0, hs[0], hs[n]);
    } else {
      assert es[..Min(n, |es|)] == [];
      assert s[..hs[0]] + Concat([]) == s[..hs[0]];
    }
  }

  /** Keeping at least as many entries as there are, when the entries meet,
      gives back the changelog and no old part. */
  lemma {:induction false} SplitKeepsAll(s: string, prefix: string, n: nat)
    requires var hs := Headers(s, prefix); Tiled(hs, EntryEnds(s, prefix, hs)) && n >= |hs|
    ensures Split(s, prefix, n) == SplitResult(s, None)
  {
    var hs := Headers(s, prefix);
    if hs != [] {
      EntrySpans(s, prefix);
      AssembleKeepsAll(s, hs, EntryEnds(s, prefix, hs), n);
    }
  }

  /** Keeping fewer entries than there are, when the entries meet: the new
      changelog is the text before entry `n` and after the last entry, the
      moved entries are exactly the text between, and the old changelog is
      the moved entries, each less its first character. */
  lemma {:induction false} SplitMoves(s: string, prefix: string, n: nat, hs: seq<nat>, ends: seq<nat>)
    requires hs == Headers(s, prefix) && ends == EntryEnds(s, prefix, hs)
    requires Tiled(hs, ends) && n < |hs|
    ensures Spans(s, hs, ends) && hs[n] <= ends[|hs| - 1]
    ensures Split(s, prefix, n).newChangelog == s[..hs[n]] + s[ends[|hs| - 1]..]
    ensures Concat(Pieces(s, hs, ends)[n..]) == s[hs[n]..ends[|hs| - 1]]
    ensures Split(s, prefix, n).oldChangelog == Some(Concat(Promote(Pieces(s, hs, ends)[n..])))
  {
    EntrySpans(s, prefix);
    AssembleMoves(s, hs, ends, n);
  }

  /** Every entry starts with the first character of the prefix, so the
      character an old entry loses is always that one: the old changelog
      is the moved entries with their headings raised by one level. */
  lemma {:induction false} EntryLeadChar(s: string, prefix: string, k: nat, hs: seq<nat>, ends: seq<nat>)
    requires hs == Headers(s, prefix) && ends == EntryEnds(s, prefix, hs) && k < |hs|
    ensures Spans(s, hs, ends)
    ensures Pieces(s, hs, ends)[k] == [(prefix + " ")[0]] + DropFirst(Pieces(s, hs, ends)[k])
  {
    EntrySpans(s, prefix);
    HeaderFound(s, prefix, k);
    HeaderFirstChar(s, prefix, hs[k]);
    EntryEndsAt(s, prefix, hs, k);
  }

  /** Every position the loop visits is a header. */
  lemma {:induction false} HeaderFound(s: string, prefix: string, k: nat)
    requires k < |Headers(s, prefix)|
    ensures HeaderAt(s, prefix, Headers(s, prefix)[k])
  {
    HeadersFromSpec(s, prefix, 0);
  }

  lemma {:induction false} HeaderFirstChar(s: string, prefix: string, h: nat)
    requires h <= |s| && HeaderAt(s, prefix, h)
    ensures h < LineEnd(s, h) <= EntryEnd(s, prefix, h) && s[h] == (prefix + " ")[0]
  {
    EntryEndSpec(s, prefix, h);
    var line := s[h..LineEnd(s, h)];
    assert line[0] == (prefix + " ")[0];
  }

  /** A concrete input for the repeated entry: two headers, the first at the
      very start of the text. */
  lemma {:induction false} RepeatedEntryExample()
    ensures SplitAsWritten(Example(), "##", 5).newChangelog == "## 1.0.1\n## 1.0.1\n## 1.0.0"
    ensures Split(Example(), "##", 5).newChangelog == Example()
  {
    ExampleAsWritten();
    ExampleCorrected();
    ExampleAssembled();
  }

  lemma {:induction false} ExampleAsWritten()
    ensures Spans(Example(), [0, 9], [9, 17])
    ensures SplitAsWritten(Example(), "##", 5) == Assemble(Example(), [0, 9], [9, 17], 9, 5)
  {
    ExampleHeaders();
    ExampleEnds();
    FirstStartCases([0, 9]);
  }

  lemma {:induction false} ExampleCorrected()
    ensures Spans(Example(), [0, 9], [9, 17])
    ensures Split(Example(), "##", 5) == Assemble(Example(), [0, 9], [9, 17], 0, 5)
  {
    ExampleHeaders();
    ExampleEnds();
  }

  lemma {:induction false} ExampleAssembled()
    ensures Spans(Example(), [0, 9], [9, 17])
    ensures Assemble(Example(), [0, 9], [9, 17], 9, 5).newChangelog == "## 1.0.1\n## 1.0.1\n## 1.0.0"
    ensures Assemble(Example(), [0, 9], [9, 17], 0, 5).newChangelog == Example()
  {
    var s := Example();
    AssembleKeepsAll(s, [0, 9], [9, 17], 5);
    AssembleShift(s, [0, 9], [9, 17], 9, 5);
    assert s[..9] + s == "## 1.0.1\n## 1.0.1\n## 1.0.0";
  }

  function Example(): string {
    "## 1.0.1\n## 1.0.0"
  }

  lemma {:induction false} ExampleHeaders()
    ensures Headers(Example(), "##") == [0, 9]
  {
    var s := Example();
    ExampleLine0();
    ExampleSecondHeader();
    SkipNonStarts(s, "##", 1, 9);
    assert HeadersFrom(s, "##", 0) == [0] + HeadersFrom(s, "##", 1);
  }

  lemma {:induction false} ExampleSecondHeader()
    ensures HeadersFrom(Example(), "##", 9) == [9]
  {
    var s := Example();
    ExampleLine9();
    assert HeadersFrom(s, "##", 17) == [];
    SkipNonStarts(s, "##", 10, 17);
    assert HeadersFrom(s, "##", 9) == [9] + HeadersFrom(s, "##", 10);
  }

  lemma {:induction false} ExampleLines()
    ensures HeaderAt(Example(), "##", 0) && HeaderAt(Example(), "##", 9)
  {
    ExampleLine0();
    ExampleLine9();
  }

  lemma {:induction false} ExampleLine0()
    ensures HeaderAt(Example(), "##", 0)
  {
    var s := Example();
    LineEndAt(s, 0, 8);
    assert s[0..8] == "## 1.0." + ['1'];
    VersionLine(s[0..8], '1');
  }

  lemma {:induction false} ExampleLine9()
    ensures HeaderAt(Example(), "##", 9)
  {
    var s := Example();
    LineEndAt(s, 9, 17);
    assert s[9..17] == "## 1.0." + ['0'];
    VersionLine(s[9..17], '0');
  }

  /** The end of the line is where the first terminator, or the text, ends it. */
  lemma {:induction false} LineEndAt(s: string, i: nat, e: nat)
    requires i <= e <= |s|
    requires forall k :: i <= k < e ==> !IsLineTerminator(s[k])
    requires e == |s| || IsLineTerminator(s[e])
    ensures LineEnd(s, i) == e
  {
  }

  lemma {:induction false} VersionLine(line: string, c: char)
    requires IsDigit(c) && line == "## 1.0." + [c]
    ensures IsHeader(line, "##")
  {
    var t := line[3..];
    assert t == "1.0." + [c];
    assert Run(t, IsDigit) == 1 by {
      assert t[1..] == ".0." + [c];
    }
    var u := t[2..];
    assert u == "0." + [c];
    assert Run(u, IsDigit) == 1 by {
      assert u[1..] == "." + [c];
    }
    assert u[2..] == [c];
  }

  /** Positions that are not line starts add no header. */
  lemma {:induction false} SkipNonStarts(s: string, prefix: string, i: nat, j: nat)
    requires 0 < i <= j <= |s|
    requires forall k :: i - 1 <= k < j - 1 ==> !IsLineTerminator(s[k])
    ensures HeadersFrom(s, prefix, i) == HeadersFrom(s, prefix, j)
    decreases j - i
  {
    if i < j {
      assert !LineStart(s, i);
      SkipNonStarts(s, prefix, i + 1, j);
    }
  }

  lemma {:induction false} ExampleEnds()
    ensures EntryEnds(Example(), "##", [0, 9]) == [9, 17]
  {
    ExampleEnd0();
    ExampleEnd9();
    EntryEndsAt(Example(), "##", [0, 9], 0);
    EntryEndsAt(Example(), "##", [0, 9], 1);
  }

  lemma {:induction false} ExampleEnd0()
    ensures EntryEnd(Example(), "##", 0) == 9
  {
    var s := Example();
    LineEndAt(s, 0, 8);
    assert !HeadlineAt(s, "#", 8, 8);
    assert HeadlineAt(s, "#", 8, 9);
  }

  lemma {:induction false} ExampleEnd9()
    ensures EntryEnd(Example(), "##", 9) == 17
  {
    LineEndAt(Example(), 9, 17);
  }
}
