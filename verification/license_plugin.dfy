/** The license plugin (packages/plugin-license/src/index.ts): in the check
    stage it finds the copyright notices of each license file and reports
    the file when even its latest notice names a year before the current
    one. The file list the globs expand to, the files' contents and the
    current year are parameters. */
module LicensePlugin {
  import opened Wrappers
  import opened Text
  import opened Stages
  import opened ReleaseScript

  /** `stages`: the check stage only. */
  function PluginStages(): (r: seq<Stage>)
    ensures |r| == 1 && r[0].id == "check"
  {
    [Default("check")]
  }

  /** The default of `--license`. */
  const DefaultGlobs: seq<string> := ["{LICENSE,README}{,.md}"]

  // ---------------------------------------------------------------------
  // The pattern
  //   /copyright\s*(\(c\))?\s*(?<range>(?:\d{4}\s*-\s*)?(?<current>\d{4}))/gi
  // ---------------------------------------------------------------------

  /** Case folding under the `i` flag without `u`: a character matches the
      lower-case letter `l` of the pattern when it is `l` or its ASCII
      capital; no other character folds onto an ASCII letter. */
  predicate FoldsTo(c: char, l: char)
    requires 'a' <= l <= 'z'
  {
    c == l || c as int == l as int - 32
  }

  const Keyword: string := "copyright"

  /** `copyright` in any case at `k`. */
  predicate KeywordAt(s: string, k: nat) {
    k + |Keyword| <= |s| &&
    FoldsTo(s[k], 'c') && FoldsTo(s[k + 1], 'o') && FoldsTo(s[k + 2], 'p') &&
    FoldsTo(s[k + 3], 'y') && FoldsTo(s[k + 4], 'r') && FoldsTo(s[k + 5], 'i') &&
    FoldsTo(s[k + 6], 'g') && FoldsTo(s[k + 7], 'h') && FoldsTo(s[k + 8], 't')
  }

  /** `Copyright`, as the tests write it, is the keyword. */
  lemma {:induction false} CopyrightAt(s: string, k: nat)
    requires k + 9 <= |s| && s[k..k + 9] == "Copyright"
    ensures KeywordAt(s, k)
  {
    forall j | 0 <= j < 9 ensures s[k + j] == "Copyright"[j] {
      assert s[k + j] == s[k..k + 9][j];
    }
  }

  /** `\s*` from `i`: the position after the white space there. */
  function SkipSpace(s: string, i: nat): (j: nat)
    requires i <= |s|
    ensures i <= j <= |s| && (j == |s| || !IsSpace(s[j]))
    decreases |s| - i
  {
    if i < |s| && IsSpace(s[i]) then SkipSpace(s, i + 1) else i
  }

  /** Everything `SkipSpace` passes over is white space, so it stops at the
      first character that is not. */
  lemma {:induction false} SkippedSpace(s: string, i: nat)
    requires i <= |s|
    ensures forall k :: i <= k < SkipSpace(s, i) ==> IsSpace(s[k])
    decreases |s| - i
  {
    if i < |s| && IsSpace(s[i]) {
      SkippedSpace(s, i + 1);
    }
  }

  /** `(\(c\))?`: `(c)` or `(C)` at `i` is taken, otherwise nothing. */
  predicate MarkAt(s: string, i: nat) {
    i + 3 <= |s| && s[i] == '(' && FoldsTo(s[i + 1], 'c') && s[i + 2] == ')'
  }

  /** `\d{4}` at `i`. */
  predicate YearAt(s: string, i: nat) {
    i + 4 <= |s| && IsDigit(s[i]) && IsDigit(s[i + 1]) && IsDigit(s[i + 2]) && IsDigit(s[i + 3])
  }

  /** `parseInt` of the four digits at `i`. */
  function YearValue(s: string, i: nat): (n: nat)
    requires YearAt(s, i)
    ensures n <= 9999
  {
    DigitValue(s[i]) * 1000 + DigitValue(s[i + 1]) * 100 + DigitValue(s[i + 2]) * 10 + DigitValue(s[i + 3])
  }

  /** It is the decimal reading of those digits. */
  lemma {:induction false} YearValueDecimal(s: string, i: nat)
    requires YearAt(s, i)
    ensures AllDigits(s[i..i + 4]) && YearValue(s, i) == DigitsValue(s[i..i + 4])
  {
    var y := s[i..i + 4];
    assert AllDigits(y);
    assert DigitsValue(y[..1]) == DigitValue(y[0]) by {
      assert y[..1][..0] == [];
    }
    assert DigitsValue(y[..2]) == DigitsValue(y[..1]) * 10 + DigitValue(y[1]) by {
      assert y[..2][..1] == y[..1];
    }
    assert DigitsValue(y[..3]) == DigitsValue(y[..2]) * 10 + DigitValue(y[2]) by {
      assert y[..3][..2] == y[..2];
    }
    assert DigitsValue(y) == DigitsValue(y[..3]) * 10 + DigitValue(y[3]);
  }

  /** A match: where it starts and ends, the text of the `range` group and
      the value of the `current` group under `parseInt`. */
  datatype Match = Match(start: nat, end: nat, range: string, current: nat)

  /** Where the digits of a notice must start: after the keyword, white
      space, an optional `(c)` and white space. Neither `(` nor a digit is
      white space, so backtracking over the two `\s*` or the optional mark
      never reaches any other position. */
  function DigitsFrom(s: string, k: nat): (p: nat)
    requires KeywordAt(s, k)
    ensures k + |Keyword| <= p <= |s|
  {
    var a := SkipSpace(s, k + |Keyword|);
    SkipSpace(s, if MarkAt(s, a) then a + 3 else a)
  }

  /** The pattern at `k`, as the regular expression engine reads it. The
      optional `\d{4}\s*-\s*` is tried first, and when no second year
      follows the hyphen the engine backtracks to a range of one year. */
  function MatchAt(s: string, k: nat): (r: Option<Match>)
    requires k <= |s|
    ensures r.Some? ==> r.value.start == k && k + |Keyword| + 4 <= r.value.end <= |s|
  {
    if !KeywordAt(s, k) then None
    else
      var p := DigitsFrom(s, k);
      if !YearAt(s, p) then None
      else
        var e := RangeEnd(s, p);
        Some(Match(k, e, s[p..e], YearValue(s, e - 4)))
  }

  /** The end of the `range` group that starts with the year at `p`: after
      a second year when a hyphen, with white space allowed around it,
      leads to one, and after the first year otherwise. */
  function RangeEnd(s: string, p: nat): (e: nat)
    requires YearAt(s, p)
    ensures p + 4 <= e <= |s| && YearAt(s, e - 4)
    ensures e == p + 4 || (e >= p + 9 && SkipSpace(s, p + 4) < e - 4 && s[SkipSpace(s, p + 4)] == '-')
  {
    var q := SkipSpace(s, p + 4);
    if q < |s| && s[q] == '-' && YearAt(s, SkipSpace(s, q + 1)) then SkipSpace(s, q + 1) + 4
    else p + 4
  }

  /** A match found at `k` has the shape of the pattern: the keyword at
      `k`, `current` read from the four digits that end it, and a range of
      those four digits alone or of a first year, a hyphen and that second
      year. */
  lemma {:induction false} MatchAtShape(s: string, k: nat)
    requires k <= |s| && MatchAt(s, k).Some?
    ensures var m := MatchAt(s, k).value;
      KeywordAt(s, k) && YearAt(s, m.end - 4) && m.current == YearValue(s, m.end - 4) &&
      |m.range| <= m.end - k - |Keyword| && m.range == s[m.end - |m.range|..m.end] &&
      (|m.range| == 4 || (|m.range| >= 9 && YearAt(m.range, 0) && '-' in m.range))
  {
    var p := DigitsFrom(s, k);
    var e := RangeEnd(s, p);
    assert MatchAt(s, k).value == Match(k, e, s[p..e], YearValue(s, e - 4));
    if e != p + 4 {
      RangeShape(s, p, SkipSpace(s, p + 4), e);
    }
  }

  /** A range of two years: it starts with the first and holds the hyphen. */
  lemma {:induction false} RangeShape(s: string, p: nat, q: nat, e: nat)
    requires YearAt(s, p) && p + 4 <= q && q + 5 <= e <= |s| && s[q] == '-'
    ensures |s[p..e]| >= 9 && YearAt(s[p..e], 0) && '-' in s[p..e]
  {
    assert s[p..e][0..4] == s[p..p + 4];
    assert s[p..e][q - p] == '-';
  }

  /** Exactly when the keyword is followed, past white space and an
      optional `(c)`, by four digits does the pattern match at `k`. */
  lemma {:induction false} MatchAtIff(s: string, k: nat)
    requires k <= |s|
    ensures MatchAt(s, k).Some? <==> KeywordAt(s, k) && YearAt(s, DigitsFrom(s, k))
  {
  }

  /** `regex.exec(s)` with `lastIndex == from`: the leftmost match at or
      after `from`. */
  function NextMatch(s: string, from: nat): (r: Option<Match>)
    requires from <= |s|
    ensures r.Some? ==> from <= r.value.start <= |s| && MatchAt(s, r.value.start) == r
    decreases |s| - from
  {
    var here := MatchAt(s, from);
    if here.Some? then here
    else if from == |s| then None
    else NextMatch(s, from + 1)
  }

  /** The match found is the leftmost one: the pattern matches nowhere
      between `from` and it, and nowhere at all when none is found. */
  lemma {:induction false} NextMatchLeftmost(s: string, from: nat, k: nat)
    requires from <= k <= |s| && MatchAt(s, k).Some?
    ensures NextMatch(s, from).Some? && NextMatch(s, from).value.start <= k
    decreases |s| - from
  {
    if MatchAt(s, from).None? {
      NextMatchLeftmost(s, from + 1, k);
    }
  }

  /** The `while` loop over `regex.exec`: every match, each search
      starting where the previous match ended, so that they come in order
      and never overlap. */
  function Matches(s: string, from: nat): (r: seq<Match>)
    requires from <= |s|
    ensures forall i :: 0 <= i < |r| ==> from <= r[i].start < r[i].end <= |s|
    ensures forall i :: 0 <= i < |r| - 1 ==> r[i].end <= r[i + 1].start
    decreases |s| - from
  {
    match NextMatch(s, from)
    case None => []
    case Some(m) => [m] + Matches(s, m.end)
  }

  /** Each of them is what the pattern matches at its start. */
  lemma {:induction false} MatchesFound(s: string, from: nat, i: nat)
    requires from <= |s| && i < |Matches(s, from)|
    ensures MatchAt(s, Matches(s, from)[i].start) == Some(Matches(s, from)[i])
    decreases |s| - from
  {
    var m := NextMatch(s, from).value;
    if i > 0 {
      MatchesFound(s, m.end, i - 1);
    }
  }

  /** Position `k` lies within one of the matches. */
  ghost predicate Covered(ms: seq<Match>, k: nat) {
    exists i :: 0 <= i < |ms| && ms[i].start <= k < ms[i].end
  }

  lemma {:induction false} CoveredCons(m: Match, rest: seq<Match>, k: nat)
    requires m.start <= k < m.end || Covered(rest, k)
    ensures Covered([m] + rest, k)
  {
    if m.start <= k < m.end {
      assert ([m] + rest)[0] == m;
    } else {
      var i :| 0 <= i < |rest| && rest[i].start <= k < rest[i].end;
      assert ([m] + rest)[i + 1] == rest[i];
    }
  }

  /** No match is skipped: every position where the pattern matches lies
      within one of the matches found, at its start or inside it. */
  lemma {:induction false} MatchesComplete(s: string, from: nat, k: nat)
    requires from <= k <= |s| && MatchAt(s, k).Some?
    ensures Covered(Matches(s, from), k)
    decreases |s| - from
  {
    NextMatchLeftmost(s, from, k);
    var m := NextMatch(s, from).value;
    var rest := Matches(s, m.end);
    assert Matches(s, from) == [m] + rest;
    if k >= m.end {
      MatchesComplete(s, m.end, k);
    }
    CoveredCons(m, rest, k);
  }

  // ---------------------------------------------------------------------
  // The latest notice
  // ---------------------------------------------------------------------

  /** The loop keeping `latest`: the first match, replaced by a later one
      only when its year is strictly greater. */
  function LatestFrom(ms: seq<Match>, acc: Option<Match>): (r: Option<Match>)
    ensures r.Some? <==> (acc.Some? || ms != [])
    decreases |ms|
  {
    if ms == [] then acc
    else LatestFrom(ms[1..], if acc.None? || ms[0].current > acc.value.current then Some(ms[0]) else acc)
  }

  function Latest(ms: seq<Match>): Option<Match> {
    LatestFrom(ms, None)
  }

  /** The latest notice is the first of those with the greatest year. */
  lemma {:induction false} LatestSpec(ms: seq<Match>)
    requires ms != []
    ensures Latest(ms).Some?
    ensures exists i :: (0 <= i < |ms| && Latest(ms) == Some(ms[i]) &&
      (forall j :: 0 <= j < |ms| ==> ms[j].current <= ms[i].current) &&
      (forall j :: 0 <= j < i ==> ms[j].current < ms[i].current))
  {
    LatestFromSpec(ms, 0, 0);
  }

  /** The loop after its first `n + 1` rounds, with `best` kept so far. */
  lemma {:induction false} LatestFromSpec(ms: seq<Match>, i: nat, n: nat)
    requires i < |ms| && n <= i
    requires forall j :: 0 <= j <= i ==> ms[j].current <= ms[n].current
    requires forall j :: 0 <= j < n ==> ms[j].current < ms[n].current
    ensures exists b :: (n <= b < |ms| && LatestFrom(ms[i + 1..], Some(ms[n])) == Some(ms[b]) &&
      (forall j :: 0 <= j < |ms| ==> ms[j].current <= ms[b].current) &&
      (forall j :: 0 <= j < b ==> ms[j].current < ms[b].current))
    decreases |ms| - i
  {
    if i + 1 == |ms| {
      assert ms[i + 1..] == [];
    } else {
      var t := ms[i + 1..];
      assert t[0] == ms[i + 1] && t[1..] == ms[i + 2..];
      if ms[i + 1].current > ms[n].current {
        LatestFromSpec(ms, i + 1, i + 1);
      } else {
        LatestFromSpec(ms, i + 1, n);
      }
    }
  }

  // ---------------------------------------------------------------------
  // The notice forms of the package's tests
  // ---------------------------------------------------------------------

  /** `\s*` over a single white-space character. */
  lemma {:induction false} SkipOne(s: string, i: nat)
    requires i < |s| && IsSpace(s[i]) && (i + 1 == |s| || !IsSpace(s[i + 1]))
    ensures SkipSpace(s, i) == i + 1
  {
    assert SkipSpace(s, i + 1) == i + 1;
  }

  lemma {:induction false} SkipNone(s: string, i: nat)
    requires i <= |s| && (i == |s| || !IsSpace(s[i]))
    ensures SkipSpace(s, i) == i
  {
  }

  predicate FourDigits(y: string) {
    |y| == 4 && YearAt(y, 0)
  }

  /** `Copyright ` at `k`, not followed by white space or a mark: the
      digits must start right after it. */
  lemma {:induction false} PlainDigits(s: string, k: nat)
    requires k + 11 <= |s| && s[k..k + 10] == "Copyright " && !IsSpace(s[k + 10]) && s[k + 10] != '('
    ensures KeywordAt(s, k) && DigitsFrom(s, k) == k + 10
  {
    assert s[k..k + 9] == s[k..k + 10][..9] == "Copyright";
    CopyrightAt(s, k);
    assert s[k + 9] == s[k..k + 10][9];
    SkipOne(s, k + 9);
    SkipNone(s, k + 10);
  }

  /** `Copyright (C) ` at `k`: the mark is skipped. */
  lemma {:induction false} MarkedDigits(s: string, k: nat)
    requires k + 15 <= |s| && s[k..k + 14] == "Copyright (C) " && !IsSpace(s[k + 14])
    ensures KeywordAt(s, k) && DigitsFrom(s, k) == k + 14
  {
    assert s[k..k + 9] == s[k..k + 14][..9] == "Copyright";
    CopyrightAt(s, k);
    forall j | 9 <= j < 14 ensures s[k + j] == "Copyright (C) "[j] {
      assert s[k + j] == s[k..k + 14][j];
    }
    SkipOne(s, k + 9);
    assert MarkAt(s, k + 10);
    SkipOne(s, k + 13);
  }

  /** The pattern's second alternative, once the positions are known. */
  lemma {:induction false} TwoYears(s: string, k: nat, p: nat, q: nat, r: nat)
    requires KeywordAt(s, k) && DigitsFrom(s, k) == p && YearAt(s, p)
    requires p + 4 <= |s| && SkipSpace(s, p + 4) == q && q < |s| && s[q] == '-'
    requires SkipSpace(s, q + 1) == r && YearAt(s, r)
    ensures MatchAt(s, k) == Some(Match(k, r + 4, s[p..r + 4], YearValue(s, r)))
  {
    assert RangeEnd(s, p) == r + 4;
  }

  /** Four digits read off a slice are a year there. */
  lemma {:induction false} YearIn(s: string, i: nat, a: string)
    requires FourDigits(a) && i + 4 <= |s| && s[i..i + 4] == a
    ensures YearAt(s, i) && YearValue(s, i) == YearValue(a, 0)
  {
    assert s[i] == a[0] && s[i + 1] == a[1] && s[i + 2] == a[2] && s[i + 3] == a[3];
  }

  /** `Copyright 2018-2020`: the range runs from the first year to the end
      of the second, and the current year is the second. */
  lemma {:induction false} HyphenRange(s: string, k: nat, a: string, b: string)
    requires FourDigits(a) && FourDigits(b) && k + 19 <= |s|
    requires s[k..k + 10] == "Copyright " && s[k + 10..k + 14] == a && s[k + 14] == '-' && s[k + 15..k + 19] == b
    ensures MatchAt(s, k) == Some(Match(k, k + 19, s[k + 10..k + 19], YearValue(b, 0)))
  {
    assert s[k + 10] == a[0] && s[k + 15] == b[0] by {
      assert s[k + 10] == s[k + 10..k + 14][0] && s[k + 15] == s[k + 15..k + 19][0];
    }
    PlainDigits(s, k);
    YearIn(s, k + 10, a);
    YearIn(s, k + 15, b);
    SkipNone(s, k + 14);
    SkipNone(s, k + 15);
    TwoYears(s, k, k + 10, k + 14, k + 15);
  }

  /** `Copyright (C) 2018 - 2019`: the mark is skipped, and the range keeps
      the white space around the hyphen. */
  lemma {:induction false} MarkedRange(s: string, k: nat, a: string, b: string)
    requires FourDigits(a) && FourDigits(b) && k + 25 <= |s|
    requires s[k..k + 14] == "Copyright (C) " && s[k + 14..k + 18] == a && s[k + 18..k + 21] == " - " && s[k + 21..k + 25] == b
    ensures MatchAt(s, k) == Some(Match(k, k + 25, s[k + 14..k + 25], YearValue(b, 0)))
  {
    assert s[k + 14] == a[0] && s[k + 21] == b[0] by {
      assert s[k + 14] == s[k + 14..k + 18][0] && s[k + 21] == s[k + 21..k + 25][0];
    }
    assert s[k + 18] == ' ' && s[k + 19] == '-' && s[k + 20] == ' ' by {
      var t := s[k + 18..k + 21];
      assert s[k + 18] == t[0] && s[k + 19] == t[1] && s[k + 20] == t[2];
    }
    MarkedDigits(s, k);
    YearIn(s, k + 14, a);
    YearIn(s, k + 21, b);
    SkipOne(s, k + 18);
    SkipOne(s, k + 20);
    TwoYears(s, k, k + 14, k + 19, k + 21);
  }

  /** `Copyright 2018 me@is-cool.de`: a single year, when neither white
      space nor a hyphen follows it. */
  lemma {:induction false} SingleYear(s: string, k: nat, a: string)
    requires FourDigits(a) && k + 14 <= |s|
    requires s[k..k + 10] == "Copyright " && s[k + 10..k + 14] == a
    requires k + 14 == |s| || (!IsSpace(s[k + 14]) && s[k + 14] != '-')
    ensures MatchAt(s, k) == Some(Match(k, k + 14, a, YearValue(a, 0)))
  {
    assert s[k + 10] == a[0] by {
      assert s[k + 10] == s[k + 10..k + 14][0];
    }
    PlainDigits(s, k);
    YearIn(s, k + 10, a);
    SkipNone(s, k + 14);
    assert RangeEnd(s, k + 10) == k + 14;
  }

  // ---------------------------------------------------------------------
  // executeStage
  // ---------------------------------------------------------------------

  function OutdatedMessage(file: string, range: string): string {
    "File \"" + file + "\" contains an outdated copyright year: " + range
  }

  /** One license file; `content` is `None` when it does not exist. The
      latest notice decides, and a file without notices passes. */
  function CheckFile(c: Context, file: string, content: Option<string>, currentYear: int): (r: Context)
    ensures r.data == c.data && r.warnings == c.warnings && r.logs == c.logs
    ensures r.errors == c.errors || |r.errors| == |c.errors| + 1
    ensures content.None? ==> r == c
  {
    match content
    case None => c
    case Some(text) =>
      match Latest(Matches(text, 0))
      case None => c
      case Some(latest) =>
        if latest.current < currentYear then Error(c, OutdatedMessage(file, latest.range)) else c
  }

  /** A file is reported exactly when it has a notice and every notice in
      it names a year before the current one; the range reported is that
      of the first notice with the greatest year. */
  lemma {:induction false} OutdatedIff(c: Context, file: string, text: string, currentYear: int)
    ensures var ms := Matches(text, 0);
      CheckFile(c, file, Some(text), currentYear).errors != c.errors <==>
        (ms != [] && forall i :: 0 <= i < |ms| ==> ms[i].current < currentYear)
    ensures var ms := Matches(text, 0);
      CheckFile(c, file, Some(text), currentYear).errors != c.errors ==>
        exists i :: (0 <= i < |ms| && CheckFile(c, file, Some(text), currentYear).errors ==
          c.errors + [OutdatedMessage(file, ms[i].range)] &&
          (forall j :: 0 <= j < |ms| ==> ms[j].current <= ms[i].current) &&
          (forall j :: 0 <= j < i ==> ms[j].current < ms[i].current))
  {
    var ms := Matches(text, 0);
    if ms != [] {
      LatestSpec(ms);
    }
  }

  /** The loop over the files, in the order the globs listed them; a file
      listed twice is checked twice. */
  function CheckFiles(c: Context, files: seq<(string, Option<string>)>, currentYear: int): (r: Context)
    ensures r.data == c.data && r.warnings == c.warnings && r.logs == c.logs
    ensures |c.errors| <= |r.errors| <= |c.errors| + |files| && r.errors[..|c.errors|] == c.errors
    decreases |files|
  {
    if files == [] then c
    else
      var c1 := CheckFile(c, files[0].0, files[0].1, currentYear);
      var r := CheckFiles(c1, files[1..], currentYear);
      assert r.errors[..|c.errors|] == r.errors[..|c1.errors|][..|c.errors|];
      r
  }

  /** Whether a file's notices are all outdated, read off the notices
      themselves. */
  predicate Outdated(content: Option<string>, currentYear: int) {
    content.Some? && Matches(content.value, 0) != [] &&
    forall i :: 0 <= i < |Matches(content.value, 0)| ==> Matches(content.value, 0)[i].current < currentYear
  }

  /** How many of the files are outdated. */
  function OutdatedCount(files: seq<(string, Option<string>)>, currentYear: int): (n: nat)
    ensures n <= |files|
    decreases |files|
  {
    if files == [] then 0
    else (if Outdated(files[0].1, currentYear) then 1 else 0) + OutdatedCount(files[1..], currentYear)
  }

  /** The check reports one error per outdated file and nothing else. */
  lemma {:induction false} OneErrorPerOutdatedFile(c: Context, files: seq<(string, Option<string>)>, currentYear: int)
    ensures |CheckFiles(c, files, currentYear).errors| == |c.errors| + OutdatedCount(files, currentYear)
    decreases |files|
  {
    if files != [] {
      var c1 := CheckFile(c, files[0].0, files[0].1, currentYear);
      if files[0].1.Some? {
        OutdatedIff(c, files[0].0, files[0].1.value, currentYear);
      }
      OneErrorPerOutdatedFile(c1, files[1..], currentYear);
    }
  }

  /** `executeStage`: only the check stage does anything. */
  function ExecuteStage(c: Context, stageId: string, files: seq<(string, Option<string>)>, currentYear: int): (r: Step)
    ensures r.Success?
    ensures stageId != "check" ==> r.value == Outcome(c, [])
    ensures r.value.effects == [] && r.value.context.data == c.data && r.value.context.warnings == c.warnings
  {
    if stageId == "check" then Success(Outcome(CheckFiles(c, files, currentYear), []))
    else Success(Outcome(c, []))
  }
}
