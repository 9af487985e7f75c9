/** The git status classifier of src/gitStatus.ts and its copy in
    packages/plugin-git/src/index.ts. The output of `git rev-list
    --left-right --count HEAD...<upstream>` and of `git status --porcelain`
    are parameters; running git is not modelled. */
module GitStatus {
  import opened Wrappers
  import opened Text

  /** `type GitStatus`. */
  datatype Status = Diverged | Uncommitted | Behind | Ahead | UpToDate

  /** A commit count as `Number` makes it from a field of the rev-list
      output: an integer, `NaN`, or `undefined` when the output has no such
      field. */
  datatype Count = Int(value: int) | NaN | Undefined

  /** `Number(text)` for the forms rev-list can print: white space around an
      optionally signed run of decimal digits, or nothing at all (which is
      0). */
  function ToNumber(text: string): (r: Count)
    ensures r != Undefined
    ensures AllDigits(Trim(text)) ==> r == Int(DigitsValue(Trim(text)))
  {
    var t := Trim(text);
    if AllDigits(t) then Int(DigitsValue(t))
    else if |t| >= 2 && (t[0] == '-' || t[0] == '+') && AllDigits(t[1..]) then
      Int(if t[0] == '-' then -(DigitsValue(t[1..]) as int) else DigitsValue(t[1..]))
    else NaN
  }

  /** `output.split("\t", 2).map(Number)` read as `[localDiff, remoteDiff]`. */
  function ParseFields(output: string): (r: (Count, Count))
    ensures r.0 != Undefined
    ensures r.1 == Undefined <==> '\t' !in output
  {
    var fields := Split(output, '\t');
    SplitOne(output, '\t');
    (ToNumber(fields[0]), if |fields| >= 2 then ToNumber(fields[1]) else Undefined)
  }

  /** A split yields more than one piece exactly when the separator occurs. */
  lemma {:induction false} SplitOne(s: string, c: char)
    ensures |Split(s, c)| >= 2 <==> c in s
  {
  }

  /** `getCommitDifferences` of src/gitStatus.ts: the output is trimmed
      before it is split. */
  function CommitDifferences(output: string): (Count, Count) {
    ParseFields(Trim(output))
  }

  /** `x > 0` in JavaScript. */
  predicate Positive(x: Count) {
    x.Int? && x.value > 0
  }

  /** `x === 0` in JavaScript. */
  predicate IsZero(x: Count) {
    x == Int(0)
  }

  /** The uncommitted-changes probe runs only when the counts say neither
      diverged nor behind. */
  predicate NeedsProbe(local: Count, remote: Count) {
    !(Positive(local) && Positive(remote)) && !(IsZero(local) && Positive(remote))
  }

  /** The decision of `gitStatus` once the counts are known, given the
      answer the uncommitted-changes probe would give. */
  function Classify(local: Count, remote: Count, uncommitted: bool): (s: Status)
    ensures s == Diverged <==> Positive(local) && Positive(remote)
    ensures s == Behind <==> IsZero(local) && Positive(remote)
    ensures s == Uncommitted <==> NeedsProbe(local, remote) && uncommitted
    ensures s == UpToDate <==> NeedsProbe(local, remote) && !uncommitted && IsZero(local)
    ensures s == Ahead <==> NeedsProbe(local, remote) && !uncommitted && !IsZero(local)
  {
    if Positive(local) && Positive(remote) then Diverged
    else if IsZero(local) && Positive(remote) then Behind
    else if uncommitted then Uncommitted
    else if IsZero(local) then UpToDate
    else Ahead
  }

  /** The probe's answer can only matter when it is run. */
  lemma {:induction false} ProbeOnlyWhenNeeded(local: Count, remote: Count, u1: bool, u2: bool)
    ensures Classify(local, remote, u1) != Classify(local, remote, u2) ==> NeedsProbe(local, remote)
    ensures !NeedsProbe(local, remote) ==> Classify(local, remote, u1) in {Diverged, Behind}
  {
  }

  /** For the counts git prints, which are never negative, the status
      reads: diverged when both sides have commits, behind when only the
      remote has, and otherwise the remote has none; then uncommitted
      changes win, and the local count tells ahead from up to date. */
  lemma {:induction false} CountsTable(l: nat, r: nat, uncommitted: bool)
    ensures var s := Classify(Int(l), Int(r), uncommitted);
      (s == Diverged <==> l > 0 && r > 0) &&
      (s == Behind <==> l == 0 && r > 0) &&
      (s == Uncommitted <==> r == 0 && uncommitted) &&
      (s == UpToDate <==> l == 0 && r == 0 && !uncommitted) &&
      (s == Ahead <==> l > 0 && r == 0 && !uncommitted)
  {
  }

  /** Output that is not a pair of counts is never read as diverged or
      behind, and counts as ahead when the tree is clean. */
  lemma {:induction false} Unparsable(output: string, uncommitted: bool)
    requires '\t' !in Trim(output)
    ensures Classify(CommitDifferences(output).0, CommitDifferences(output).1, uncommitted) ==
      if uncommitted then Uncommitted
      else if IsZero(CommitDifferences(output).0) then UpToDate else Ahead
  {
  }

  /** `hasUncommittedChanges` of src/gitStatus.ts: the trimmed porcelain
      output is not empty. */
  predicate HasUncommittedChanges(porcelain: string) {
    Trim(porcelain) != ""
  }

  /** `gitStatus` of src/gitStatus.ts. */
  function GitStatus(revList: string, porcelain: string): (s: Status)
    ensures s == Uncommitted ==> HasUncommittedChanges(porcelain)
  {
    var (local, remote) := CommitDifferences(revList);
    Classify(local, remote, HasUncommittedChanges(porcelain))
  }

  /** `gitStatus` of packages/plugin-git: `execa` has already removed the
      final newline, the output is split untrimmed, and any porcelain
      output, white space included, means uncommitted changes. */
  function PluginGitStatus(revList: string, porcelain: string): (s: Status)
    ensures s == Uncommitted ==> porcelain != ""
  {
    var (local, remote) := ParseFields(revList);
    Classify(local, remote, porcelain != "")
  }

  /** Rev-list's "L\tR" line, with the trailing white space `trim` removes,
      reads as the pair (L, R). */
  lemma {:induction false} RevListCounts(l: nat, r: nat, tail: string)
    requires AllSpace(tail)
    ensures CommitDifferences(Decimal(l) + "\t" + Decimal(r) + tail) == (Int(l), Int(r))
    ensures ParseFields(Decimal(l) + "\t" + Decimal(r)) == (Int(l), Int(r))
  {
    var line := Decimal(l) + "\t" + Decimal(r);
    assert Trim(line + tail) == line by {
      CountsLineTrimmed(Decimal(l), Decimal(r), tail);
    }
    CountsParsed(l, r);
  }

  /** The untrimmed line splits into the two counts, each read back as the
      number written. */
  lemma {:induction false} CountsParsed(l: nat, r: nat)
    ensures ParseFields(Decimal(l) + "\t" + Decimal(r)) == (Int(l), Int(r))
  {
    var a, b := Decimal(l), Decimal(r);
    var line := a + "\t" + b;
    assert Split(line, '\t') == [a, b] by {
      assert Join([a, b], "\t") == line;
      assert '\t' !in a && '\t' !in b by {
        assert forall k :: 0 <= k < |a| ==> IsDigit(a[k]);
        assert forall k :: 0 <= k < |b| ==> IsDigit(b[k]);
      }
      SplitJoin([a, b], '\t');
    }
    assert ToNumber(a) == Int(l) by {
      DigitsTrimmed(a);
      DecimalValue(l);
    }
    assert ToNumber(b) == Int(r) by {
      DigitsTrimmed(b);
      DecimalValue(r);
    }
  }

  /** Trailing white space after the counts is trimmed away. */
  lemma {:induction false} CountsLineTrimmed(a: string, b: string, tail: string)
    requires |a| >= 1 && AllDigits(a) && |b| >= 1 && AllDigits(b) && AllSpace(tail)
    ensures Trim(a + "\t" + b + tail) == a + "\t" + b
  {
    var line := a + "\t" + b;
    var s := line + tail;
    assert s[|line|..] == tail && s[..|line|] == line;
    assert s[0] == a[0] && s[|line| - 1] == b[|b| - 1];
    TrimEndOf(s, |line|);
    TrimStartOf(s, 0);
    assert TrimStart(s) == s;
  }

  /** A run of digits is its own trim. */
  lemma {:induction false} DigitsTrimmed(a: string)
    requires |a| >= 1 && AllDigits(a)
    ensures Trim(a) == a
  {
    assert a[|a|..] == [] && a[..0] == [] && a[0..] == a;
    TrimStartOf(a, 0);
    TrimEndOf(a, |a|);
    assert a[..|a|] == a;
  }

  /** Both classifiers read the counts alike; they differ only on porcelain
      output made of white space alone, which the plugin takes for
      uncommitted changes. */
  lemma {:induction false} PluginAgrees(l: nat, r: nat, porcelain: string)
    requires porcelain == "" || Trim(porcelain) != ""
    ensures PluginGitStatus(Decimal(l) + "\t" + Decimal(r), porcelain) ==
      GitStatus(Decimal(l) + "\t" + Decimal(r) + "\n", porcelain)
  {
    RevListCounts(l, r, "\n");
    if porcelain == "" {
      assert Trim(porcelain) == "";
    }
  }

  /** Porcelain output of white space alone, with a remote that has no new
      commits: the plugin reports uncommitted changes where src/gitStatus.ts
      reports ahead or up to date. */
  lemma {:induction false} WhitespacePorcelain(l: nat, porcelain: string)
    requires porcelain != "" && AllSpace(porcelain)
    ensures PluginGitStatus(Decimal(l) + "\t" + Decimal(0), porcelain) == Uncommitted
    ensures GitStatus(Decimal(l) + "\t" + Decimal(0) + "\n", porcelain) == if l == 0 then UpToDate else Ahead
  {
    RevListCounts(l, 0, "\n");
    AllSpaceTrimmed(porcelain);
    PluginReads(Decimal(l) + "\t" + Decimal(0), porcelain);
    CoreReads(Decimal(l) + "\t" + Decimal(0) + "\n", porcelain);
  }

  lemma {:induction false} PluginReads(revList: string, porcelain: string)
    ensures var (local, remote) := ParseFields(revList);
      PluginGitStatus(revList, porcelain) == Classify(local, remote, porcelain != "")
  {
  }

  lemma {:induction false} CoreReads(revList: string, porcelain: string)
    ensures var (local, remote) := CommitDifferences(revList);
      GitStatus(revList, porcelain) == Classify(local, remote, HasUncommittedChanges(porcelain))
  {
  }

  /** White space alone trims to nothing. */
  lemma {:induction false} AllSpaceTrimmed(s: string)
    requires AllSpace(s)
    ensures Trim(s) == ""
  {
    assert s[..|s|] == s && s[|s|..] == [];
    TrimStartOf(s, |s|);
    assert Trim(s) == TrimEnd(TrimStart(s));
  }
}
