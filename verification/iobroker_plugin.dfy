/** The ioBroker plugin (packages/plugin-iobroker/src/index.ts): in the
    check stage it compares the version of `io-package.json` with the one
    the package plugin read from `package.json`, keeps the file's contents
    for later stages, and scans the release workflow for a test of
    `github.event.base_ref` that makes the deploy job fail. Whether the
    files exist and what they contain are parameters, and so is semver's
    validity test. */
module IobrokerPlugin {
  import opened Wrappers
  import opened Text
  import opened Stages
  import opened ReleaseScript
  import OrderedMap

  /** `stages`: check and edit from the registry. */
  function PluginStages(): (r: seq<Stage>)
    ensures |r| == 2 && r[0].id == "check" && r[1].id == "edit"
  {
    [Default("check"), Default("edit")]
  }

  /** `dependencies`: the version is read by the package plugin. */
  const Dependencies: seq<string> := ["package"]

  // ---------------------------------------------------------------------
  // checkIoPackage
  // ---------------------------------------------------------------------

  /** The directory of `io-package.json`: the working directory, joined
      with the `--ioPackage` option when that is given and not empty. */
  function IoPackDirectory(cwd: string, ioPackage: Option<string>, join: (string, string) -> string): string {
    if ioPackage.Some? && ioPackage.value != "" then join(cwd, ioPackage.value) else cwd
  }

  function NotFoundMessage(dir: string): string {
    "io-package.json not found in " + dir + "!"
  }

  const MissingVersionMessage: string := "Version missing from io-package.json!"

  function InvalidVersionMessage(version: Json): string {
    "Invalid version \"" + Show(version) + "\" in io-package.json!"
  }

  function MismatchMessage(ioVersion: string, packVersion: Json): string {
    "Version mismatch between io-package.json (" + ioVersion + ") and package.json (" + Show(packVersion) + ")!"
  }

  /** The success line, without its colour. */
  const IoPackageOk: string := "io-package.json ok ✔"

  /** `ioPack?.common?.version`. */
  function VersionField(ioPack: Json): (r: Option<Json>)
    ensures r.Some? ==> ioPack.JObj?
  {
    Field(Field(Some(ioPack), "common"), "version")
  }

  /** `semver.valid(version)`: only a string can be a valid version. */
  predicate ValidVersion(version: Json, valid: string -> bool) {
    version.JStr? && valid(version.s)
  }

  /** The version test of `checkIoPackage`: a soft error for a missing or
      invalid version or for one that differs from `package.json`'s, and
      a log line when they agree. Reading the version of `package.json`
      throws when the package plugin never stored it. */
  function CompareVersions(c: Context, version: Option<Json>, valid: string -> bool): (r: Result<Context, Thrown>)
    ensures r.Failure? <==> Present(version) && ValidVersion(version.value, valid) && !HasData(c, "version")
    ensures r.Failure? ==> r.error.Release? && r.error.error.fatal == Some(true)
    ensures r.Success? ==> r.value.data == c.data && r.value.warnings == c.warnings
    ensures r.Success? ==> (r.value.errors == c.errors) != (r.value.logs == c.logs)
    ensures r.Success? && !Present(version) ==> r.value.errors == c.errors + [MissingVersionMessage]
    ensures r.Success? && Present(version) && !ValidVersion(version.value, valid) ==>
      r.value.errors == c.errors + [InvalidVersionMessage(version.value)]
  {
    if !Present(version) then Success(Error(c, MissingVersionMessage))
    else if !ValidVersion(version.value, valid) then Success(Error(c, InvalidVersionMessage(version.value)))
    else
      match GetData(c, "version")
      case Failure(e) => Failure(e)
      case Success(packVersion) =>
        if packVersion != version.value then
          Success(Error(c, MismatchMessage(version.value.s, packVersion)))
        else Success(Log(c, IoPackageOk))
  }

  /** `checkIoPackage`. A missing `io-package.json` is fatal and one that is
      not JSON makes `readJson` throw. The contents are stored under
      `io-package.json` whatever the version test said, unless reading the
      version of `package.json` threw. */
  function CheckIoPackage(c: Context, dir: string, ioPack: JsonFile, valid: string -> bool): (r: Result<Context, Thrown>)
    ensures ioPack.Missing? ==> r == Failure(Fatal(NotFoundMessage(dir), None))
    ensures ioPack.Malformed? ==> r == Failure(SyntaxError)
    ensures r.Failure? && !ioPack.Malformed? ==> r.error.Release? && r.error.error.fatal == Some(true)
    ensures r.Success? ==> ioPack.Parsed? && GetData(r.value, "io-package.json") == Success(ioPack.json)
    ensures r.Success? ==> r.value.warnings == c.warnings && |r.value.errors| + |r.value.logs| == |c.errors| + |c.logs| + 1
  {
    match ioPack
    case Missing => Failure(Fatal(NotFoundMessage(dir), None))
    case Malformed => Failure(SyntaxError)
    case Parsed(pack) =>
      match CompareVersions(c, VersionField(pack), valid)
      case Failure(e) => Failure(e)
      case Success(c') =>
        var r := SetData(c', "io-package.json", pack);
        OrderedMap.PutGet(c'.data, "io-package.json", pack, "io-package.json");
        Success(r)
  }

  /** `{"common": {"version": v}}` and larger objects with that field: the
      version is read from `common.version`, and a file whose last
      `common` is not an object has none. */
  lemma {:induction false} VersionFieldOf(fields: seq<(string, Json)>, common: seq<(string, Json)>)
    requires "common" in OrderedMap.Keys(fields) && OrderedMap.LastValue(fields, "common") == JObj(common)
    ensures VersionField(JObj(fields)) ==
      if "version" in OrderedMap.Keys(common) then Some(OrderedMap.LastValue(common, "version")) else None
  {
  }

  /** A valid version equal to the stored one is accepted: the check logs
      one line, reports no error, and stores the file. */
  lemma {:induction false} VersionsAgree(c: Context, dir: string, pack: Json, s: string, valid: string -> bool)
    requires VersionField(pack) == Some(JStr(s)) && s != "" && valid(s)
    requires OrderedMap.Get(c.data, "version") == Some(JStr(s))
    ensures CheckIoPackage(c, dir, Parsed(pack), valid) ==
      Success(SetData(Log(c, IoPackageOk), "io-package.json", pack))
  {
  }

  /** A valid version that differs from the stored one gives one error
      naming both, and the file is still stored. */
  lemma {:induction false} VersionsDiffer(c: Context, dir: string, pack: Json, s: string, stored: Json, valid: string -> bool)
    requires VersionField(pack) == Some(JStr(s)) && s != "" && valid(s)
    requires OrderedMap.Get(c.data, "version") == Some(stored) && stored != JStr(s)
    ensures CheckIoPackage(c, dir, Parsed(pack), valid) ==
      Success(SetData(Error(c, MismatchMessage(s, stored)), "io-package.json", pack))
  {
  }

  // ---------------------------------------------------------------------
  // checkWorkflow
  // ---------------------------------------------------------------------

  /** `/^[ \t]+word/m` matches at `i`: `i` starts a line, and one or more
      spaces or tabs lead up to `word`. */
  predicate IndentedAt(s: string, i: nat, word: string)
    requires i <= |s|
  {
    LineStart(s, i) && Run(s[i..], IsBlank) >= 1 && OccursAt(s, word, i + Run(s[i..], IsBlank))
  }

  /** The pattern's own reading, with the backtracking of `[ \t]+`: some
      number `n >= 1` of blanks after the line start is followed by the
      word. */
  ghost predicate PatternAt(s: string, i: nat, word: string)
    requires i <= |s|
  {
    LineStart(s, i) && exists n: nat :: n >= 1 && BlanksAt(s, i, n) && OccursAt(s, word, i + n)
  }

  predicate BlanksAt(s: string, i: nat, n: nat) {
    i + n <= |s| && forall k :: i <= k < i + n ==> IsBlank(s[k])
  }

  /** The run of blanks `Run` counts is maximal. */
  lemma {:induction false} RunBlanks(s: string)
    ensures BlanksAt(s, 0, Run(s, IsBlank))
    ensures Run(s, IsBlank) < |s| ==> !IsBlank(s[Run(s, IsBlank)])
    decreases |s|
  {
    if s != [] && IsBlank(s[0]) {
      RunBlanks(s[1..]);
    }
  }

  /** For a word that does not start with a blank, backtracking never
      helps, so the greedy reading agrees with the pattern. */
  lemma {:induction false} IndentedAtIff(s: string, i: nat, word: string)
    requires i <= |s| && word != [] && !IsBlank(word[0])
    ensures IndentedAt(s, i, word) <==> PatternAt(s, i, word)
  {
    var t := s[i..];
    var j := Run(t, IsBlank);
    RunBlanks(t);
    forall k | i <= k < i + j ensures IsBlank(s[k]) {
      assert t[k - i] == s[k];
    }
    assert BlanksAt(s, i, j);
    if PatternAt(s, i, word) {
      var n: nat :| n >= 1 && BlanksAt(s, i, n) && OccursAt(s, word, i + n);
      assert s[i + n] == word[0];
      assert i + j < |s| ==> t[j] == s[i + j];
      assert n == j;
    }
  }

  /** `regex.exec(s)` from `from` on: the first match at `from` or later. */
  function FirstMatch(s: string, word: string, from: nat): (r: Option<nat>)
    requires from <= |s|
    ensures r.Some? ==> from <= r.value < |s| && IndentedAt(s, r.value, word)
    ensures r.Some? ==> forall k :: from <= k < r.value ==> !IndentedAt(s, k, word)
    ensures r.None? ==> forall k :: from <= k <= |s| ==> !IndentedAt(s, k, word)
    decreases |s| - from
  {
    if IndentedAt(s, from, word) then Some(from)
    else if from == |s| then None
    else FirstMatch(s, word, from + 1)
  }

  const DeployKey: string := "deploy:"
  const IfKey: string := "if: "
  const BaseRefTest: string := "github.event.base_ref =="

  /** `/^[ \t]+if: |/gm.exec(content)`. The pattern is the alternation of
      `^[ \t]+if: ` and the empty pattern, and the empty one matches at the
      very start of any text, so the match is always at index 0. */
  function IfStepIndex(content: string): (r: nat)
    ensures r <= |content|
  {
    // Index 0 matches `^[ \t]+if: ` or else the empty alternative.
    0
  }

  /** The line reported: up to the next `\n`, or nothing when none follows,
      since `substr(0, -1)` is empty. */
  function ReportedLine(rest: string): (line: string)
    ensures '\n' in rest ==> line == rest[..IndexOfChar(rest, '\n')]
    ensures '\n' !in rest ==> line == ""
  {
    if '\n' in rest then rest[..IndexOfChar(rest, '\n')] else ""
  }

  /** The error text, without its colours. */
  function WorkflowMessage(line: string): string {
    "The deploy job in .github/workflows/test-and-release.yml potentially has an error, which can cause your deploy to fail.\n" +
    "Remove this line to fix it:\n" + line + "\n\n" +
    "You can suppress this check with the --no-workflow-check flag."
  }

  /** The searches of `checkWorkflow`, each starting where the previous
      match was found: the line to report, if any. */
  function WorkflowFinding(content: string): (r: Option<string>) {
    match FirstMatch(content, DeployKey, 0)
    case None => None
    case Some(d) =>
      var afterDeploy := content[d..];
      var afterIf := afterDeploy[IfStepIndex(afterDeploy)..];
      match FirstMatch(afterIf, BaseRefTest, 0)
      case None => None
      case Some(m) => Some(ReportedLine(afterIf[m..]))
  }

  /** `checkWorkflow`. `workflow` holds `test-and-release.yml`, `None` when
      it does not exist. */
  function CheckWorkflow(c: Context, workflow: Option<string>): (r: Context)
    ensures r.data == c.data && r.warnings == c.warnings && r.logs == c.logs
    ensures r.errors == c.errors || (exists line :: r.errors == c.errors + [WorkflowMessage(line)])
    ensures workflow.None? ==> r == c
  {
    match workflow
    case None => c
    case Some(content) =>
      match WorkflowFinding(content)
      case None => c
      case Some(line) => Error(c, WorkflowMessage(line))
  }

  /** A search in the text after a line start finds what a search of the
      whole text from there finds. */
  lemma {:induction false} SearchFrom(s: string, d: nat, word: string, from: nat)
    requires d <= |s| && LineStart(s, d) && from <= |s| - d
    ensures var r := FirstMatch(s[d..], word, from);
      r.Some? <==> FirstMatch(s, word, d + from).Some?
    ensures var r := FirstMatch(s[d..], word, from);
      r.Some? ==> d + r.value == FirstMatch(s, word, d + from).value
    decreases |s| - d - from
  {
    ShiftAt(s, d, word, from);
    if !IndentedAt(s[d..], from, word) && from < |s| - d {
      SearchFrom(s, d, word, from + 1);
    }
  }

  /** Whether the pattern matches at `k` of the rest equals whether it
      matches at `d + k` of the whole text. */
  lemma {:induction false} ShiftAt(s: string, d: nat, word: string, k: nat)
    requires d <= |s| && LineStart(s, d) && k <= |s| - d
    ensures IndentedAt(s[d..], k, word) <==> IndentedAt(s, d + k, word)
  {
    var t := s[d..];
    assert t[k..] == s[d + k..];
    if k > 0 {
      assert t[k - 1] == s[d + k - 1];
    }
    var n := Run(t[k..], IsBlank);
    if k + n + |word| <= |t| {
      assert t[k + n..k + n + |word|] == s[d + k + n..d + k + n + |word|];
    }
  }

  /** The search for the `if: |` step changes nothing: the check reads as
      a search for the first indented `deploy:` line and then for the first
      indented `github.event.base_ref ==` line at or after it, in the whole
      text. */
  lemma {:induction false} WorkflowReads(content: string)
    ensures var first := FirstMatch(content, DeployKey, 0);
      WorkflowFinding(content) ==
        if first.None? || FirstMatch(content, BaseRefTest, first.value).None? then None
        else Some(ReportedLine(content[FirstMatch(content, BaseRefTest, first.value).value..]))
  {
    var first := FirstMatch(content, DeployKey, 0);
    if first.Some? {
      BaseRefAfter(content, first.value);
    }
  }

  /** From a line start `d` on, the search in the rest of the text after
      the `if: |` step finds the line the search of the whole text from
      `d` finds. */
  lemma {:induction false} BaseRefAfter(content: string, d: nat)
    requires d <= |content| && LineStart(content, d)
    ensures var afterDeploy := content[d..];
      var afterIf := afterDeploy[IfStepIndex(afterDeploy)..];
      var r := FirstMatch(afterIf, BaseRefTest, 0);
      var g := FirstMatch(content, BaseRefTest, d);
      (r.Some? <==> g.Some?) && (r.Some? ==> afterIf[r.value..] == content[g.value..])
  {
    var afterDeploy := content[d..];
    assert afterDeploy[IfStepIndex(afterDeploy)..] == afterDeploy;
    SearchFrom(content, d, BaseRefTest, 0);
    var later := FirstMatch(afterDeploy, BaseRefTest, 0);
    if later.Some? {
      assert afterDeploy[later.value..] == content[d + later.value..];
    }
  }

  /** The check reports the workflow exactly when some indented `deploy:`
      line is followed, at or after it, by an indented
      `github.event.base_ref ==` line; whether an `if: |` line lies between
      them makes no difference. */
  lemma {:induction false} WorkflowIff(content: string)
    ensures WorkflowFinding(content).Some? <==>
      exists d: nat, m: nat :: d <= m <= |content| && IndentedAt(content, d, DeployKey) && IndentedAt(content, m, BaseRefTest)
  {
    WorkflowReads(content);
    var first := FirstMatch(content, DeployKey, 0);
    if first.Some? {
      var d := first.value;
      if exists d0: nat, m0: nat :: d0 <= m0 <= |content| && IndentedAt(content, d0, DeployKey) && IndentedAt(content, m0, BaseRefTest) {
        var d0: nat, m0: nat :| d0 <= m0 <= |content| && IndentedAt(content, d0, DeployKey) && IndentedAt(content, m0, BaseRefTest);
        assert d <= d0;
      }
    }
  }

  // ---------------------------------------------------------------------
  // executeStage
  // ---------------------------------------------------------------------

  /** What the file system holds for the plugin. */
  datatype IobrokerInputs = IobrokerInputs(
    cwd: string,
    ioPackage: Option<string>,
    ioPack: JsonFile,
    workflow: Option<string>,
    noWorkflowCheck: bool)

  /** `executeStage`: only the check stage does anything. */
  function ExecuteStage(c: Context, stageId: string, io: IobrokerInputs, valid: string -> bool, join: (string, string) -> string): (r: Step)
    ensures stageId != "check" ==> r == Success(Outcome(c, []))
    ensures r.Success? ==> r.value.effects == [] && r.value.context.warnings == c.warnings
    ensures stageId == "check" ==> (r.Failure? <==> CheckIoPackage(c, IoPackDirectory(io.cwd, io.ioPackage, join), io.ioPack, valid).Failure?)
  {
    if stageId == "check" then
      match CheckIoPackage(c, IoPackDirectory(io.cwd, io.ioPackage, join), io.ioPack, valid)
      case Failure(e) => Failure(e)
      case Success(c') => Success(Outcome(if !io.noWorkflowCheck then CheckWorkflow(c', io.workflow) else c', []))
    else Success(Outcome(c, []))
  }

  /** With `--no-workflow-check` the workflow is never read. */
  lemma {:induction false} NoWorkflowCheck(c: Context, io: IobrokerInputs, w: Option<string>, valid: string -> bool, join: (string, string) -> string)
    requires io.noWorkflowCheck
    ensures ExecuteStage(c, "check", io, valid, join) == ExecuteStage(c, "check", io.(workflow := w), valid, join)
  {
  }
}
