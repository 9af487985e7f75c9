/** The lerna plugin (packages/plugin-lerna/src/index.ts): the check stage
    validates `lerna.json`, stores its version and switches the package
    plugin into lerna mode; the commit stage has lerna amend the release
    commit. What `lerna.json` holds and semver's validity test are
    parameters. */
module LernaPlugin {
  import opened Wrappers
  import opened Stages
  import opened ReleaseScript
  import OrderedMap
  import Seqs

  /** `stages`: check and commit from the registry. */
  function PluginStages(): (r: seq<Stage>)
    ensures |r| == 2 && r[0].id == "check" && r[1].id == "commit"
  {
    [Default("check"), Default("commit")]
  }

  const NotFoundMessage: string := "No lerna.json found in the current directory!"
  const MissingVersionMessage: string := "Missing property version from lerna.json!"
  const IndependentMessage: string := "Lerna's independent versioning is not supported!"

  function InvalidVersionMessage(version: Json): string {
    "Invalid version \"" + Show(version) + "\" in lerna.json!"
  }

  const AmendWarning: string := "The option \"amend\" in lerna.json is unnecessary and should be removed."
  const PushWarning: string := "The option \"push: true\" in lerna.json is unnecessary and should be removed."
  const NoPushError: string :=
    "The option \"push: false\" in lerna.json prevents the release script from working must be removed."

  /** The success line, without its colour. */
  const LernaOk: string := "lerna.json ok ✔"

  /** `json?.command?.version`: lerna's options for `lerna version`. */
  function VersionOptions(json: Json): Option<Json> {
    Field(Field(Some(json), "command"), "version")
  }

  /** The version test: what is fatal about `lerna.json`'s version, if
      anything. A missing or falsy version comes first, then lerna's
      independent mode, then semver's test, which no value but a string
      passes. */
  function VersionProblem(version: Option<Json>, valid: string -> bool): (r: Option<string>)
    ensures r.None? <==> Present(version) && version.value.JStr? && version.value.s != "independent" && valid(version.value.s)
  {
    if !Present(version) then Some(MissingVersionMessage)
    else if version.value == JStr("independent") then Some(IndependentMessage)
    else if !(version.value.JStr? && valid(version.value.s)) then Some(InvalidVersionMessage(version.value))
    else None
  }

  /** The option checks: `amend` that is neither missing nor `null` is
      unnecessary, `push: true` is unnecessary and `push: false` is an
      error. */
  function CheckOptions(c: Context, options: Option<Json>): (r: Context)
    ensures r.data == c.data && r.logs == c.logs
    ensures var amend := Field(options, "amend");
      r.warnings == c.warnings +
        (if amend.Some? && amend.value != JNull then [AmendWarning] else []) +
        (if Field(options, "push") == Some(JBool(true)) then [PushWarning] else [])
    ensures r.errors == c.errors + (if Field(options, "push") == Some(JBool(false)) then [NoPushError] else [])
  {
    var amend := Field(options, "amend");
    var c1 := if amend.Some? && amend.value != JNull then Warn(c, AmendWarning) else c;
    var push := Field(options, "push");
    if push == Some(JBool(true)) then Warn(c1, PushWarning)
    else if push == Some(JBool(false)) then Error(c1, NoPushError)
    else c1
  }

  /** `executeCheckStage` on `lerna.json`. A missing file is fatal; one
      that is not JSON makes `readJson` throw. */
  function CheckStage(c: Context, file: JsonFile, valid: string -> bool): (r: Result<Context, Thrown>)
    ensures r.Failure? <==> !file.Parsed? || VersionProblem(Field(Contents(file), "version"), valid).Some?
    ensures file.Malformed? ==> r == Failure(SyntaxError)
    ensures r.Failure? && !file.Malformed? ==> r.error.Release? && r.error.error.fatal == Some(true)
    ensures r.Success? ==> |r.value.logs| == |c.logs| + 1 && r.value.logs[|c.logs|] == LernaOk
  {
    match file
    case Missing => Failure(Fatal(NotFoundMessage, None))
    case Malformed => Failure(SyntaxError)
    case Parsed(j) =>
      var version := Field(Some(j), "version");
      match VersionProblem(version, valid)
      case Some(msg) => Failure(Fatal(msg, None))
      case None =>
        var c1 := CheckOptions(c, VersionOptions(j));
        var c2 := SetData(SetData(c1, "version", version.value), "lerna", JBool(true));
        Success(Log(c2, LernaOk))
  }

  /** A valid `lerna.json` stores its version and lerna mode, which the
      package plugin and the version plugin read later. */
  lemma {:induction false} CheckStores(c: Context, file: JsonFile, valid: string -> bool)
    requires CheckStage(c, file, valid).Success?
    ensures var r := CheckStage(c, file, valid).value;
      GetData(r, "version") == Success(Field(Contents(file), "version").value) &&
      GetData(r, "lerna") == Success(JBool(true)) &&
      Field(Contents(file), "version").value.JStr? && valid(Field(Contents(file), "version").value.s)
  {
    var j := file.json;
    var version := Field(Some(j), "version");
    var c1 := CheckOptions(c, VersionOptions(j));
    var c2 := SetData(c1, "version", version.value);
    OrderedMap.PutGet(c1.data, "version", version.value, "version");
    OrderedMap.PutGet(c2.data, "lerna", JBool(true), "version");
    OrderedMap.PutGet(c2.data, "lerna", JBool(true), "lerna");
  }

  /** The independent mode is rejected whatever semver says. */
  lemma {:induction false} IndependentRejected(c: Context, fields: seq<(string, Json)>, valid: string -> bool)
    requires "version" in OrderedMap.Keys(fields) && OrderedMap.LastValue(fields, "version") == JStr("independent")
    ensures CheckStage(c, Parsed(JObj(fields)), valid) == Failure(Fatal(IndependentMessage, None))
  {
  }

  /** `push: false` is a soft error, so the check still succeeds. */
  lemma {:induction false} PushFalseNotFatal(c: Context, json: Json, valid: string -> bool)
    requires VersionProblem(Field(Some(json), "version"), valid).None?
    requires Field(VersionOptions(json), "push") == Some(JBool(false))
    ensures var r := CheckStage(c, Parsed(json), valid);
      r.Success? && r.value.errors == c.errors + [NoPushError]
  {
  }

  /** `executeCommitStage`: `lerna version <version_new> --amend`, only
      logged on a dry run. */
  function CommitStage(c: Context, dryRun: bool): (r: Step)
    ensures r.Failure? <==> !HasData(c, "version_new")
    ensures r.Success? && dryRun ==> r.value.effects == [] && |r.value.context.logs| == |c.logs| + 1
    ensures r.Success? && !dryRun ==> r.value.context == c && |r.value.effects| == 1 && r.value.effects[0].Exec?
  {
    match GetData(c, "version_new")
    case Failure(e) => Failure(e)
    case Success(v) =>
      var args := ["version", Show(v), "--amend"];
      if dryRun then Success(Outcome(LogCommand(c, "lerna", args), []))
      else Success(Outcome(c, [Exec("lerna", args)]))
  }

  /** The command run is the one a dry run logs. */
  lemma {:induction false} CommitCommand(c: Context)
    requires HasData(c, "version_new")
    ensures var v := Show(GetData(c, "version_new").value);
      CommitStage(c, false).value.effects == [Exec("lerna", ["version", v, "--amend"])] &&
      CommitStage(c, true).value.context.logs == c.logs + ["$ lerna version " + v + " --amend"]
  {
    var v := Show(GetData(c, "version_new").value);
    var args := ["version", v, "--amend"];
    var joined := Text.Join(args, " ");
    assert joined == "version " + v + " --amend" by {
      assert args[1..] == [v, "--amend"] && args[1..][1..] == ["--amend"];
      assert Text.Join([v, "--amend"], " ") == v + " " + "--amend";
    }
    assert CommitStage(c, true).value.context == LogCommand(c, "lerna", args);
    assert LogCommand(c, "lerna", args) == Log(c, "$ " + "lerna" + (" " + joined));
    assert "$ " + "lerna" + (" " + joined) == "$ lerna " + joined by {
      Seqs.Assoc("$ " + "lerna", " ", joined);
      assert "$ " + "lerna" + " " == "$ lerna ";
    }
    assert "$ lerna " + joined == "$ lerna version " + v + " --amend" by {
      Seqs.Assoc("$ lerna ", "version " + v, " --amend");
      Seqs.Assoc("$ lerna ", "version ", v);
      assert "$ lerna " + "version " == "$ lerna version ";
    }
  }

  /** `executeStage`. */
  function ExecuteStage(c: Context, stageId: string, file: JsonFile, valid: string -> bool, dryRun: bool): (r: Step)
    ensures stageId != "check" && stageId != "commit" ==> r == Success(Outcome(c, []))
    ensures stageId == "check" ==> (r.Failure? <==> CheckStage(c, file, valid).Failure?)
    ensures stageId == "commit" ==> r == CommitStage(c, dryRun)
  {
    if stageId == "check" then
      match CheckStage(c, file, valid)
      case Failure(e) => Failure(e)
      case Success(c') => Success(Outcome(c', []))
    else if stageId == "commit" then CommitStage(c, dryRun)
    else Success(Outcome(c, []))
  }
}
