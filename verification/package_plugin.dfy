/** The package plugin (packages/plugin-package/src/index.ts): the check
    stage validates `package.json` and keeps its contents, and the edit
    stage writes the new version into it. In lerna mode a missing version
    is allowed and the edit is left to lerna. What `package.json` holds and
    semver's validity test are parameters. */
module PackagePlugin {
  import opened Wrappers
  import opened Stages
  import opened ReleaseScript
  import OrderedMap
  import LernaPlugin

  /** `stages`: check and edit from the registry. */
  function PluginStages(): (r: seq<Stage>)
    ensures |r| == 2 && r[0].id == "check" && r[1].id == "edit"
  {
    [Default("check"), Default("edit")]
  }

  const NotFoundMessage: string := "No package.json found in the current directory!"
  const MissingVersionMessage: string := "Missing property version from package.json!"

  function InvalidVersionMessage(version: Json): string {
    "Invalid version \"" + Show(version) + "\" in package.json!"
  }

  /** The file the edit stage writes, relative to the working directory. */
  const PackagePath: string := "package.json"

  /** `context.hasData("lerna") && !!context.getData("lerna")`. */
  predicate LernaMode(c: Context) {
    HasData(c, "lerna") && Truthy(GetData(c, "lerna").value)
  }

  /** `executeCheckStage` on `package.json`. A missing file is fatal; one
      that is not JSON makes `readJson` throw. */
  function CheckStage(c: Context, file: JsonFile, valid: string -> bool): (r: Result<Context, Thrown>)
    ensures var version := Field(Contents(file), "version");
      r.Failure? <==> (!file.Parsed? ||
        (if Present(version) then !(version.value.JStr? && valid(version.value.s)) else !LernaMode(c)))
    ensures file.Malformed? ==> r == Failure(SyntaxError)
    ensures r.Failure? && !file.Malformed? ==> r.error.Release? && r.error.error.fatal == Some(true)
    ensures r.Success? ==> file.Parsed? && GetData(r.value, "package.json") == Success(file.json)
    ensures r.Success? ==> r.value.errors == c.errors && r.value.warnings == c.warnings && r.value.logs == c.logs
  {
    match file
    case Missing => Failure(Fatal(NotFoundMessage, None))
    case Malformed => Failure(SyntaxError)
    case Parsed(p) =>
      var version := Field(Some(p), "version");
      if !Present(version) && !LernaMode(c) then Failure(Fatal(MissingVersionMessage, None))
      else if Present(version) && !(version.value.JStr? && valid(version.value.s)) then
        Failure(Fatal(InvalidVersionMessage(version.value), None))
      else
        OrderedMap.PutGet(c.data, "package.json", p, "package.json");
        Success(SetData(c, "package.json", p))
  }

  /** Lerna mode only excuses a missing version; an invalid one is fatal in
      either mode. */
  lemma {:induction false} LernaExcusesMissingOnly(c: Context, c': Context, pack: Json, valid: string -> bool)
    requires LernaMode(c) && !LernaMode(c')
    ensures !Present(Field(Some(pack), "version")) ==>
      CheckStage(c, Parsed(pack), valid).Success? && CheckStage(c', Parsed(pack), valid) == Failure(Fatal(MissingVersionMessage, None))
    ensures Present(Field(Some(pack), "version")) ==>
      CheckStage(c, Parsed(pack), valid).Failure? == CheckStage(c', Parsed(pack), valid).Failure?
  {
  }

  /** `pack.version` inside the log line: the field as text, `undefined`
      when the object has none. */
  function ShowVersion(pack: Json): string {
    match Field(Some(pack), "version")
    case Some(v) => Show(v)
    case None => "undefined"
  }

  /** The log line of the edit stage, without its colours. */
  function UpdateMessage(pack: Json, newVersion: Json): string {
    "updating package.json version from " + ShowVersion(pack) + " to " + Show(newVersion)
  }

  /** `executeEditStage`. Reading `version` of `null` throws a `TypeError`;
      setting it on a string, number or boolean throws one too, in strict
      mode. The object changed is the one in the data store, so the store
      sees the new version as well. */
  function EditStage(c: Context, dryRun: bool): (r: Step)
    ensures r.Success? ==> HasData(c, "version_new") && HasData(c, "package.json")
    ensures r.Success? ==> |r.value.context.logs| == |c.logs| + 1 && r.value.context.errors == c.errors
    ensures r.Success? && dryRun ==> r.value.effects == [] && r.value.context.data == c.data
    ensures r.Success? && !dryRun ==> |r.value.effects| == 1 && r.value.effects[0].WriteJson?
  {
    match GetData(c, "version_new")
    case Failure(e) => Failure(e)
    case Success(newVersion) =>
      match GetData(c, "package.json")
      case Failure(e) => Failure(e)
      case Success(pack) =>
        if pack.JNull? then Failure(Other(None))
        else
          var c1 := Log(c, UpdateMessage(pack, newVersion));
          if dryRun then Success(Outcome(c1, []))
          else if pack.JObj? then
            var edited := JObj(OrderedMap.Put(pack.fields, "version", newVersion));
            Success(Outcome(SetData(c1, "package.json", edited), [WriteJson(PackagePath, edited)]))
          else if pack.JArr? then Success(Outcome(c1, [WriteJson(PackagePath, pack)]))
          else Failure(Other(None))
  }

  /** For an object, the file written keeps every other field, in order,
      and has `version_new` as its version, which is also what the data
      store holds afterwards. */
  lemma {:induction false} EditWritesVersion(c: Context, fields: seq<(string, Json)>, newVersion: Json)
    requires OrderedMap.Get(c.data, "version_new") == Some(newVersion)
    requires OrderedMap.Get(c.data, "package.json") == Some(JObj(fields))
    ensures var r := EditStage(c, false);
      r.Success? && |r.value.effects| == 1 && r.value.effects[0].WriteJson? &&
      var written := r.value.effects[0].value;
      written.JObj? &&
      OrderedMap.Get(written.fields, "version") == Some(newVersion) &&
      (forall k :: k != "version" ==> OrderedMap.Get(written.fields, k) == OrderedMap.Get(fields, k)) &&
      GetData(r.value.context, "package.json") == Success(written)
  {
    var edited := OrderedMap.Put(fields, "version", newVersion);
    var c1 := Log(c, UpdateMessage(JObj(fields), newVersion));
    assert EditStage(c, false) == Success(Outcome(SetData(c1, "package.json", JObj(edited)), [WriteJson(PackagePath, JObj(edited))]));
    assert OrderedMap.Get(edited, "version") == Some(newVersion) by {
      OrderedMap.PutGet(fields, "version", newVersion, "version");
    }
    forall k | k != "version" ensures OrderedMap.Get(edited, k) == OrderedMap.Get(fields, k) {
      OrderedMap.PutGet(fields, "version", newVersion, k);
    }
    assert GetData(SetData(c1, "package.json", JObj(edited)), "package.json") == Success(JObj(edited)) by {
      OrderedMap.PutGet(c1.data, "package.json", JObj(edited), "package.json");
    }
  }

  /** `executeStage`: in lerna mode the edit stage does nothing. */
  function ExecuteStage(c: Context, stageId: string, file: JsonFile, valid: string -> bool, dryRun: bool): (r: Step)
    ensures stageId != "check" && stageId != "edit" ==> r == Success(Outcome(c, []))
    ensures stageId == "edit" && LernaMode(c) ==> r == Success(Outcome(c, []))
    ensures stageId == "edit" && !LernaMode(c) ==> r == EditStage(c, dryRun)
    ensures stageId == "check" ==> (r.Failure? <==> CheckStage(c, file, valid).Failure?)
  {
    if stageId == "check" then
      match CheckStage(c, file, valid)
      case Failure(e) => Failure(e)
      case Success(c') => Success(Outcome(c', []))
    else if stageId == "edit" then
      if LernaMode(c) then Success(Outcome(c, [])) else EditStage(c, dryRun)
    else Success(Outcome(c, []))
  }

  /** Once the lerna plugin's check has passed, the package plugin takes a
      missing version for granted and leaves the edit to lerna. */
  lemma {:induction false} LernaCheckSkipsEdit(c: Context, json: JsonFile, valid: string -> bool, pack: Json, dryRun: bool)
    requires LernaPlugin.CheckStage(c, json, valid).Success?
    requires !Present(Field(Some(pack), "version"))
    ensures var c' := LernaPlugin.CheckStage(c, json, valid).value;
      CheckStage(c', Parsed(pack), valid).Success? &&
      ExecuteStage(c', "edit", Parsed(pack), valid, dryRun) == Success(Outcome(c', []))
  {
    LernaPlugin.CheckStores(c, json, valid);
  }
}
