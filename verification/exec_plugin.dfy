/** The exec plugin (packages/plugin-exec/src/index.ts): `init` turns the
    keys of `exec_commands` into stages for the planner, and
    `executeStage` runs the commands configured for a stage one after
    another. Whether a command fails is a parameter; what it prints is not
    modelled. */
module ExecPlugin {
  import opened Wrappers
  import opened Seqs
  import opened OrderedMap
  import opened Text
  import opened Stages
  import opened ReleaseScript

  /** A value of `exec_commands`: one command or a list of them. */
  datatype Commands = One(command: string) | Many(commands: seq<string>)

  /** `s.startsWith(p)`. */
  predicate StartsWith(s: string, p: string) {
    |p| <= |s| && s[..|p|] == p
  }

  /** The stage a key of `exec_commands` becomes: the registry's own object
      for a default stage id, a stage before `X` for `before_X`, a stage
      after `X` for `after_X`, and a bare stage otherwise. */
  function StageFor(key: string): (s: Stage)
    ensures s.id == key
    ensures IsDefault(key) ==> s == Default(key)
    ensures !IsDefault(key) ==> s.continueOnError.None? && s.skipForDryRun.None?
  {
    if IsDefault(key) then Default(key)
    else if StartsWith(key, "before_") then Stage(key, None, None, None, Some([key[7..]]))
    else if StartsWith(key, "after_") then Stage(key, None, None, Some([key[6..]]), None)
    else Bare(key)
  }

  /** `before_X` orders its stage before `X` and declares nothing else;
      `after_X` orders it after `X`. `before_` is tested first, so
      `before_after_X` is a stage before `after_X`. */
  lemma {:induction false} HookStages(x: string)
    ensures StageFor("before_" + x) == Stage("before_" + x, None, None, None, Some([x]))
    ensures StageFor("after_" + x) == Stage("after_" + x, None, None, Some([x]), None)
  {
    var b, a := "before_" + x, "after_" + x;
    assert b[..7] == "before_" && b[7..] == x;
    assert a[..6] == "after_" && a[6..] == x;
    NotDefault(b);
    NotDefault(a);
    assert !StartsWith(a, "before_") by {
      assert a[0] == 'a';
    }
  }

  /** The registry ids start neither with `before_` nor with `after_`. */
  lemma {:induction false} NotDefault(key: string)
    requires StartsWith(key, "before_") || StartsWith(key, "after_")
    ensures !IsDefault(key)
  {
    DefaultIdsOnly(key);
    assert key[0] == 'b' || key[0] == 'a';
    assert forall d :: d in DefaultIds ==> d[0] in "cepu";
  }

  /** The registry is keyed by exactly the five default ids. */
  lemma {:induction false} DefaultIdsOnly(key: string)
    ensures IsDefault(key) <==> key in DefaultIds
  {
    assert Keys(DefaultStages) == DefaultIds;
  }

  /** Any other key gives a stage that declares nothing but its id. */
  lemma {:induction false} PlainStage(key: string)
    requires !IsDefault(key) && !StartsWith(key, "before_") && !StartsWith(key, "after_")
    ensures StageFor(key) == Bare(key)
  {
  }

  /** The loop of `init`: each key not yet in the map is set to the stage
      `make` gives for it. */
  function Collect<V>(keys: seq<string>, acc: Entries<string, V>, make: string -> V): (r: Entries<string, V>)
    decreases |keys|
  {
    if keys == [] then acc
    else if Has(acc, keys[0]) then Collect(keys[1..], acc, make)
    else Collect(keys[1..], Put(acc, keys[0], make(keys[0])), make)
  }

  /** `init`: the stages of the plugin, `[...stages.values()]`. */
  function Init(commands: Entries<string, Commands>): seq<Stage> {
    Values(Collect(Keys(commands), [], StageFor))
  }

  /** `init` on `context.argv.exec_commands`, `None` when the option was not
      given: `Object.keys` of `undefined` throws. Otherwise one stage per
      key, in key order. */
  function InitFrom(commands: Option<Entries<string, Commands>>): (r: Result<seq<Stage>, Thrown>)
    ensures r.Failure? <==> commands.None?
    ensures r.Failure? ==> r.error == TypeError
    ensures r.Success? && Valid(commands.value) ==>
      |r.value| == |commands.value| && forall i :: 0 <= i < |r.value| ==> r.value[i] == StageFor(commands.value[i].0)
  {
    match commands
    case None => Failure(TypeError)
    case Some(cs) =>
      if Valid(cs) then InitSpec(cs); Success(Init(cs)) else Success(Init(cs))
  }

  /** The keys of an object are distinct, so `init` yields exactly one
      stage per key, in key order, made by `StageFor`. */
  lemma {:induction false} InitSpec(commands: Entries<string, Commands>)
    requires Valid(commands)
    ensures var r := Init(commands);
      |r| == |commands| && forall i :: 0 <= i < |r| ==> r[i] == StageFor(commands[i].0)
  {
    var ks := Keys(commands);
    CollectFresh(ks, [], StageFor);
    assert [] + Made(ks, StageFor) == Made(ks, StageFor);
  }

  /** The entries `make` gives for the keys, in order. */
  function Made<V>(keys: seq<string>, make: string -> V): (r: Entries<string, V>)
    ensures |r| == |keys| && forall i :: 0 <= i < |keys| ==> r[i] == (keys[i], make(keys[i]))
    decreases |keys|
  {
    if keys == [] then [] else [(keys[0], make(keys[0]))] + Made(keys[1..], make)
  }

  /** Keys that are distinct and not yet in the map are appended in order. */
  lemma {:induction false} CollectFresh<V>(keys: seq<string>, acc: Entries<string, V>, make: string -> V)
    requires NoDup(keys) && forall k :: k in keys ==> k !in Keys(acc)
    ensures Collect(keys, acc, make) == acc + Made(keys, make)
    decreases |keys|
  {
    if keys != [] {
      var k := keys[0];
      var acc' := acc + [(k, make(k))];
      assert Collect(keys, acc, make) == Collect(keys[1..], acc', make) by {
        assert !Has(acc, k);
        PutFresh(acc, k, make(k));
      }
      assert forall x :: x in keys[1..] ==> x !in Keys(acc') by {
        KeysAppend(acc, [(k, make(k))]);
        assert Keys([(k, make(k))]) == [k];
        forall x | x in keys[1..] ensures x != k {
        }
      }
      CollectFresh(keys[1..], acc', make);
      Assoc(acc, [(k, make(k))], Made(keys[1..], make));
    }
  }

  /** The stages `init` makes for the keys of `exec_commands`. A default
      stage id reuses the registry's stage. */
  lemma {:induction false} InitStages(commands: Entries<string, Commands>, i: nat)
    requires Valid(commands) && i < |commands|
    ensures i < |Init(commands)|
    ensures var s := Init(commands)[i]; var key := commands[i].0;
      s.id == key &&
      (IsDefault(key) ==> s == Default(key)) &&
      (!IsDefault(key) && StartsWith(key, "before_") ==> (s.before == Some([key[7..]]) && s.after.None?)) &&
      (!IsDefault(key) && !StartsWith(key, "before_") && StartsWith(key, "after_") ==>
        (s.after == Some([key[6..]]) && s.before.None?))
  {
    InitSpec(commands);
  }

  // ---------------------------------------------------------------------
  // executeStage
  // ---------------------------------------------------------------------

  /** The commands configured for a stage, as a list: nothing when the value
      is missing or the empty string, one command for a string. */
  function CommandList(value: Option<Commands>): (r: seq<string>)
    ensures value.Some? && value.value.One? && value.value.command != "" ==> r == [value.value.command]
    ensures value.Some? && value.value.Many? ==> r == value.value.commands
    ensures value.None? || value == Some(One("")) ==> r == []
  {
    match value
    case None => []
    case Some(One(command)) => if command == "" then [] else [command]
    case Some(Many(list)) => list
  }

  /** What running a stage's commands leaves: the context and the commands
      started, in order, and the command whose failure ended the loop. */
  datatype ExecRun = ExecRun(context: Context, effects: seq<Effect>, failed: Option<string>)

  /** The loop of `executeStage`: log each command, and run it unless this
      is a dry run, waiting for it to finish; a failing command ends the
      loop and its error propagates. */
  function RunCommands(c: Context, commands: seq<string>, dryRun: bool, fails: string -> bool): (r: ExecRun)
    ensures dryRun ==> r.effects == [] && r.failed.None?
    ensures |r.context.logs| <= |c.logs| + |commands|
    ensures r.context.data == c.data && r.context.errors == c.errors && r.context.warnings == c.warnings
    decreases |commands|
  {
    if commands == [] then ExecRun(c, [], None)
    else
      var c' := LogCommand(c, commands[0], []);
      if dryRun then RunCommands(c', commands[1..], dryRun, fails)
      else if fails(commands[0]) then ExecRun(c', [Exec(commands[0], [])], Some(commands[0]))
      else
        var rest := RunCommands(c', commands[1..], dryRun, fails);
        ExecRun(rest.context, [Exec(commands[0], [])] + rest.effects, rest.failed)
  }

  /** `executeStage(context, stage)`. */
  function ExecuteStage(c: Context, commands: Entries<string, Commands>, stageId: string, dryRun: bool, fails: string -> bool): (r: ExecRun) {
    RunCommands(c, CommandList(Get(commands, stageId)), dryRun, fails)
  }

  /** The commands up to the first failing one, that one included. */
  function UpToFailure(commands: seq<string>, fails: string -> bool): (r: seq<string>)
    ensures |r| <= |commands| && r == commands[..|r|]
    ensures forall i :: 0 <= i < |r| - 1 ==> !fails(r[i])
    decreases |commands|
  {
    if commands == [] then []
    else if fails(commands[0]) then [commands[0]]
    else [commands[0]] + UpToFailure(commands[1..], fails)
  }

  /** The line `logCommand` writes for a command without arguments. */
  function Line(command: string): string {
    "$ " + command
  }

  /** Each command is logged as `$ <command>`. */
  function LogLines(commands: seq<string>): (r: seq<string>)
    ensures |r| == |commands|
    decreases |commands|
  {
    if commands == [] then [] else [Line(commands[0])] + LogLines(commands[1..])
  }

  /** The `i`-th line logged is the `i`-th command's. */
  lemma {:induction false} LogLinesAt(commands: seq<string>, i: nat)
    requires i < |commands|
    ensures LogLines(commands)[i] == Line(commands[i])
    decreases |commands|
  {
    if i > 0 {
      LogLinesAt(commands[1..], i - 1);
    }
  }

  /** The effects of running a list of commands. */
  function Runs(commands: seq<string>): (r: seq<Effect>)
    ensures |r| == |commands| && forall i :: 0 <= i < |r| ==> r[i] == Exec(commands[i], [])
    decreases |commands|
  {
    if commands == [] then [] else [Exec(commands[0], [])] + Runs(commands[1..])
  }

  /** On a dry run every command is logged in order and none is run. */
  lemma {:induction false} DryRunLogsOnly(c: Context, commands: seq<string>, fails: string -> bool)
    ensures var r := RunCommands(c, commands, true, fails);
      r.context.logs == c.logs + LogLines(commands) && r.effects == [] && r.failed.None?
    decreases |commands|
  {
    if commands == [] {
      assert c.logs + [] == c.logs;
    } else {
      var c' := LogCommand(c, commands[0], []);
      LogCommandLine(c, commands[0], []);
      DryRunLogsOnly(c', commands[1..], fails);
      assert LogLines(commands) == [Line(commands[0])] + LogLines(commands[1..]);
    }
  }

  /** Otherwise the commands run in order, each after the previous one
      succeeded, up to and including the first that fails, whose failure
      ends the stage. */
  lemma {:induction false} RunsInOrder(c: Context, commands: seq<string>, fails: string -> bool)
    ensures var r := RunCommands(c, commands, false, fails); var ran := UpToFailure(commands, fails);
      r.effects == Runs(ran) && (r.failed.Some? ==> |ran| >= 1 && r.failed.value == ran[|ran| - 1] && fails(r.failed.value))
    decreases |commands|
  {
    if commands != [] && !fails(commands[0]) {
      var c' := LogCommand(c, commands[0], []);
      RunsInOrder(c', commands[1..], fails);
      var ran := UpToFailure(commands[1..], fails);
      assert UpToFailure(commands, fails) == [commands[0]] + ran;
      assert Runs([commands[0]] + ran) == [Exec(commands[0], [])] + Runs(ran);
    }
  }

  /** Each command is logged before it runs. */
  lemma {:induction false} RunLogs(c: Context, commands: seq<string>, fails: string -> bool)
    ensures RunCommands(c, commands, false, fails).context.logs == c.logs + LogLines(UpToFailure(commands, fails))
    decreases |commands|
  {
    if commands == [] {
      assert c.logs + [] == c.logs;
    } else if fails(commands[0]) {
      LogCommandLine(c, commands[0], []);
      assert UpToFailure(commands, fails) == [commands[0]];
    } else {
      RunLogs(LogCommand(c, commands[0], []), commands[1..], fails);
      RunLogsStep(c, commands, fails);
    }
  }

  /** The step of `RunLogs` past a command that succeeds. */
  lemma {:induction false} RunLogsStep(c: Context, commands: seq<string>, fails: string -> bool)
    requires commands != [] && !fails(commands[0])
    requires var c' := LogCommand(c, commands[0], []);
      RunCommands(c', commands[1..], false, fails).context.logs == c'.logs + LogLines(UpToFailure(commands[1..], fails))
    ensures RunCommands(c, commands, false, fails).context.logs == c.logs + LogLines(UpToFailure(commands, fails))
  {
    var x := commands[0];
    var c' := LogCommand(c, x, []);
    LogCommandLine(c, x, []);
    var ran := UpToFailure(commands[1..], fails);
    RunPast(c, commands, fails);
    LogLinesCons(x, ran);
    assert UpToFailure(commands, fails) == [x] + ran;
    assert (c.logs + [Line(x)]) + LogLines(ran) == c.logs + ([Line(x)] + LogLines(ran));
  }

  /** Past a command that succeeds, the run goes on from the context that
      logged it. */
  lemma {:induction false} RunPast(c: Context, commands: seq<string>, fails: string -> bool)
    requires commands != [] && !fails(commands[0])
    ensures RunCommands(c, commands, false, fails).context ==
      RunCommands(LogCommand(c, commands[0], []), commands[1..], false, fails).context
  {
  }

  lemma {:induction false} LogLinesCons(x: string, rest: seq<string>)
    ensures LogLines([x] + rest) == [Line(x)] + LogLines(rest)
  {
    assert ([x] + rest)[1..] == rest;
  }

  /** A run fails exactly when one of its commands fails. */
  lemma {:induction false} FailsIff(c: Context, commands: seq<string>, fails: string -> bool)
    ensures RunCommands(c, commands, false, fails).failed.Some? <==>
      exists i :: 0 <= i < |commands| && fails(commands[i])
    decreases |commands|
  {
    if commands != [] && !fails(commands[0]) {
      var c' := LogCommand(c, commands[0], []);
      FailsIff(c', commands[1..], fails);
      if exists i :: 0 <= i < |commands| && fails(commands[i]) {
        var i :| 0 <= i < |commands| && fails(commands[i]);
        assert commands[1..][i - 1] == commands[i];
      }
      if exists i :: 0 <= i < |commands| - 1 && fails(commands[1..][i]) {
        var i :| 0 <= i < |commands| - 1 && fails(commands[1..][i]);
        assert commands[i + 1] == commands[1..][i];
      }
    }
  }

  /** A stage without configured commands, or with the empty string, does
      nothing at all. */
  lemma {:induction false} NothingConfigured(c: Context, commands: Entries<string, Commands>, stageId: string, dryRun: bool, fails: string -> bool)
    requires stageId !in Keys(commands) || Get(commands, stageId) == Some(One(""))
    ensures ExecuteStage(c, commands, stageId, dryRun, fails) == ExecRun(c, [], None)
  {
  }

  /** The configuration of packages/plugin-exec/src/index.test.ts. */
  function TestCommands(): Entries<string, Commands> {
    [("before_check", One("echo before_check")), ("after_push", One("echo after_push"))]
  }

  /** One command that succeeds: it is logged and run. */
  lemma {:induction false} RunOne(c: Context, command: string, fails: string -> bool)
    requires !fails(command)
    ensures RunCommands(c, [command], false, fails).effects == [Exec(command, [])]
  {
    RunsInOrder(c, [command], fails);
    assert UpToFailure([command], fails) == [command];
  }

  /** Running `before_check` runs its own command and not `after_push`'s,
      and running `after_push` runs that one. */
  lemma {:induction false} BeforeCheckRunsItsOwn(c: Context, fails: string -> bool)
    requires !fails("echo before_check") && !fails("echo after_push")
    ensures ExecuteStage(c, TestCommands(), "before_check", false, fails).effects == [Exec("echo before_check", [])]
    ensures ExecuteStage(c, TestCommands(), "after_push", false, fails).effects == [Exec("echo after_push", [])]
  {
    var cmds := TestCommands();
    assert Keys(cmds) == ["before_check", "after_push"];
    assert Get(cmds, "before_check") == Some(One("echo before_check"));
    assert Get(cmds, "after_push") == Some(One("echo after_push"));
    RunOne(c, "echo before_check", fails);
    RunOne(c, "echo after_push", fails);
  }

  /** `init` on that configuration: a stage before `check` and one after
      `push`. */
  lemma {:induction false} TestStages()
    ensures Init(TestCommands()) == [
      Stage("before_check", None, None, None, Some(["check"])),
      Stage("after_push", None, None, Some(["push"]), None)]
  {
    var b, a := "before_" + "check", "after_" + "push";
    assert b == "before_check" && a == "after_push";
    HookStages("check");
    HookStages("push");
    InitTwo(b, a, One("echo before_check"), One("echo after_push"));
  }

  /** `init` on an object of two keys. */
  lemma {:induction false} InitTwo(a: string, b: string, x: Commands, y: Commands)
    requires a != b
    ensures Init([(a, x), (b, y)]) == [StageFor(a), StageFor(b)]
  {
    var cmds := [(a, x), (b, y)];
    assert Keys(cmds) == [a, b];
    InitSpec(cmds);
  }
}
