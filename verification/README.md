# release-script: the plugin and stage scheduler, in Dafny

This project models the core of AlCalzone's `release-script` and proves
properties of the model.

## The scheduler

The centre is the scheduler in `packages/core`:

- `resolvePlugins` loads the chosen plugins together with everything they
  depend on, in dependency order.
- `planStages` collects the stages the plugins contribute and orders them
  by `after`.
- `planStage` orders the plugins that take part in one stage by their
  `stageDependencies`.
- `execute` runs the planned stages in order, calling each planned
  plugin's `executeStage` once, and stops at the first call that throws.

All three planning passes rest on one stable topological sort. It is
Kahn's algorithm with a first-in-first-out queue, and it is written here
as a terminating worklist function over node positions.

JavaScript `Map`s and `Set`s are modelled as duplicate-free sequences in
insertion order (`OrderedMap`, `Seqs`). A `ConstOrDynamic` value (a list,
or a callback producing one) is modelled as the value the callback
produces. The only state kept is the write-back that turns a
function-valued `stages` into its list.

The planner is modelled as `planner.ts` is written. It reads only `after`
and `stageDependencies`, never seeds the default stages, and `execute`
does not look at `continueOnError`. The `continueOnError` policy of
`stage.ts` is stated on its own in `Stages`, and nothing else uses it.

## Around the scheduler

- The run context of `packages/release-script/src/index.ts`. This covers:
  - the data store with its fail-fast `getData`;
  - the `log`/`warn`/`error`/`fatal` channels;
  - the chosen plugin ids;
  - the exit status of `main`;
  - the colour `colorizePrefix` picks.
- The plugins' decision logic, each a pure function of what was already
  read:
  - git: the identity test, the branch-status table and the commit
    message;
  - exec: stages from command keys, and running commands;
  - ioBroker: `io-package.json` and the release-workflow scan;
  - lerna: `lerna.json`;
  - package: `package.json`;
  - license: copyright years.
- The git status classifier of `src/gitStatus.ts` and its copy in the git
  plugin. The copy differs in not trimming the porcelain output.
- The changelog helpers of `src/tools.ts`:
  - extracting the current section;
  - `prependKey` and `limitKeys`;
  - the news clean-up;
  - `splitChangelog`;
  - `insertIntoChangelog`.
  The clean-up with the wider name class of the ioBroker plugin is
  modelled too.

A plugin stage returns its new context together with the side effects it
asks for (writing a file, running a command), or the error it throws.
These inputs are parameters:

- file contents, JSON files (missing, malformed, or parsed) and the
  answers git gives to the git plugin, each of which may be a failure
  (the classifier of `src/gitStatus.ts` is given the text its two
  commands print, so their failures are not modelled there);
- whether each `executeStage` call returns or throws, in `execute`;
- whether a command fails;
- semver's validity test;
- `path.join`;
- the current year.

## Modules

- `Wrappers`: `Option` and `Result`.
- `Seqs`: the `Set` helpers and `distinct`.
- `OrderedMap`: the insertion-ordered `Map` and plain object.
- `Text`:
  - `trim`, `indexOf`, `split` and `join`;
  - line starts under the `m` flag;
  - the `\r\n` clean-up;
  - decimal numbers.
- `Graph`: the topological sort.
- `GraphExamples`: the four cases of `graph.test.ts`.
- `Stages`: `Stage`, `DefaultStages` and the `continueOnError` policy.
- `Scheduling`: building a graph from id lists, and the planners' errors.
- `Planner`: `resolvePlugins`.
- `StagePlanner`: `planStages` and `planStage`.
- `Executor`: `execute`.
- `ReleaseScript`: the run context, the chosen plugins, the exit status and
  `colorizePrefix`.
- `GitStatus`: `gitStatus` in both copies.
- `GitPlugin`, `ExecPlugin`, `IobrokerPlugin`, `LernaPlugin`,
  `PackagePlugin`, `LicensePlugin`: the plugins.
- `Changelog`: `extractCurrentChangelog`, `prependKey`, `limitKeys` and
  `insertIntoChangelog`.
- `ChangelogClean`: `cleanChangelogForNews` of `src/tools.ts`.
- `IobrokerTools`: the ioBroker plugin's `cleanChangelogForNews`.
- `ChangelogSplit`: `splitChangelog`.

The workflow scan of the ioBroker plugin searches for `/^[ \t]+if: |/gm`.
The `|` in it is an alternation with the empty pattern, and the empty
pattern matches at index 0. That search therefore never moves the scan.
The model keeps this reading (`IobrokerPlugin.BaseRefAfter`).

The source and its tests disagree in a few places. The model follows the
code:

- The lerna tests put `amend` and `push` at the top of `lerna.json`, but
  the code reads them from `command.version`.
- The package tests expect a commit stage, but the plugin takes part only
  in check and edit.

## Model

| member | source | states |
|---|---|---|
| Graph.SortIndices | packages/core/src/lib/graph.test.ts:6-24 | a successful sort lists every node exactly once, each after all the nodes it has edges to |
| Graph.SortSucceedsIff | packages/core/src/lib/graph.test.ts:6-34 | the sort succeeds exactly when some dependency-first order of all nodes exists |
| Graph.CycleFails | packages/core/src/lib/graph.test.ts:26-34 | any cycle of edges makes the sort fail |
| Graph.NoEdgesKeepsOrder | packages/core/src/lib/graph.test.ts:36-41 | nodes without edges come out in input order |
| Graph.SortIgnoresEdgeOrder | packages/core/src/lib/graph.test.ts:6-41 | the result depends only on the node order and on which edges exist, not on the order the edges were added |
| Graph.TopologicalSort | packages/core/src/lib/graph.test.ts:6-41 | sorting payloads succeeds exactly when sorting positions does, and returns one payload per node |
| GraphExamples.SortsTest1 | packages/core/src/lib/graph.test.ts:6-14 | edges 1→2, 1→3, 2→4, 3→4 sort to exactly [4, 2, 3, 1] |
| GraphExamples.SortsTest2 | packages/core/src/lib/graph.test.ts:16-24 | edges 1→4, 1→3, 4→2, 3→4 sort to exactly [2, 4, 3, 1] |
| GraphExamples.SortsTest3 | packages/core/src/lib/graph.test.ts:26-34 | the cycle 1→2→4→3→1 makes the sort fail |
| GraphExamples.SortsTest4 | packages/core/src/lib/graph.test.ts:36-41 | with only 2→3 the result is exactly [1, 3, 4, 2] |
| OrderedMap.PutSpec | packages/core/src/lib/planner.ts:52-54 | `Map.set` keeps keys distinct, keeps a present key in its place and appends a new one, and changes only that key's value |
| OrderedMap.PutAllSpec | packages/core/src/lib/planner.ts:52-54 | after a run of `set`s the keys are the first occurrences in order and each value is the one set last |
| Seqs.DistinctSpec | packages/core/src/lib/planner.ts:12 | `new Set(xs)` holds each element of `xs` once and nothing else |
| Seqs.DistinctNoDup | packages/release-script/src/index.ts:206-215 | `distinct` of a list without repeats is that list, unchanged and in order |
| Stages.DefaultStagesShape | packages/core/src/lib/stage.ts:22-43 | the registry holds exactly check, edit, commit, push and cleanup, each under its own id |
| Stages.DefaultLinks | packages/core/src/lib/stage.ts:23-42 | `check` alone has no `after`, every other default follows its predecessor, and none declares `before` |
| Stages.ChainOnlyOrder | packages/core/src/lib/stage.ts:27-42 | the only dependency-first order of the defaults is check, edit, commit, push, cleanup |
| Stages.DefaultsSortInOrder | packages/core/src/lib/stage.ts:22-43 | sorting the defaults by their `after` links returns them in registry order |
| Stages.AbsentMeansStop | packages/core/src/lib/stage.ts:5-10 | an absent `continueOnError` behaves as `false` |
| Stages.DryRunOnlyPolicy | packages/core/src/lib/stage.ts:5-10 | `"dry-run"` acts as `true` in a dry run and as `false` otherwise |
| Stages.DefaultsStopOnErrors | packages/core/src/lib/stage.ts:5-43 | under the documented default, none of the five default stages lets a run go on after errors |
| Scheduling.UnknownPluginMessage | packages/core/src/lib/planner.ts:14-16 | the unknown-plugin error message quotes the missing id |
| Scheduling.UnknownStageDependencyMessage | packages/core/src/lib/planner.ts:63-65 | the unknown-stage-dependency message quotes the stage and the dependency |
| Scheduling.UnknownPluginDependencyMessage | packages/core/src/lib/planner.ts:96-99 | the unknown-plugin-dependency message quotes the plugin, the dependency and the stage |
| Scheduling.ScheduleSpec | packages/core/src/lib/planner.ts:26-36 | sorting nodes named by ids succeeds exactly when a dependency-first naming order exists, and returns the nodes in such an order |
| Scheduling.PlanMapSpec | packages/core/src/lib/planner.ts:57-70 | planning the nodes of a `Map` succeeds exactly when they can be listed once each, dependencies first, and then returns such a list |
| Scheduling.PlanMapFails | packages/core/src/lib/planner.ts:62-65 | a plan fails with the first unknown dependency in map order, or only with a cycle when every dependency is known |
| Planner.Lookup | packages/core/src/lib/planner.ts:8 | the plugin map finds the last plugin registered under an id, and nothing when no plugin has it |
| Planner.Closure | packages/core/src/lib/planner.ts:11-24 | the walk returns each needed id once, including every chosen id and every dependency of a collected id, or fails with an id that has no plugin |
| Planner.ResolveOrder | packages/core/src/lib/planner.ts:7-37 | `resolvePlugins` returns the needed plugins once each, each the last registered under its id, each after its dependencies |
| Planner.ResolveSucceedsIff | packages/core/src/lib/planner.ts:7-37 | `resolvePlugins` succeeds exactly when such a load order exists |
| Planner.ResolveUnknownIff | packages/core/src/lib/planner.ts:13-16 | it throws `Unknown plugin` exactly when no set of registered plugins holds the chosen ids and their dependencies |
| StagePlanner.Memoise | packages/core/src/lib/planner.ts:44-50 | the write-back leaves `stages` a list with the same stages, and leaves a plugin without a callback unchanged |
| StagePlanner.MemoiseAllSpec | packages/core/src/lib/planner.ts:42-50 | after pass 1 every plugin holds its resolved stage list under the same id, and a second write-back changes nothing |
| StagePlanner.ContributedSpec | packages/core/src/lib/planner.ts:42-55 | an id is contributed exactly when some plugin lists a stage with it; plugins without stages contribute nothing |
| StagePlanner.StageMapSpec | packages/core/src/lib/planner.ts:52-54 | the stage nodes are the contributed ids in order of first contribution, each holding the stage contributed last |
| StagePlanner.PlanStagesSpec | packages/core/src/lib/planner.ts:39-71 | `planStages` succeeds exactly when the stages can be ordered after their `after` ids, returns such an order, and otherwise names the first unknown `after` id or a cycle |
| StagePlanner.PlanStagesMemoised | packages/core/src/lib/planner.ts:44-50 | planning the stages again after the write-back gives the same plan |
| StagePlanner.Participants | packages/core/src/lib/planner.ts:74-77 | the filter keeps exactly the plugins that list the stage, in plugin order, and throws on a plugin whose `stages` is still a callback |
| StagePlanner.PluginMap | packages/core/src/lib/planner.ts:80-83 | the plugin nodes are the participants' ids, once each, in first-seen order |
| StagePlanner.PlanStageSpec | packages/core/src/lib/planner.ts:73-106 | on resolved plugins `planStage` succeeds exactly when the participants can be ordered after their dependencies, and otherwise names the first unknown dependency or a cycle |
| StagePlanner.PlanStageUnresolved | packages/core/src/lib/planner.ts:74-77 | only an unresolved `stages` callback makes the filter throw |
| StagePlanner.PlanStageOrder | packages/core/src/lib/planner.ts:86-105 | a stage plan lists distinct plugin ids, only participants, each after the plugins it depends on in that stage |
| StagePlanner.PlanStageMembers | packages/core/src/lib/planner.ts:74-83 | with distinct plugin ids the stage plan holds exactly the plugins listing the stage |
| Executor.Batch | packages/core/src/lib/planner.ts:113-115 | one stage calls each planned plugin once, in plan order |
| Executor.PlannedStops | packages/core/src/lib/planner.ts:111-116 | when every call returns, planning reports no error exactly when every stage planned; an error is the first failing stage's, after exactly the calls of the stages before it |
| Executor.PlannedMembers | packages/core/src/lib/planner.ts:111-116 | when every stage plans, the calls are exactly the planned plugins of each stage |
| Executor.PlannedGrouped | packages/core/src/lib/planner.ts:111-116 | the planned calls come stage by stage, in stage order |
| Executor.PlannedDepsFirst | packages/core/src/lib/planner.ts:111-116 | within a stage every plugin is called after the plugins it depends on there |
| Executor.PlannedOnce | packages/core/src/lib/planner.ts:111-116 | no (stage, plugin) pair is planned twice |
| Executor.Returning | packages/core/src/lib/planner.ts:114 | the number of calls before the first that throws: all of those return, and the next one throws |
| Executor.RunBatchCut | packages/core/src/lib/planner.ts:113-115 | one stage's calls stop right after the first `executeStage` that throws, and that call's error is the stage's |
| Executor.RunStagesCut | packages/core/src/lib/planner.ts:110-116 | the loop with throwing calls is the loop where every call returns, cut right after the first call that throws |
| Executor.RunStagesStops | packages/core/src/lib/planner.ts:110-116 | the loop makes a prefix of the planned calls; when a call throws it is the last one made, every earlier one returned, and its error is the loop's; otherwise every planned call is made and the planning error, if any, is reported; no error exactly when every stage planned and every planned call returns |
| Executor.RunStagesGroupedOnce | packages/core/src/lib/planner.ts:110-116 | whether or not a call throws, no (stage, plugin) pair is called twice and the calls come stage by stage |
| Executor.PrefixGrouped | packages/core/src/lib/planner.ts:110-116 | stopping early keeps the calls distinct and in stage order |
| Executor.ExecutePrefix | packages/core/src/lib/planner.ts:109-117 | `execute` makes a prefix of the calls it would make if every call returned |
| Executor.ExecuteResolves | packages/core/src/lib/planner.ts:109-117 | `execute` leaves every `stages` resolved and never meets an unresolved one |
| Executor.ExecuteStagesFail | packages/core/src/lib/planner.ts:110 | a failure while planning the stages calls nothing and is the error `execute` rejects with |
| Executor.ExecuteStops | packages/core/src/lib/planner.ts:109-117 | `execute` rejects with the error of the first `executeStage` call that throws, which is its last call, after calls that all returned; it finishes without an error exactly when all stages plan and every planned call returns, and then it made every planned call |
| Executor.ExecuteGrouped | packages/core/src/lib/planner.ts:109-117 | `execute` calls each (stage, plugin) pair at most once, stage by stage in planned order |
| Executor.ExecuteDepsFirst | packages/core/src/lib/planner.ts:109-117 | `execute` calls each plugin after the plugins it depends on in that stage |
| Executor.ExecuteCalls | packages/core/src/lib/planner.ts:109-117 | with distinct ids and planned stages, every call `execute` makes is of a planned stage and a plugin listing it; when no call throws and every stage plans, it calls exactly those pairs |
| ReleaseScript.Fatal | packages/release-script/src/index.ts:82-84 | `cli.fatal` always throws a `ReleaseError` marked fatal |
| ReleaseScript.GetData | packages/release-script/src/index.ts:261-270 | `getData` returns the stored value when the key is present, and otherwise throws a fatal error naming the key |
| ReleaseScript.DataStoreLaws | packages/release-script/src/index.ts:261-274 | after `setData(key, v)`, `getData(key)` is `v`, every other key reads as before, and `hasData` gains exactly `key` |
| ReleaseScript.ReplayHas | packages/release-script/src/index.ts:271-274 | after a run of `setData` calls on an empty store, `hasData(k)` holds exactly when one of them set `k` |
| ReleaseScript.ReplayGet | packages/release-script/src/index.ts:261-274 | after a run of `setData` calls, `getData(k)` returns the value of the last call that set `k` |
| ReleaseScript.Warn | packages/release-script/src/index.ts:64-72 | `cli.warn` appends the message to the warnings and touches neither the errors, the logs nor the data |
| ReleaseScript.Error | packages/release-script/src/index.ts:73-81 | `cli.error` appends the message to the errors and touches neither the warnings, the logs nor the data |
| ReleaseScript.LogCommandLine | packages/release-script/src/index.ts:85-90 | `logCommand` logs `$ command` alone without arguments, and with arguments adds one space and the arguments joined by spaces |
| ReleaseScript.ChosenPluginsSpec | packages/release-script/src/index.ts:206-215 | the chosen ids start with git, package, exec, version and changelog, hold each id once, and are exactly those and the user's ids |
| ReleaseScript.ExitStatusAsWritten | packages/release-script/src/index.ts:287-325 | as written, a run that does not throw exits with 1 exactly when some error was recorded |
| ReleaseScript.ExitStatus | packages/release-script/src/index.ts:287-325 | with the fatal code honoured, a run that does not throw still exits with 1 exactly when some error was recorded |
| ReleaseScript.ErrorsDecideExit | packages/release-script/src/index.ts:287-303 | a completed run exits 0 without errors and 1 with them; a warning changes nothing and one more error always fails the run |
| ReleaseScript.FatalCodeIgnored | packages/release-script/src/index.ts:325 | as written, `cli.fatal(msg, code)` makes the run exit with 1 whatever the code |
| ReleaseScript.FatalCodeKept | packages/core/src/lib/error.ts:5-10 | with the code honoured a fatal error exits with its code, or 1 without one, and otherwise the two readings agree |
| ReleaseScript.ColorizePrefix | packages/release-script/src/index.ts:42-51 | a prefix without ':' is white and leaves the used list alone; otherwise its short form is added to the used list once |
| ReleaseScript.ColorizeAllSpec | packages/release-script/src/index.ts:41-51 | the used list only grows at its end, and a prefix with ':' gets the colour at its short form's first-seen index modulo 7 |
| ReleaseScript.SameShortSameColour | packages/release-script/src/index.ts:42-51 | prefixes with the same part after the last ':' always get the same colour |
| GitStatus.ToNumber | src/gitStatus.ts:23 | `Number` of a field of digits, after trimming, is their decimal value |
| GitStatus.ParseFields | src/gitStatus.ts:23 | the second count is `undefined` exactly when the output has no tab |
| GitStatus.Classify | src/gitStatus.ts:37-45 | diverged exactly when both counts are positive, behind exactly when local is 0 and remote positive, uncommitted exactly when neither holds and the probe says so |
| GitStatus.ProbeOnlyWhenNeeded | src/gitStatus.ts:37-42 | the uncommitted-changes answer matters only when the branch is neither diverged nor behind |
| GitStatus.CountsTable | src/gitStatus.ts:35-46 | on numeric counts the five statuses are decided exactly by the counts and the probe, one status per case |
| GitStatus.Unparsable | src/gitStatus.ts:16-46 | output without a tab is never diverged or behind |
| GitStatus.GitStatus | src/gitStatus.ts:26-45 | uncommitted is reported only when the trimmed porcelain output is non-empty |
| GitStatus.PluginGitStatus | packages/plugin-git/src/index.ts:42-58 | the git plugin reports uncommitted only for non-empty porcelain output |
| GitStatus.RevListCounts | src/gitStatus.ts:16-24 | rev-list output `L\tR` with trailing white space parses back to the pair (L, R) |
| GitStatus.CountsParsed | packages/plugin-git/src/index.ts:28-40 | the untrimmed output `L\tR` parses to the pair (L, R) |
| GitStatus.PluginAgrees | packages/plugin-git/src/index.ts:28-58 | the plugin's copy classifies as `src/gitStatus.ts` does, unless the porcelain output is white space only |
| GitStatus.WhitespacePorcelain | packages/plugin-git/src/index.ts:42-45 | white-space-only porcelain output is uncommitted for the plugin but not for `src/gitStatus.ts` |
| GitPlugin.IdentityIff | packages/plugin-git/src/index.ts:10-18 | an identity is present exactly when both settings could be read and neither is empty |
| GitPlugin.Target | packages/plugin-git/src/index.ts:20-35 | a configured remote is compared with as it is; otherwise the awaited upstream query gives the target, or its failure |
| GitPlugin.StatusOf | packages/plugin-git/src/index.ts:28-58 | the status query fails exactly when `rev-list` fails or when the porcelain probe is needed and fails, and otherwise classifies the counts and the porcelain output |
| GitPlugin.StatusQuery | packages/plugin-git/src/index.ts:20-58 | without a remote, a failed upstream query is the failure of the status query |
| GitPlugin.PromiseQueried | packages/plugin-git/src/index.ts:28-36 | as written, without a remote the range names `[object Promise]`, which git rejects, so the status query and the check fail |
| GitPlugin.UpstreamCompared | packages/plugin-git/src/index.ts:20-58 | with the upstream awaited, its counts classify the branch, its failure fails the query, and a configured remote is queried as written |
| GitPlugin.CheckStage | packages/plugin-git/src/index.ts:72-120 | the check throws exactly without identity, when the status query throws (passing its error on), or on a diverged or behind branch; otherwise it adds one error only for uncommitted changes without `includeUnstaged` |
| GitPlugin.IdentityFirst | packages/plugin-git/src/index.ts:74-93 | without identity the check fails the same way whatever the branch status |
| GitPlugin.CheckStageTable | packages/plugin-git/src/index.ts:99-119 | diverged and behind are fatal with their messages, ahead and up-to-date log the good status, uncommitted adds one error unless `includeUnstaged` |
| GitPlugin.CheckOnCounts | packages/plugin-git/src/index.ts:47-119 | on rev-list counts the check fails exactly when the remote is ahead, and passes cleanly with no remote commits and no local changes |
| GitPlugin.CommitMessageParts | packages/plugin-git/src/index.ts:127-131 | the commit message's first line names the version, an empty line follows, then the changelog unchanged |
| GitPlugin.PluginStages | packages/plugin-git/src/index.ts:62-67 | the plugin takes part in check, commit, push and cleanup |
| GitPlugin.ExecuteStage | packages/plugin-git/src/index.ts:122-138 | the check stage fails exactly when the check does, passing on a failed upstream query; any other stage does nothing, no stage changes the data, and the commit stage writes one file |
| GitPlugin.CommitStageWrites | packages/plugin-git/src/index.ts:125-131 | the commit stage writes `chore: release v<version_new>`, an empty line and `changelog_new` to `.commitmessage`, and fails fatally when either value is missing |
| ExecPlugin.InitFrom | packages/plugin-exec/src/index.ts:11-16 | without `exec_commands` the key listing throws a `TypeError`; otherwise there is one stage per key, in key order |
| ExecPlugin.StageFor | packages/plugin-exec/src/index.ts:19-35 | a key becomes a stage with that id, the registry's own stage for a default id, and a stage with no flags otherwise |
| ExecPlugin.HookStages | packages/plugin-exec/src/index.ts:21-30 | `before_X` becomes a stage before X and `after_X` a stage after X, with nothing else set |
| ExecPlugin.DefaultIdsOnly | packages/plugin-exec/src/index.ts:19 | a key names a default stage exactly when it is one of the five registry ids |
| ExecPlugin.PlainStage | packages/plugin-exec/src/index.ts:31-35 | any other key becomes a stage with only an id |
| ExecPlugin.InitSpec | packages/plugin-exec/src/index.ts:15-37 | `init` yields exactly one stage per key of `exec_commands`, in key order |
| ExecPlugin.InitStages | packages/plugin-exec/src/index.ts:15-37 | each stage of `init` carries its key as id, with the `before_` test made before the `after_` test |
| ExecPlugin.InitTwo | packages/plugin-exec/src/index.ts:15-37 | two distinct keys give their two stages, in order |
| ExecPlugin.CommandList | packages/plugin-exec/src/index.ts:47-53 | a non-empty string becomes a one-command list, a list stays as it is, and a missing or empty entry gives no commands |
| ExecPlugin.RunCommands | packages/plugin-exec/src/index.ts:57-68 | a dry run runs nothing and never fails; at most one line is logged per command and nothing but the logs changes |
| ExecPlugin.DryRunLogsOnly | packages/plugin-exec/src/index.ts:57-60 | a dry run logs `$ <command>` for every command, in order, and runs none |
| ExecPlugin.RunsInOrder | packages/plugin-exec/src/index.ts:57-67 | the commands run in list order up to and including the first failing one, which is reported |
| ExecPlugin.RunLogs | packages/plugin-exec/src/index.ts:57-58 | each command that is run is logged first, in order |
| ExecPlugin.FailsIff | packages/plugin-exec/src/index.ts:57-67 | a stage fails exactly when one of its commands fails |
| ExecPlugin.NothingConfigured | packages/plugin-exec/src/index.ts:47-48 | a stage with no commands configured does nothing |
| ExecPlugin.RunOne | packages/plugin-exec/src/index.ts:51-67 | a single command that succeeds is run once |
| ExecPlugin.TestStages | packages/plugin-exec/src/index.test.ts:10-19 | the test's keys give a stage before check and a stage after push |
| ExecPlugin.BeforeCheckRunsItsOwn | packages/plugin-exec/src/index.test.ts:5-33 | the `before_check` stage runs only its own command, and `after_push` runs its own |
| IobrokerPlugin.PluginStages | packages/plugin-iobroker/src/index.ts:10-14 | the plugin takes part in check and edit |
| IobrokerPlugin.CompareVersions | packages/plugin-iobroker/src/index.ts:51-65 | exactly one of a soft error or the ok line follows, and the error names a missing or invalid version; only a missing `version` in the store throws |
| IobrokerPlugin.CheckIoPackage | packages/plugin-iobroker/src/index.ts:39-69 | a missing `io-package.json` is fatal, a malformed one throws the JSON reader's error, and otherwise its contents are stored and exactly one error or log line is added |
| IobrokerPlugin.VersionFieldOf | packages/plugin-iobroker/src/index.ts:51 | the version read is `common.version`, taking the last of repeated keys |
| IobrokerPlugin.VersionsAgree | packages/plugin-iobroker/src/index.ts:56-64 | a valid version equal to the stored one logs the ok line and stores the file |
| IobrokerPlugin.VersionsDiffer | packages/plugin-iobroker/src/index.ts:57-61 | a valid version different from the stored one gives the mismatch error and stores the file |
| IobrokerPlugin.IndentedAtIff | packages/plugin-iobroker/src/index.ts:79 | reading `[ \t]+` greedily finds exactly the matches of the pattern with backtracking |
| IobrokerPlugin.FirstMatch | packages/plugin-iobroker/src/index.ts:79-88 | a search returns the first match at or after its start, or none when there is none |
| IobrokerPlugin.SearchFrom | packages/plugin-iobroker/src/index.ts:81-88 | searching the text cut at a line start is searching the whole text from that position |
| IobrokerPlugin.ReportedLine | packages/plugin-iobroker/src/index.ts:90-91 | the reported line runs up to the next line break, and is empty when none follows |
| IobrokerPlugin.CheckWorkflow | packages/plugin-iobroker/src/index.ts:71-101 | the scan adds at most the one workflow error, and nothing when there is no workflow file |
| IobrokerPlugin.WorkflowReads | packages/plugin-iobroker/src/index.ts:79-91 | the line reported is the one at the first `base_ref` test at or after the first `deploy:` key |
| IobrokerPlugin.BaseRefAfter | packages/plugin-iobroker/src/index.ts:83-88 | the `if:` search never moves the scan, so `base_ref` is searched from the `deploy:` line on |
| IobrokerPlugin.WorkflowIff | packages/plugin-iobroker/src/index.ts:79-93 | the workflow error is raised exactly when an indented `deploy:` line has an indented `base_ref` test at or after it |
| IobrokerPlugin.ExecuteStage | packages/plugin-iobroker/src/index.ts:103-110 | only the check stage does anything; it fails exactly when the `io-package.json` check does and never warns |
| IobrokerPlugin.NoWorkflowCheck | packages/plugin-iobroker/src/index.ts:106-108 | with `--no-workflow-check` the workflow file does not matter |
| LernaPlugin.PluginStages | packages/plugin-lerna/src/index.ts:9 | the plugin takes part in check and commit |
| LernaPlugin.VersionProblem | packages/plugin-lerna/src/index.ts:29-35 | a version passes exactly when it is a non-empty string, not `independent`, and valid semver |
| LernaPlugin.CheckOptions | packages/plugin-lerna/src/index.ts:38-51 | a defined `amend` warns, `push: true` warns, `push: false` adds an error, and nothing else changes |
| LernaPlugin.CheckStage | packages/plugin-lerna/src/index.ts:21-56 | the check fails exactly for a missing or malformed file or a version problem, fatally unless the JSON reader threw, and otherwise logs the ok line |
| LernaPlugin.CheckStores | packages/plugin-lerna/src/index.ts:53-54 | a passing check stores the version and lerna mode, and the version is valid semver |
| LernaPlugin.IndependentRejected | packages/plugin-lerna/src/index.ts:31-32 | `independent` is rejected with its own message whatever semver says |
| LernaPlugin.PushFalseNotFatal | packages/plugin-lerna/src/index.ts:47-51 | `push: false` adds one error but the check still passes |
| LernaPlugin.CommitStage | packages/plugin-lerna/src/index.ts:58-68 | the commit stage fails exactly without `version_new`; a dry run only logs, a real run only runs one command |
| LernaPlugin.CommitCommand | packages/plugin-lerna/src/index.ts:58-67 | the command run is `lerna version <version_new> --amend`, the same one a dry run logs |
| LernaPlugin.ExecuteStage | packages/plugin-lerna/src/index.ts:70-76 | check and commit go to their stages and any other stage does nothing |
| PackagePlugin.PluginStages | packages/plugin-package/src/index.ts:9 | the plugin takes part in check and edit |
| PackagePlugin.CheckStage | packages/plugin-package/src/index.ts:14-31 | the check fails exactly for a missing or malformed file, an invalid version, or a missing version outside lerna mode, fatally unless the JSON reader threw, and otherwise stores the file |
| PackagePlugin.LernaExcusesMissingOnly | packages/plugin-package/src/index.ts:22-27 | lerna mode excuses a missing version only, never an invalid one |
| PackagePlugin.EditStage | packages/plugin-package/src/index.ts:33-48 | the edit logs one line; a dry run changes nothing else, and a real run writes `package.json` once |
| PackagePlugin.EditWritesVersion | packages/plugin-package/src/index.ts:43-47 | the file written has `version_new` as its version and every other field unchanged, and the store holds the same object |
| PackagePlugin.ExecuteStage | packages/plugin-package/src/index.ts:50-59 | the edit stage does nothing in lerna mode, and other stages do nothing |
| PackagePlugin.LernaCheckSkipsEdit | packages/plugin-package/src/index.ts:22-24 | after lerna's check passes, a missing version passes the package check and the edit stage is skipped |
| LicensePlugin.PluginStages | packages/plugin-license/src/index.ts:10 | the plugin takes part in the check stage only |
| LicensePlugin.YearValueDecimal | packages/plugin-license/src/index.ts:48 | `parseInt` of four digits is their decimal value |
| LicensePlugin.MatchAtShape | packages/plugin-license/src/index.ts:41-42 | a match is the keyword, an optional `(c)`, then a year or a year range; the compared year is the last four digits and the range is quoted verbatim |
| LicensePlugin.MatchAtIff | packages/plugin-license/src/index.ts:41-42 | a match starts at a position exactly when the keyword is there and four digits follow where the pattern expects them |
| LicensePlugin.NextMatchLeftmost | packages/plugin-license/src/index.ts:45 | `exec` finds the leftmost match at or after its position |
| LicensePlugin.MatchesFound | packages/plugin-license/src/index.ts:45 | every match the loop finds is a match of the pattern |
| LicensePlugin.MatchesComplete | packages/plugin-license/src/index.ts:45 | the loop misses no match: every position where one starts lies inside a match found |
| LicensePlugin.LatestSpec | packages/plugin-license/src/index.ts:45-52 | the notice kept has the highest year, and is the first with that year |
| LicensePlugin.CheckFile | packages/plugin-license/src/index.ts:36-63 | a file adds at most one error, and a file that does not exist adds nothing |
| LicensePlugin.OutdatedIff | packages/plugin-license/src/index.ts:54-62 | a file errs exactly when it has notices and all are before the current year, and the error quotes the latest notice's range |
| LicensePlugin.OneErrorPerOutdatedFile | packages/plugin-license/src/index.ts:36-63 | the check adds exactly one error per outdated file |
| LicensePlugin.HyphenRange | packages/plugin-license/src/index.test.ts:18-36 | `Copyright 2018-2020` matches with range `2018-2020` and year 2020 |
| LicensePlugin.SingleYear | packages/plugin-license/src/index.test.ts:38-55 | `Copyright 2018` matches with range and year 2018 |
| LicensePlugin.MarkedRange | packages/plugin-license/src/index.test.ts:57-76 | `Copyright (C) 2018 - 2019` matches with range `2018 - 2019` and year 2019 |
| LicensePlugin.ExecuteStage | packages/plugin-license/src/index.ts:23-65 | the stage never throws and has no effects; only the check stage adds errors |
| Changelog.SectionEnd | src/tools.ts:13-18 | the section ends at the first `prefix + " "` at or after its start, or at the end of the text |
| Changelog.SectionEndUnique | src/tools.ts:13-18 | that end is the only position with this property |
| Changelog.ExtractCurrent | src/tools.ts:9-10 | the result is undefined exactly when the placeholder does not match, and is always trimmed |
| Changelog.ExtractSection | src/tools.ts:11-20 | the result is the trimmed text from the end of the match to the section end |
| Changelog.PrependKey | src/tools.ts:23-33 | the new key comes first, the object's keys follow in order, and an existing key takes the object's value |
| Changelog.PrependFresh | src/tools.ts:23-33 | a new key is put in front of the object, which follows unchanged |
| Changelog.LimitKeysSpec | src/tools.ts:35-44 | the result is the first min(count, size) entries, in order |
| Changelog.LimitKeysTwice | src/tools.ts:35-44 | limiting twice keeps the smaller limit |
| Changelog.NewsUpdate | packages/plugin-iobroker/src/tools.ts:1-15 | prepending a new version and limiting gives that version first, then the previous entries in order |
| Changelog.InsertIntoChangelog | src/tools.ts:123-135 | the result is as long as both texts together |
| Changelog.InsertSpec | src/tools.ts:128-134 | the entries go at the first occurrence of the prefix or at the end, and taking them out gives back the changelog |
| ChangelogClean.Clean | src/tools.ts:53-68 | the cleaned text has no carriage return |
| ChangelogClean.ScanJoin | src/tools.ts:59 | the line-start replacement works line by line |
| ChangelogClean.AuthorOnTaggedLine | src/tools.ts:46 | on `* (name) text` the author pattern matches up to the text and leaves `* text` |
| ChangelogClean.AuthorsPass | src/tools.ts:55-59 | a changelog of author-tagged lines becomes the same lines with plain bullets |
| ChangelogClean.BulletsPass | src/tools.ts:61-66 | on bulleted lines every line passes the test and the bullets are dropped |
| ChangelogClean.CleanTaggedLines | src/tools.ts:53-68 | author-tagged bulleted lines clean to their texts, one per line |
| ChangelogClean.NotAllBulleted | src/tools.ts:61-64 | a text whose first line is neither empty nor bulleted keeps its bullets |
| ChangelogClean.UntrimmedAfterAuthor | src/tools.ts:53-68 | the input is trimmed but the output need not be: for any first line that starts with neither white space nor a bullet, followed by a line `* (name)`, the result is the first line and `\n* `, which ends in a space and so is not its own trim (e.g. `a\n* (x)` gives `a\n* `) |
| ChangelogClean.CleanPlainText | src/tools.ts:53-68 | trimmed text without carriage returns or bullets passes unchanged |
| IobrokerTools.CleanForNews | packages/plugin-iobroker/src/tools.ts:21-34 | the cleaned text has no carriage return |
| IobrokerTools.WiderThanAscii | packages/plugin-iobroker/src/tools.ts:17 | every name character of `src/tools.ts` is one here, and `ü` is one here only |
| IobrokerTools.NameCharIsNameClass | packages/plugin-iobroker/src/tools.ts:17 | neither `)` nor a line break is a name character |
| IobrokerTools.UntrimmedForNews | packages/plugin-iobroker/src/tools.ts:21-34 | the same for the wider name class: a first line followed by `* (name)` cleans to the first line and `\n* `, which is not its own trim |
| IobrokerTools.CleanTagged | packages/plugin-iobroker/src/tools.ts:17-34 | author-tagged bulleted lines clean to their texts for names in the wider class |
| IobrokerTools.RemovesUmlautAuthors | packages/plugin-iobroker/src/tools.test.ts:4-26 | the seven lines `* (Jürgen) Line 1` to `* (Keßler) Line 7` clean to `Line 1` to `Line 7` |
| ChangelogSplit.HeadersFromSpec | src/tools.ts:76-84 | the loop finds exactly the version headers, in text order |
| ChangelogSplit.EntryEndSpec | src/tools.ts:85-92 | an entry takes in its header line and stops at the first following headline of the same or a higher level |
| ChangelogSplit.FirstStartAsWritten | src/tools.ts:96 | `!firstStartIndex` keeps the first non-zero start, or 0 when every start is 0 |
| ChangelogSplit.FirstStartCases | src/tools.ts:96-99 | the start kept is the first header, or the second when the first is at 0, or 0 for a lone header at 0 |
| ChangelogSplit.SplitAgrees | src/tools.ts:96-119 | when no header is at index 0 the code as written and the corrected split agree |
| ChangelogSplit.SplitAsWrittenRepeats | src/tools.ts:96-111 | as written, a header at 0 followed by another repeats the text up to the second header |
| ChangelogSplit.SplitAsWrittenLone | src/tools.ts:99-104 | as written, a lone header at 0 leaves the changelog unchanged |
| ChangelogSplit.SplitLoneMoved | src/tools.ts:107-119 | the corrected split moves a lone entry at 0 into the old changelog when none is to be kept |
| ChangelogSplit.EntriesDisjoint | src/tools.ts:85-92 | with a nested prefix such as `##` an entry never runs past the next header |
| ChangelogSplit.SplitKeepsAll | src/tools.ts:107-119 | keeping at least as many entries as there are gives back the changelog and no old part |
| ChangelogSplit.SplitMoves | src/tools.ts:107-119 | keeping fewer moves exactly the later entries, each less its first character, and the new changelog is the text around them |
| ChangelogSplit.EntryLeadChar | src/tools.ts:116 | every entry starts with the prefix's first character, the one an old entry loses |
| ChangelogSplit.RepeatedEntryExample | src/tools.ts:96-111 | on `## 1.0.1\n## 1.0.0` the code as written repeats the first entry, and the corrected split returns the text unchanged |
| Text.Trim | src/tools.ts:20 | `trim` drops exactly the white space at both ends |
| Text.TrimUnique | src/tools.ts:20 | any text obtained that way is the trimmed text |
| Text.TrimIdempotent | src/tools.ts:56 | trimming twice is trimming once |
| Text.IndexFrom | src/tools.ts:13-17 | `indexOf` from a position finds the first occurrence at or after it, or reports none |
| Text.JoinSplit | src/tools.ts:61 | splitting at a character and joining with it gives back the text |
| Text.SplitJoin | src/tools.ts:61 | joining pieces without the character and splitting gives back the pieces |
| Text.NormalizeNewlines | src/tools.ts:57-58 | after the two replacements no carriage return is left |
| Text.NormalizeNoCr | src/tools.ts:57-58 | a text without carriage returns is left unchanged |
| Text.DecimalValue | src/gitStatus.ts:23 | the decimal text of a count reads back as that count |
| Text.DecimalOfDigits | src/gitStatus.ts:23 | digits without a leading zero are the decimal text of their value |

## Left out

- `packages/core/src/lib/graph.ts` is not part of this model. The sort is
  reconstructed from the cases in `graph.test.ts`, and its error is
  represented by `DependencyCycle`.
- The exact plans that `planner.test.ts` expects are not evaluated. The
  general plan contracts above cover those cases, but not their exact
  tie-breaking.
- Callbacks (`stages`, `stageDependencies`, `ConstOrDynamic`) are modelled
  by the value they produce. `await` and the context argument are not
  modelled.
- `executeStage` bodies are not run from `execute`. The model records the
  calls it makes, and whether each call returns or throws is a function
  of the (stage, plugin) pair. Since the loop makes each such call at most
  once, this is as general as one answer per call.
- `before`, `stageAfter` and `stageBefore` (including `"*"`) are not
  modelled. The planner shown does not read them.
- The extended `rollback` export is left out, because `planner.ts` does not
  contain it.
- yargs option parsing, `defineCLIOptions` and the plugin `import` are left
  out. The chosen ids and the parsed options are inputs.
- Terminal output is reduced to its text:
  - ANSI colours, bold and inverse markup are dropped;
  - `clearLines` and the `[WARN]`/`[ERR]`/`[FATAL]` decorations are
    dropped;
  - messages keep their wording without colour codes.
- The help text after the first line of the missing-git-identity message
  is left out.
- File system access, `execa`/`execSync` and `path.join` are left out.
  File contents, JSON files, git's answers (the upstream query, `rev-list`
  for a given range, `git status --porcelain`) and command failure are
  parameters, and the effects a stage asks for are returned as data.
  A malformed JSON file stands for the reader's `SyntaxError`; its message
  is not modelled.
- The streamed output of a running command is not logged.
- `semver.valid` is a parameter predicate. Its grammar is not modelled.
- Glob expansion in the license plugin is left out. The matching file list
  is a parameter.
- The clock is a parameter: the current year is passed in.
- JSON numbers are integers here, so floating-point numbers are not
  modelled. `Show` prints arrays and objects the way string interpolation
  does only for the shapes used.
- `Number()` is modelled for optional white space around an optional `+`
  or `-` sign and decimal digits. Other spellings (hex, exponents,
  fractions, `Infinity`) give `NaN`.
- `\p{L}\p{M}` is approximated by the letters and marks of the Latin,
  combining-mark and Cyrillic blocks (`IobrokerTools.LetterOrMark`; the
  Cyrillic thousands sign U+0482 is a symbol and is excluded). Letters of
  other scripts are not name characters here.
- IobrokerTools.NameCharIsNameClass: states only what the scan needs of the
  class (no `)` and no line break), not the full Unicode class.
- The iobroker `translate.ts`, the version and manual-review plugins, and
  the legacy `src/release.ts` script are not part of this model.
- ChangelogClean.Clean and IobrokerTools.CleanForNews do not promise a
  trimmed result: the source trims only the input, and the replacement
  `"* "` can leave a trailing space (`ChangelogClean.UntrimmedAfterAuthor`).
- ChangelogSplit.IsHeader matches the prefix literally. The source splices
  `prefix` into a `RegExp` unescaped, so a prefix holding pattern
  characters (`.`, `*`, `(`) would match other text there.
- ExecPlugin.StageFor: `stage in DefaultStages` is also true of names
  inherited from `Object.prototype`, such as `toString` or `constructor`.
  The model tests the five registry ids only, so such keys become plain
  stages here.
- JavaScript's integer-like object keys, which enumerate first, are not
  modelled. Keys are taken in insertion order.

## Findings

| source | as written | input that shows it | evidently intended | confidence | as-written member | corrected member |
|---|---|---|---|---|---|---|
| src/tools.ts:96-99 | `if (!firstStartIndex)` treats a first header at index 0 as unset, so the start becomes the second header's index | the changelog `## 1.0.1\n## 1.0.0` with prefix `##` and five entries to keep gives `## 1.0.1\n## 1.0.1\n## 1.0.0` | the first entry starts at the first header found, also at index 0, and the changelog comes back unchanged | high, not executed | ChangelogSplit.SplitAsWritten, ChangelogSplit.RepeatedEntryExample | ChangelogSplit.Split, ChangelogSplit.SplitKeepsAll |
| packages/plugin-git/src/index.ts:35 | the range is `HEAD...${remote || getUpstream(cwd)}`, and `getUpstream` is not awaited, so without a remote the template interpolates a `Promise` | a context without `remote`, as `main` builds it: git is asked for `HEAD...[object Promise]`, which is no valid revision, and the check throws | the upstream is awaited and the branch is compared with it; a missing upstream fails the check with git's error | high, not executed | GitPlugin.StatusAsWritten, GitPlugin.PromiseQueried | GitPlugin.StatusQuery, GitPlugin.UpstreamCompared |
| packages/release-script/src/index.ts:325 | the exit status is `e.code ?? 1`, but `ReleaseError` stores its code as `exitCode` | `cli.fatal("msg", 2)` makes the run exit with 1 | a fatal error exits with the code given to `cli.fatal` | medium, not executed | ReleaseScript.ExitStatusAsWritten, ReleaseScript.FatalCodeIgnored | ReleaseScript.ExitStatus, ReleaseScript.FatalCodeKept |
