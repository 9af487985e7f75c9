/** The run context of packages/release-script/src/index.ts as the plugins
    see it: the key/value data store with its fail-fast `getData`, the
    `log`/`warn`/`error`/`fatal` channels of the CLI, the list of chosen
    plugins, the exit status of `main`, and the colour `colorizePrefix`
    picks for a log prefix. The values in the store are parsed JSON. */
module ReleaseScript {
  import opened Wrappers
  import opened Seqs
  import opened OrderedMap
  import opened Text

  // ---------------------------------------------------------------------
  // Values
  // ---------------------------------------------------------------------

  /** A parsed JSON value. Numbers are integers here. */
  datatype Json =
    | JNull
    | JBool(b: bool)
    | JNum(n: int)
    | JStr(s: string)
    | JArr(items: seq<Json>)
    | JObj(fields: seq<(string, Json)>)

  /** `!!value` for a value that is present. */
  predicate Truthy(j: Json) {
    match j
    case JNull => false
    case JBool(b) => b
    case JNum(n) => n != 0
    case JStr(s) => s != ""
    case _ => true
  }

  /** `!!value` for a value that may be `undefined` (`None`). */
  predicate Present(v: Option<Json>) {
    v.Some? && Truthy(v.value)
  }

  /** `value?.key`: the field of an object, the last one when `JSON.parse`
      met the key twice; `undefined` for anything that is not an object. */
  function Field(v: Option<Json>, key: string): (r: Option<Json>)
    ensures r.Some? ==> v.Some? && v.value.JObj? && key in Keys(v.value.fields)
  {
    if v.Some? && v.value.JObj? && key in Keys(v.value.fields) then
      Some(LastValue(v.value.fields, key))
    else None
  }

  /** A JSON file as `fs.pathExists` and `fs.readJson` find it: missing,
      present but not JSON (then `readJson` rejects with a `SyntaxError`,
      which is no `ReleaseError`), or parsed. */
  datatype JsonFile = Missing | Malformed | Parsed(json: Json)

  /** The parsed contents, `None` unless the file could be parsed. */
  function Contents(f: JsonFile): (r: Option<Json>)
    ensures r.Some? <==> f.Parsed?
  {
    if f.Parsed? then Some(f.json) else None
  }

  /** The error `fs.readJson` throws on a file that is not JSON. */
  const SyntaxError: Thrown := Other(None)

  /** The error JavaScript throws on a property access or a call that is
      not defined for the value, such as `Object.keys(undefined)`. */
  const TypeError: Thrown := Other(None)

  /** The text a value gives inside a template literal. */
  function Show(j: Json): string {
    match j
    case JNull => "null"
    case JBool(b) => if b then "true" else "false"
    case JNum(n) => if n < 0 then "-" + Decimal(-n) else Decimal(n)
    case JStr(s) => s
    case JArr(items) =>
      // `Array.prototype.join` prints a `null` element as nothing.
      Join(seq(|items|, i requires 0 <= i < |items| => if items[i].JNull? then "" else Show(items[i])), ",")
    case JObj(_) => "[object Object]"
  }

  // ---------------------------------------------------------------------
  // Errors
  // ---------------------------------------------------------------------

  /** `ReleaseError` (packages/core/src/lib/error.ts). */
  datatype ReleaseError = ReleaseError(message: string, fatal: Option<bool>, exitCode: Option<int>)

  /** What a plugin can throw: a `ReleaseError`, or any other error, which
      may carry a numeric `code`. */
  datatype Thrown = Release(error: ReleaseError) | Other(code: Option<int>)

  /** `cli.fatal(msg, code)`: the error it always throws. */
  function Fatal(msg: string, code: Option<int>): (e: Thrown)
    ensures e.Release? && e.error.fatal == Some(true)
    ensures e.error.message == msg && e.error.exitCode == code
  {
    Release(ReleaseError(msg, Some(true), code))
  }

  // ---------------------------------------------------------------------
  // The context
  // ---------------------------------------------------------------------

  /** The parts of the context a plugin changes: the data store, the
      `errors` and `warnings` arrays, and the lines written by `cli.log`. */
  datatype Context = Context(data: Entries<string, Json>, errors: seq<string>, warnings: seq<string>, logs: seq<string>)

  /** The context `main` builds: no data, no messages. */
  const Fresh: Context := Context([], [], [], [])

  /** What running a plugin stage does besides changing the context. */
  datatype Effect =
    | Exec(command: string, args: seq<string>)
    | WriteFile(path: string, content: string)
    | WriteJson(path: string, value: Json)
    | RemoveFile(path: string)

  /** A stage that ran to its end: the context after it and its effects,
      in order. */
  datatype Outcome = Outcome(context: Context, effects: seq<Effect>)

  /** A plugin stage either finishes or throws. */
  type Step = Result<Outcome, Thrown>

  /** `context.hasData(key)`. */
  predicate HasData(c: Context, key: string) {
    key in Keys(c.data)
  }

  /** The message of the error `getData` throws for a missing key. */
  function MissingDataMessage(key: string): string {
    "A plugin tried to access non-existent data with key \"" + key + "\""
  }

  /** `context.getData(key)`: the stored value, or a fatal `ReleaseError`
      naming the key. */
  function GetData(c: Context, key: string): (r: Result<Json, Thrown>)
    ensures r.Success? <==> HasData(c, key)
    ensures r.Success? ==> Get(c.data, key) == Some(r.value)
    ensures r.Failure? ==> (r.error.Release? && r.error.error.fatal == Some(true) &&
      r.error.error.message == MissingDataMessage(key))
  {
    match Get(c.data, key)
    case Some(v) => Success(v)
    case None => Failure(Release(ReleaseError(MissingDataMessage(key), Some(true), None)))
  }

  /** `context.setData(key, value)`: `Map.prototype.set`. */
  function SetData(c: Context, key: string, value: Json): (r: Context)
    ensures r.errors == c.errors && r.warnings == c.warnings && r.logs == c.logs
  {
    c.(data := Put(c.data, key, value))
  }

  /** After `setData(key, value)`, `getData` returns `value` for `key` and
      what it returned before for every other key; `hasData` becomes true
      for `key` only. */
  lemma {:induction false} DataStoreLaws(c: Context, key: string, value: Json, k: string)
    ensures GetData(SetData(c, key, value), k) == if k == key then Success(value) else GetData(c, k)
    ensures HasData(SetData(c, key, value), k) == (k == key || HasData(c, k))
  {
    PutGet(c.data, key, value, k);
  }

  /** The context after a series of `setData` calls on a fresh one. */
  function Replay(sets: seq<(string, Json)>): (c: Context)
    ensures c.errors == [] && c.warnings == [] && c.logs == []
    decreases |sets|
  {
    if sets == [] then Fresh
    else
      var last := sets[|sets| - 1];
      SetData(Replay(sets[..|sets| - 1]), last.0, last.1)
  }

  /** After a series of `setData` calls, `hasData(k)` holds exactly when one
      of them set `k`. */
  lemma {:induction false} ReplayHas(sets: seq<(string, Json)>, k: string)
    ensures HasData(Replay(sets), k) <==> exists i :: 0 <= i < |sets| && sets[i].0 == k
    decreases |sets|
  {
    if sets != [] {
      var init := sets[..|sets| - 1];
      var last := sets[|sets| - 1];
      ReplayHas(init, k);
      DataStoreLaws(Replay(init), last.0, last.1, k);
      if HasData(Replay(sets), k) && last.0 != k {
        var i :| 0 <= i < |init| && init[i].0 == k;
        assert sets[i].0 == k;
      }
      if exists i :: 0 <= i < |sets| && sets[i].0 == k {
        var i :| 0 <= i < |sets| && sets[i].0 == k;
        if i < |sets| - 1 {
          assert init[i].0 == k;
        }
      }
    }
  }

  /** After a series of `setData` calls, `getData(k)` returns the value of
      the most recent one that set `k`. */
  lemma {:induction false} ReplayGet(sets: seq<(string, Json)>, k: string, i: nat)
    requires i < |sets| && sets[i].0 == k
    requires forall j :: i < j < |sets| ==> sets[j].0 != k
    ensures GetData(Replay(sets), k) == Success(sets[i].1)
    decreases |sets|
  {
    var init := sets[..|sets| - 1];
    var last := sets[|sets| - 1];
    DataStoreLaws(Replay(init), last.0, last.1, k);
    if i < |sets| - 1 {
      assert init[i] == sets[i];
      forall j | i < j < |init| ensures init[j].0 != k {
        assert init[j] == sets[j];
      }
      ReplayGet(init, k, i);
    }
  }

  /** `cli.log(msg)`. */
  function Log(c: Context, msg: string): (r: Context)
    ensures r.data == c.data && r.errors == c.errors && r.warnings == c.warnings
    ensures r.logs == c.logs + [msg]
  {
    c.(logs := c.logs + [msg])
  }

  /** `cli.warn(msg)`: logs and appends to `context.warnings`, never throws. */
  function Warn(c: Context, msg: string): (r: Context)
    ensures r.data == c.data && r.errors == c.errors && r.logs == c.logs
    ensures r.warnings == c.warnings + [msg]
  {
    c.(warnings := c.warnings + [msg])
  }

  /** `cli.error(msg)`: logs and appends to `context.errors`, never throws. */
  function Error(c: Context, msg: string): (r: Context)
    ensures r.data == c.data && r.warnings == c.warnings && r.logs == c.logs
    ensures r.errors == c.errors + [msg]
  {
    c.(errors := c.errors + [msg])
  }

  /** `cli.logCommand(command, args)`: the command line prefixed by `$ `. */
  function LogCommand(c: Context, command: string, args: seq<string>): (r: Context)
    ensures r.data == c.data && r.errors == c.errors && r.warnings == c.warnings
    ensures |r.logs| == |c.logs| + 1 && r.logs[..|c.logs|] == c.logs
  {
    Log(c, "$ " + command + (if |args| > 0 then " " + Join(args, " ") else ""))
  }

  /** The line `logCommand` writes for a command without arguments is the
      command itself after `$ `, and arguments follow it separated by
      spaces. */
  lemma {:induction false} LogCommandLine(c: Context, command: string, args: seq<string>)
    ensures LogCommand(c, command, []).logs == c.logs + ["$ " + command]
    ensures |args| >= 1 ==> (LogCommand(c, command, args).logs[|c.logs|] ==
      "$ " + command + " " + args[0] + (if |args| > 1 then " " + Join(args[1..], " ") else ""))
  {
    assert "$ " + command + "" == "$ " + command;
    if |args| > 1 {
      assert Join(args, " ") == args[0] + " " + Join(args[1..], " ");
    }
  }

  // ---------------------------------------------------------------------
  // Chosen plugins
  // ---------------------------------------------------------------------

  /** The plugins that are always loaded, in order. */
  const Builtins: seq<string> := ["git", "package", "exec", "version", "changelog"]

  /** `distinct(["git", "package", "exec", "version", "changelog", ...plugins])`. */
  function ChosenPlugins(user: Option<seq<string>>): seq<string> {
    Distinct(Builtins + user.GetOr([]))
  }

  /** The chosen ids start with the five built-in plugins in order, hold each
      id once, and are exactly the built-in and the user's ids. */
  lemma {:induction false} ChosenPluginsSpec(user: Option<seq<string>>)
    ensures var r := ChosenPlugins(user);
      NoDup(r) && |r| >= 5 && r[..5] == Builtins &&
      forall id :: id in r <==> id in Builtins || id in user.GetOr([])
  {
    var u := user.GetOr([]);
    BuiltinsNoDup();
    assert ChosenPlugins(user) == AddAll(Builtins, u) by {
      AddAllAppend([], Builtins, u);
      DistinctNoDup(Builtins);
    }
    AddAllSpec(Builtins, u);
  }

  lemma {:induction false} BuiltinsNoDup()
    ensures NoDup(Builtins)
  {
  }

  /** Adding two lists one after the other adds their concatenation. */
  lemma {:induction false} AddAllAppend<T>(s: seq<T>, a: seq<T>, b: seq<T>)
    ensures AddAll(s, a + b) == AddAll(AddAll(s, a), b)
    decreases |a|
  {
    if a != [] {
      assert (a + b)[0] == a[0] && (a + b)[1..] == a[1..] + b;
      AddAllAppend(Add(s, a[0]), a[1..], b);
    } else {
      assert a + b == b;
    }
  }

  // ---------------------------------------------------------------------
  // Exit status
  // ---------------------------------------------------------------------

  /** The status `main` exits with after initialising the plugins and
      executing the stages, 0 when it returns normally, as the source is
      written: a thrown error exits with its `code`, or 1. `ReleaseError`
      has no `code` (it stores `exitCode`), so every `ReleaseError` exits
      with 1. */
  function ExitStatusAsWritten(outcome: Result<Context, Thrown>): (code: int)
    ensures outcome.Success? ==> (code == 1 <==> outcome.value.errors != [])
  {
    match outcome
    case Success(c) => if |c.errors| > 0 then 1 else 0
    case Failure(Release(_)) => 1
    case Failure(Other(code)) => code.GetOr(1)
  }

  /** The exit status with the code passed to `cli.fatal` honoured: the
      `exitCode` of a `ReleaseError`, or 1 when it has none. */
  function ExitStatus(outcome: Result<Context, Thrown>): (code: int)
    ensures outcome.Success? ==> (code == 1 <==> outcome.value.errors != [])
  {
    match outcome
    case Success(c) => if |c.errors| > 0 then 1 else 0
    case Failure(Release(e)) => e.exitCode.GetOr(1)
    case Failure(Other(code)) => code.GetOr(1)
  }

  /** A run that does not throw exits with 1 exactly when a plugin reported
      an error, and with 0 otherwise: warnings never fail a run, and one
      more error always does. */
  lemma {:induction false} ErrorsDecideExit(c: Context, msg: string)
    ensures ExitStatus(Success(c)) == (if c.errors == [] then 0 else 1)
    ensures ExitStatus(Success(Warn(c, msg))) == ExitStatus(Success(c))
    ensures ExitStatus(Success(Error(c, msg))) == 1
  {
  }

  /** As written, the code given to `cli.fatal` is lost: the run exits
      with 1 whatever the code. */
  lemma {:induction false} FatalCodeIgnored(msg: string, code: int)
    ensures ExitStatusAsWritten(Failure(Fatal(msg, Some(code)))) == 1
    ensures code != 1 ==> ExitStatusAsWritten(Failure(Fatal(msg, Some(code)))) != ExitStatus(Failure(Fatal(msg, Some(code))))
  {
  }

  /** With the code honoured, a fatal error exits with the code given to
      `cli.fatal`, or with 1 when none was given, and the two readings
      agree on everything else. */
  lemma {:induction false} FatalCodeKept(msg: string, code: Option<int>, outcome: Result<Context, Thrown>)
    ensures ExitStatus(Failure(Fatal(msg, code))) == code.GetOr(1)
    ensures (outcome.Success? || outcome.error.Other? || outcome.error.error.exitCode.None?) ==>
      ExitStatus(outcome) == ExitStatusAsWritten(outcome)
  {
  }

  // ---------------------------------------------------------------------
  // colorizePrefix
  // ---------------------------------------------------------------------

  datatype Colour = Magenta | Cyan | Yellow | Red | Green | Blue | White

  /** `prefixColors`, in order. */
  const PrefixColours: seq<Colour> := [Magenta, Cyan, Yellow, Red, Green, Blue, White]

  /** `prefix.split(":").slice(-1)[0]`: the part after the last ':'. */
  function Short(prefix: string): (r: string)
    ensures ':' !in r
  {
    var parts := Split(prefix, ':');
    parts[|parts| - 1]
  }

  /** `colorizePrefix(prefix)` with `usedPrefixes` before the call: the
      colour, and `usedPrefixes` after it. */
  function ColorizePrefix(used: seq<string>, prefix: string): (r: (Colour, seq<string>))
    ensures ':' !in prefix ==> r == (White, used)
    ensures ':' in prefix ==> r.1 == Add(used, Short(prefix))
  {
    if ':' !in prefix then (White, used)
    else
      var short := Short(prefix);
      var used' := Add(used, short);
      (PrefixColours[IndexOf(used', short) % |PrefixColours|], used')
  }

  /** `colorizePrefix` called on each prefix in turn. */
  function ColorizeAll(used: seq<string>, prefixes: seq<string>): (r: (seq<Colour>, seq<string>))
    ensures |r.0| == |prefixes|
    decreases |prefixes|
  {
    if prefixes == [] then ([], used)
    else
      var (c, used') := ColorizePrefix(used, prefixes[0]);
      var (cs, final) := ColorizeAll(used', prefixes[1..]);
      ([c] + cs, final)
  }

  /** Over any series of calls the list of seen parts only grows, and a
      prefix with a ':' gets the colour at the position, modulo seven, where
      the part after its last ':' was first seen. */
  lemma {:induction false} ColorizeAllSpec(used: seq<string>, prefixes: seq<string>)
    ensures var (cs, final) := ColorizeAll(used, prefixes);
      |used| <= |final| && final[..|used|] == used &&
      forall i :: 0 <= i < |prefixes| && ':' in prefixes[i] ==>
        Short(prefixes[i]) in final && cs[i] == PrefixColours[IndexOf(final, Short(prefixes[i])) % 7]
    decreases |prefixes|
  {
    if prefixes != [] {
      var (c, used') := ColorizePrefix(used, prefixes[0]);
      ColorizeAllSpec(used', prefixes[1..]);
      var (cs, final) := ColorizeAll(used', prefixes[1..]);
      assert final == used' + final[|used'|..];
      assert ColorizeAll(used, prefixes) == ([c] + cs, final);
      forall i | 0 <= i < |prefixes| && ':' in prefixes[i]
        ensures Short(prefixes[i]) in final && ([c] + cs)[i] == PrefixColours[IndexOf(final, Short(prefixes[i])) % 7]
      {
        if i == 0 {
          IndexOfPrefix(used', final[|used'|..], Short(prefixes[0]));
        } else {
          assert prefixes[1..][i - 1] == prefixes[i];
        }
      }
      assert used'[..|used|] == used;
    }
  }

  /** Prefixes whose parts after the last ':' agree are always given the
      same colour, and one without a ':' is white. */
  lemma {:induction false} SameShortSameColour(used: seq<string>, prefixes: seq<string>, i: nat, j: nat)
    requires i < |prefixes| && j < |prefixes|
    ensures ':' !in prefixes[i] ==> ColorizeAll(used, prefixes).0[i] == White
    ensures ':' in prefixes[i] && ':' in prefixes[j] && Short(prefixes[i]) == Short(prefixes[j]) ==>
      ColorizeAll(used, prefixes).0[i] == ColorizeAll(used, prefixes).0[j]
  {
    ColorizeAllSpec(used, prefixes);
    if ':' !in prefixes[i] {
      WhiteAt(used, prefixes, i);
    }
  }

  lemma {:induction false} WhiteAt(used: seq<string>, prefixes: seq<string>, i: nat)
    requires i < |prefixes| && ':' !in prefixes[i]
    ensures ColorizeAll(used, prefixes).0[i] == White
    decreases i
  {
    var (c, used') := ColorizePrefix(used, prefixes[0]);
    if i > 0 {
      WhiteAt(used', prefixes[1..], i - 1);
    }
  }
}
