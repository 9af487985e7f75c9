/** The git plugin (packages/plugin-git/src/index.ts): the git identity
    test, the decision table of the check stage, the commit message, and
    the stages it takes part in. What git answers is passed in: the
    `user.name`/`user.email` settings, the branch status, and the name of
    the user running the script. */
module GitPlugin {
  import opened Wrappers
  import opened Text
  import opened Stages
  import opened ReleaseScript
  import opened GitStatus

  /** `hasGitIdentity`. A setting is `None` when `git config --get` failed,
      which makes `execa` throw. */
  function HasGitIdentity(name: Option<string>, email: Option<string>): (r: bool)
    ensures r ==> name.Some? && email.Some?
  {
    match (name, email)
    case (Some(n), Some(e)) => n != "" && e != ""
    case _ => false
  }

  /** An identity is present exactly when both settings could be read and
      neither is empty. */
  lemma {:induction false} IdentityIff(name: Option<string>, email: Option<string>)
    ensures HasGitIdentity(name, email) <==> (name.Some? && email.Some? && name.value != "" && email.value != "")
    ensures HasGitIdentity(None, email) == false && HasGitIdentity(name, None) == false
  {
  }

  /** The start of the fatal message for a missing identity; the lines that
      follow explain how to configure git. */
  function NoIdentityMessage(user: string): string {
    "No git identity is configured for the current user " + user + "!"
  }

  const DivergedMessage: string :=
    "Both the remote and the local repo have different changes! Please merge the remote changes first."
  const BehindMessage: string :=
    "The local branch is behind the remote changes! Please include them first, e.g. with \"git pull\"."
  const GoodMessage: string := "git status is good - I can continue..."
  const UncommittedMessage: string :=
    "The local branch has uncommitted changes! Add them to a separate commit first or add the \"--all\" option to include them in the release commit."

  // ---------------------------------------------------------------------
  // The branch status query
  // ---------------------------------------------------------------------

  /** `remote || …`: a remote that is given and not empty. */
  predicate Given(remote: Option<string>) {
    remote.Some? && remote.value != ""
  }

  /** What a pending promise prints as inside a template literal. */
  const PromiseText: string := "[object Promise]"

  /** What `getCommitDifferences` compares `HEAD` with, as written:
      `getUpstream` is not awaited, so without a remote the template
      literal receives its promise. */
  function TargetAsWritten(remote: Option<string>): string {
    if Given(remote) then remote.value else PromiseText
  }

  /** What it compares `HEAD` with once the upstream is awaited. `upstream`
      is the answer of `git rev-parse --abbrev-ref --symbolic-full-name
      @{u}`, a failure when the branch tracks nothing; it is only asked
      when no remote is given. */
  function Target(remote: Option<string>, upstream: Result<string, Thrown>): (r: Result<string, Thrown>)
    ensures Given(remote) ==> r == Success(TargetAsWritten(remote))
    ensures !Given(remote) ==> r == upstream
  {
    if Given(remote) then Success(remote.value) else upstream
  }

  /** `gitStatus` once the target is known. `revList(t)` is what `git
      rev-list --left-right --count HEAD...t` prints, or how it fails;
      `porcelain` is what `git status --porcelain` prints, or how it fails,
      and it is asked only when the counts say neither diverged nor
      behind. */
  function StatusOf(target: string, revList: string -> Result<string, Thrown>, porcelain: Result<string, Thrown>): (r: Result<Status, Thrown>)
    ensures r.Failure? <==> (revList(target).Failure? ||
      (NeedsProbe(ParseFields(revList(target).value).0, ParseFields(revList(target).value).1) && porcelain.Failure?))
    ensures r.Success? && porcelain.Success? ==> r.value == PluginGitStatus(revList(target).value, porcelain.value)
    ensures r.Failure? && revList(target).Success? ==> r == Failure(porcelain.error)
  {
    match revList(target)
    case Failure(e) => Failure(e)
    case Success(output) =>
      var (local, remote) := ParseFields(output);
      if !NeedsProbe(local, remote) then
        ProbeOnlyWhenNeeded(local, remote, false, porcelain.Success? && porcelain.value != "");
        Success(Classify(local, remote, false))
      else
        match porcelain
        case Failure(e) => Failure(e)
        case Success(p) => Success(Classify(local, remote, p != ""))
  }

  /** The query as written. */
  function StatusAsWritten(remote: Option<string>, revList: string -> Result<string, Thrown>, porcelain: Result<string, Thrown>): Result<Status, Thrown> {
    StatusOf(TargetAsWritten(remote), revList, porcelain)
  }

  /** The query with the upstream awaited. */
  function StatusQuery(remote: Option<string>, upstream: Result<string, Thrown>,
                       revList: string -> Result<string, Thrown>, porcelain: Result<string, Thrown>): (r: Result<Status, Thrown>)
    ensures !Given(remote) && upstream.Failure? ==> r == Failure(upstream.error)
  {
    match Target(remote, upstream)
    case Failure(e) => Failure(e)
    case Success(target) => StatusOf(target, revList, porcelain)
  }

  /** Git refuses to compare with a name that holds `[`: the rules for ref
      names in the git manual (git check-ref-format) forbid the character,
      and it is neither an object name nor any other revision syntax. */
  ghost predicate RejectsBrackets(revList: string -> Result<string, Thrown>) {
    forall t :: '[' in t ==> revList(t).Failure?
  }

  /** Without a remote, which is how `main` builds the context, the query
      as written asks git about `HEAD...[object Promise]` and fails whatever
      the repository looks like, so the check stage throws as soon as the
      identity test has passed. */
  lemma {:induction false} PromiseQueried(c: Context, user: string, remote: Option<string>,
                                          revList: string -> Result<string, Thrown>, porcelain: Result<string, Thrown>, includeUnstaged: bool)
    requires !Given(remote) && RejectsBrackets(revList)
    ensures TargetAsWritten(remote) == "[object Promise]"
    ensures StatusAsWritten(remote, revList, porcelain).Failure?
    ensures CheckStage(c, user, true, StatusAsWritten(remote, revList, porcelain), includeUnstaged).Failure?
  {
    assert PromiseText[0] == '[';
  }

  /** With the upstream awaited, a branch that tracks `u` is compared with
      `u`: git's counts decide the status as the rev-list table says, and
      only a branch that tracks nothing makes the query fail. With a remote
      given, both readings ask the same question. */
  lemma {:induction false} UpstreamCompared(remote: Option<string>, u: string, l: nat, r: nat,
                                            revList: string -> Result<string, Thrown>, p: string)
    requires !Given(remote) && revList(u) == Success(Decimal(l) + "\t" + Decimal(r))
    ensures StatusQuery(remote, Success(u), revList, Success(p)) == Success(Classify(Int(l), Int(r), p != ""))
    ensures forall e :: StatusQuery(remote, Failure(e), revList, Success(p)) == Failure(e)
    ensures forall rem :: Given(rem) ==>
      StatusQuery(rem, Success(u), revList, Success(p)) == StatusAsWritten(rem, revList, Success(p))
  {
    var line := Decimal(l) + "\t" + Decimal(r);
    RevListCounts(l, r, "\n");
    PluginReads(line, p);
    assert StatusQuery(remote, Success(u), revList, Success(p)) == StatusOf(u, revList, Success(p));
    forall rem | Given(rem)
      ensures StatusQuery(rem, Success(u), revList, Success(p)) == StatusAsWritten(rem, revList, Success(p))
    {
      assert Target(rem, Success(u)) == Success(TargetAsWritten(rem));
    }
  }

  // ---------------------------------------------------------------------
  // The check stage
  // ---------------------------------------------------------------------

  /** `executeCheckStage`. The status query comes after the identity test
      and may throw; `lerna` is the constant `false` of the source. */
  function CheckStage(c: Context, user: string, identity: bool, status: Result<Status, Thrown>, includeUnstaged: bool): (r: Result<Context, Thrown>)
    ensures r.Failure? <==> !identity || status.Failure? || status.value == Diverged || status.value == Behind
    ensures identity && status.Failure? ==> r == Failure(status.error)
    ensures r.Failure? && (!identity || status.Success?) ==> r.error.Release? && r.error.error.fatal == Some(true)
    ensures r.Success? ==> r.value.data == c.data && r.value.warnings == c.warnings
    ensures r.Success? ==> (r.value.errors ==
      c.errors + (if status.value == Uncommitted && !includeUnstaged then [UncommittedMessage] else []))
  {
    if !identity then Failure(Fatal(NoIdentityMessage(user), None))
    else
      match status
      case Failure(e) => Failure(e)
      case Success(s) =>
        if s == Diverged then Failure(Fatal(DivergedMessage, None))
        else if s == Behind then Failure(Fatal(BehindMessage, None))
        else if s == Ahead || s == UpToDate then Success(Log(c, GoodMessage))
        else if !includeUnstaged then
          assert s == Uncommitted;
          Success(Error(c, UncommittedMessage))
        else Success(c)
  }

  /** A missing identity is fatal whatever the branch status, so nothing
      the status query could answer, or throw, matters. */
  lemma {:induction false} IdentityFirst(c: Context, user: string, s1: Result<Status, Thrown>, s2: Result<Status, Thrown>, includeUnstaged: bool)
    ensures CheckStage(c, user, false, s1, includeUnstaged) == CheckStage(c, user, false, s2, includeUnstaged)
    ensures CheckStage(c, user, false, s1, includeUnstaged) == Failure(Fatal(NoIdentityMessage(user), None))
  {
  }

  /** With an identity, the check stage fails fatally on a diverged or a
      behind branch, gives exactly one soft error for uncommitted changes
      unless they are to be included, and logs that all is well for an
      ahead or up-to-date branch. */
  lemma {:induction false} CheckStageTable(c: Context, user: string, status: Status, includeUnstaged: bool)
    ensures var r := CheckStage(c, user, true, Success(status), includeUnstaged);
      (status == Diverged ==> r == Failure(Fatal(DivergedMessage, None))) &&
      (status == Behind ==> r == Failure(Fatal(BehindMessage, None))) &&
      ((status == Ahead || status == UpToDate) ==> r == Success(Log(c, GoodMessage))) &&
      (status == Uncommitted ==> (|r.value.errors| == |c.errors| + (if includeUnstaged then 0 else 1) &&
        r.value.logs == c.logs))
  {
  }

  /** The check stage on what git reports: `git rev-list` counts `l` and
      `r` and the porcelain output. A branch with new commits on both sides
      is fatal; one that only lacks remote commits passes the check. */
  lemma {:induction false} CheckOnCounts(c: Context, user: string, l: nat, r: nat, porcelain: string, includeUnstaged: bool)
    ensures var s := PluginGitStatus(Decimal(l) + "\t" + Decimal(r), porcelain);
      (CheckStage(c, user, true, Success(s), includeUnstaged).Failure? <==> r > 0) &&
      (r == 0 && porcelain == "" ==> CheckStage(c, user, true, Success(s), includeUnstaged) == Success(Log(c, GoodMessage)))
  {
    RevListCounts(l, r, "\n");
    PluginReads(Decimal(l) + "\t" + Decimal(r), porcelain);
    CountsTable(l, r, porcelain != "");
  }

  /** The text of `.commitmessage`. */
  function CommitMessage(version: string, changelog: string): string {
    "chore: release v" + version + "\n\n" + changelog
  }

  /** The first line of the commit message names the version, and the
      changelog follows after an empty line, unchanged. */
  lemma {:induction false} CommitMessageParts(version: string, changelog: string)
    requires '\n' !in version
    ensures var m := CommitMessage(version, changelog);
      var header := "chore: release v" + version;
      Split(m, '\n')[0] == header && m[|header|..|header| + 2] == "\n\n" && m[|header| + 2..] == changelog
  {
    var header := "chore: release v" + version;
    var m := CommitMessage(version, changelog);
    assert m == header + "\n\n" + changelog;
    assert '\n' !in header by {
      assert forall k :: 0 <= k < |header| ==> header[k] == ("chore: release v" + version)[k];
      assert forall k :: 16 <= k < |header| ==> header[k] == version[k - 16];
    }
    assert m[|header|] == '\n' && m[..|header|] == header;
    IndexOfCharAt(m, '\n', |header|);
  }

  /** The first occurrence of a character that does not occur before `k`
      and does at `k`. */
  lemma {:induction false} IndexOfCharAt(s: string, c: char, k: nat)
    requires k < |s| && s[k] == c && c !in s[..k]
    ensures c in s && IndexOfChar(s, c) == k && Split(s, c)[0] == s[..k]
  {
  }

  /** The path of the commit message file, relative to the working
      directory. */
  const CommitMessageFile: string := ".commitmessage"

  /** `stages`: check, commit, push and cleanup from the registry. */
  function PluginStages(): (r: seq<Stage>)
    ensures |r| == 4 && r[0].id == "check" && r[1].id == "commit" && r[2].id == "push" && r[3].id == "cleanup"
  {
    [Default("check"), Default("commit"), Default("push"), Default("cleanup")]
  }

  /** What git reports to the plugin: the identity settings, the remote
      of the context (`main` never sets one), the upstream `@{u}`, and the
      answers of `git rev-list` and `git status --porcelain`. */
  datatype GitInputs = GitInputs(
    user: string,
    name: Option<string>,
    email: Option<string>,
    remote: Option<string>,
    upstream: Result<string, Thrown>,
    revList: string -> Result<string, Thrown>,
    porcelain: Result<string, Thrown>,
    includeUnstaged: bool)

  /** The check stage on what git reports, with the upstream awaited. */
  function CheckOn(c: Context, git: GitInputs): Result<Context, Thrown> {
    CheckStage(c, git.user, HasGitIdentity(git.name, git.email),
      StatusQuery(git.remote, git.upstream, git.revList, git.porcelain), git.includeUnstaged)
  }

  /** `executeStage`: the check stage, writing and removing the commit
      message, and a warning for the unimplemented push. */
  function ExecuteStage(c: Context, stageId: string, git: GitInputs): (r: Step)
    ensures stageId !in {"check", "commit", "push", "cleanup"} ==> r == Success(Outcome(c, []))
    ensures r.Success? ==> r.value.context.data == c.data
    ensures stageId == "check" ==> (r.Failure? <==> CheckOn(c, git).Failure?)
    ensures stageId == "check" && HasGitIdentity(git.name, git.email) && !Given(git.remote) && git.upstream.Failure? ==>
      r == Failure(git.upstream.error)
    ensures r.Success? && stageId == "commit" ==> |r.value.effects| == 1 && r.value.effects[0].WriteFile?
  {
    if stageId == "check" then
      match CheckOn(c, git)
      case Success(c') => Success(Outcome(c', []))
      case Failure(e) => Failure(e)
    else if stageId == "commit" then
      match GetData(c, "version_new")
      case Failure(e) => Failure(e)
      case Success(version) =>
        match GetData(c, "changelog_new")
        case Failure(e) => Failure(e)
        case Success(changelog) =>
          Success(Outcome(c, [WriteFile(CommitMessageFile, CommitMessage(Show(version), Show(changelog)))]))
    else if stageId == "push" then Success(Outcome(Warn(c, "TODO: Implement stage"), []))
    else if stageId == "cleanup" then Success(Outcome(c, [RemoveFile(CommitMessageFile)]))
    else Success(Outcome(c, []))
  }

  /** The commit stage writes `chore: release v<version_new>`, an empty line
      and `changelog_new` to `.commitmessage`, and throws a fatal error when
      either value was never stored. */
  lemma {:induction false} CommitStageWrites(c: Context, git: GitInputs)
    ensures var r := ExecuteStage(c, "commit", git);
      (r.Success? <==> HasData(c, "version_new") && HasData(c, "changelog_new")) &&
      (r.Success? ==> r.value == Outcome(c, [WriteFile(".commitmessage",
        "chore: release v" + Show(GetData(c, "version_new").value) + "\n\n" + Show(GetData(c, "changelog_new").value))])) &&
      (r.Failure? ==> r.error.Release? && r.error.error.fatal == Some(true))
  {
  }
}
