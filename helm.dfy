/**
 * HelmCmd as the object the Go code builds and mutates: the functional
 * options update its fields in place, NewHelmCmd builds and validates one,
 * and Run drives the Runner through the deployment.
 */
module Helm {
  import opened Wrappers
  import opened GoStrings
  import opened HelmErrors
  import opened Manifest
  import opened Options
  import opened Pipeline

  class HelmCmd {
    var release: string
    var chart: string
    var args: seq<string>
    var unInsArgs: seq<string>
    var image: string
    var tag: string
    var preCmds: seq<Command>
    var postCmds: seq<Command>
    var runner: Option<Runner>
    var test: bool
    var testRollback: bool

    /** The fields, as the value the specification functions work on. */
    function State(): Config
      reads this
    {
      Config(release, chart, args, unInsArgs, image, tag, preCmds, postCmds, runner, test, testRollback)
    }

    /** The zero HelmCmd of NewHelmCmd: empty lists and a nil Runner. */
    constructor ()
      ensures State() == Initial
    {
      release, chart, args, unInsArgs, image, tag := "", "", [], [], "", "";
      preCmds, postCmds, runner, test, testRollback := [], [], None, false, false;
    }

    /** WithInstallUpgradeMode applied to this HelmCmd. */
    method InstallUpgradeMode()
      modifies this
      ensures State() == Options.InstallUpgradeMode(old(State()))
    {
      args := ["upgrade", "--install"] + args;
    }

    /** The loop of WithValues (tracksImage) or WithValuesString over the entries. */
    method SetValues(values: seq<string>, flag: string, tracksImage: bool) returns (err: Option<string>)
      modifies this
      ensures Applied(State(), err) == AddValues(old(State()), values, flag, tracksImage)
    {
      var i := 0;
      while i < |values|
        invariant i <= |values|
        invariant AddValues(State(), values[i..], flag, tracksImage) == AddValues(old(State()), values, flag, tracksImage)
      {
        assert values[i..][1..] == values[i + 1..];
        var split := SplitN(values[i], '=', 2);
        if |split| != 2 {
          return Some(FormatError(values[i]));
        }
        var key, value := split[0], split[1];
        if tracksImage && key == "image.repository" {
          image := value;
        }
        if tracksImage && key == "image.tag" {
          tag := value;
        }
        args := args + [flag, key + "=" + value];
        i := i + 1;
      }
      assert values[i..] == [];
      return None;
    }

    /** The loop of WithHelmRepos: a `helm repo add` per entry, up to the first malformed one. */
    method AddRepoEntryCommands(repos: seq<string>) returns (err: Option<string>)
      modifies this
      ensures Applied(State(), err) == AddRepoEntries(old(State()), repos)
    {
      var i := 0;
      while i < |repos|
        invariant i <= |repos|
        invariant AddRepoEntries(State(), repos[i..]) == AddRepoEntries(old(State()), repos)
      {
        ghost var before := State();
        assert repos[i..][1..] == repos[i + 1..];
        var split := SplitN(repos[i], '=', 5);
        if |split| != 5 {
          return Some(FormatError(repos[i]));
        }
        var add := ["helm", "repo", "add", "--username", split[2], "--password", split[3], split[0], split[1]];
        if split[4] == "yes" {
          add := add + ["--insecure-skip-tls-verify"];
        }
        assert add == RepoAddCommand(split);
        preCmds := preCmds + [add];
        assert State() == before.(preCmds := before.preCmds + [add]);
        i := i + 1;
      }
      assert repos[i..] == [];
      return None;
    }

    /** WithHelmRepos: nothing for no entries; else the entries, then `helm repo update` and `helm repo list`. */
    method AddRepoCommands(repos: seq<string>) returns (err: Option<string>)
      modifies this
      ensures Applied(State(), err) == AddRepos(old(State()), repos)
    {
      if |repos| == 0 {
        return None;
      }
      err := AddRepoEntryCommands(repos);
      if err.Some? {
        return;
      }
      preCmds := preCmds + [["helm", "repo", "update"]];
      preCmds := preCmds + [["helm", "repo", "list"]];
    }

    /** One functional option applied to this HelmCmd, returning its error. */
    method Apply(o: HelmOption) returns (err: Option<string>)
      modifies this
      ensures Applied(State(), err) == ApplyOption(old(State()), o)
    {
      err := None;
      match o
      case WithHelmRepos(repos) => err := AddRepoCommands(repos);
      case WithValues(values) => err := SetValues(values, "--set", true);
      case WithValuesString(values) => err := SetValues(values, "--set-string", false);
      case WithRelease(_) => ApplySetting(o);
      case WithChart(_) => ApplySetting(o);
      case WithTest(_, _) => ApplySetting(o);
      case WithTestRollback(_, _) => ApplySetting(o);
      case WithRunner(_) => ApplySetting(o);
      case WithLint(_) => ApplyCommand(o);
      case WithBuildDependencies(_, _) => ApplyCommand(o);
      case WithUpdateDependencies(_, _) => ApplyCommand(o);
      case WithPreCommand(_) => ApplyCommand(o);
      case WithPostCommand(_) => ApplyCommand(o);
      case WithNamespace(_) => ApplyArgs(o);
      case WithAtomic(_) => ApplyArgs(o);
      case WithWait(_) => ApplyArgs(o);
      case WithForce(_) => ApplyArgs(o);
      case WithCleanupOnFail(_) => ApplyArgs(o);
      case WithDryRun(_) => ApplyArgs(o);
      case WithDebug(_) => ApplyArgs(o);
      case WithTimeout(_) => ApplyArgs(o);
      case WithValuesYaml(_) => ApplyArgs(o);
      case WithKubeConfig(_) => ApplyArgs(o);
    }

    /** The options that set one field: release, chart, test, test rollback, runner. */
    method ApplySetting(o: HelmOption)
      requires o.WithRelease? || o.WithChart? || o.WithTest? || o.WithTestRollback? || o.WithRunner?
      modifies this
      ensures ApplyOption(old(State()), o) == Applied(State(), None)
    {
      match o
      case WithRelease(r) => release := r;
      case WithChart(c) => chart := c;
      case WithTest(t, _) => test := t;
      case WithTestRollback(t, _) => testRollback := t;
      case WithRunner(r) => runner := r;
    }

    /** The options that add a pre-command or a post-command. */
    method ApplyCommand(o: HelmOption)
      requires o.WithLint? || o.WithBuildDependencies? || o.WithUpdateDependencies? || o.WithPreCommand? || o.WithPostCommand?
      modifies this
      ensures ApplyOption(old(State()), o) == Applied(State(), None)
    {
      match o
      case WithLint(lint) =>
        if lint {
          preCmds := preCmds + [["helm", "lint", chart]];
        }
      case WithBuildDependencies(build, dir) =>
        if build {
          preCmds := preCmds + [["helm", "dependency", "build", dir]];
        }
      case WithUpdateDependencies(update, dir) =>
        if update {
          preCmds := preCmds + [["helm", "dependency", "update", dir]];
        }
      case WithPreCommand(command) => preCmds := preCmds + [command];
      case WithPostCommand(command) => postCmds := postCmds + [command];
    }

    /** The options that add deploy arguments (and, for some, uninstall arguments). */
    method ApplyArgs(o: HelmOption)
      requires || o.WithNamespace? || o.WithAtomic? || o.WithWait? || o.WithForce? || o.WithCleanupOnFail?
               || o.WithDryRun? || o.WithDebug? || o.WithTimeout? || o.WithValuesYaml? || o.WithKubeConfig?
      modifies this
      ensures ApplyOption(old(State()), o) == Applied(State(), None)
    {
      match o
      case WithNamespace(ns) =>
        args := args + ["-n", ns];
        unInsArgs := unInsArgs + ["-n", ns];
      case WithAtomic(atomic) => SetFlag(atomic, "--atomic");
      case WithWait(wait) => SetFlag(wait, "--wait");
      case WithForce(force) => SetFlag(force, "--force");
      case WithCleanupOnFail(cleanup) => SetFlag(cleanup, "--cleanup-on-fail");
      case WithDryRun(dry) => SetFlag(dry, "--dry-run");
      case WithDebug(debug) => SetFlag(debug, "--debug");
      case WithTimeout(timeout) => args := args + ["--timeout", timeout];
      case WithValuesYaml(file) =>
        if file != "" {
          args := args + ["--values", file];
        }
      case WithKubeConfig(config) =>
        if config != "" {
          args := args + ["--kubeconfig", config];
          unInsArgs := unInsArgs + ["--kubeconfig", config];
        }
    }

    /** The boolean options that add one deploy flag when set (WithAtomic, WithWait, ...). */
    method SetFlag(flag: bool, arg: string)
      modifies this
      ensures State() == AddFlag(old(State()), flag, arg)
    {
      if flag {
        args := args + [arg];
      }
    }

    /**
     * HelmCmd.C2U, with the output of `helm get manifest` as input: whether
     * to uninstall before deploying, or None where the image line has no
     * quote and the Go code panics.
     */
    method C2U(manifest: ManifestQuery) returns (replace: Option<bool>)
      ensures replace.None? <==> ReleaseImage(manifest).IndexPanic?
      ensures replace.Some? ==> replace.value == Replaces(State(), manifest)
    {
      var lookup := GetReleaseImage(manifest);
      match lookup
      case IndexPanic => replace := None;
      case LookupError(_) => replace := Some(false);
      case Image(deployed) => replace := Some(deployed == Trim(image + ":" + tag, ' '));
    }

    /**
     * The loops of Run over PreCmds and PostCmds: each command is issued in
     * turn, and the first error is wrapped with `info` and `kind`.
     */
    method RunCommands(cmds: seq<Command>, info: string, kind: ErrorKind) returns (result: RunResult, trace: seq<Command>)
      ensures Execution(result, trace) == RunHooks(runner, cmds, info, kind)
    {
      trace := [];
      var i := 0;
      while i < |cmds|
        invariant i <= |cmds| && trace == cmds[..i]
        invariant AllPass(runner, cmds[..i])
      {
        var cmd := cmds[i];
        if |cmd| == 0 || runner.None? {
          FirstStopAt(runner, cmds, i);
          return Panic, trace;
        }
        trace := trace + [cmd];
        var outcome := runner.value.Outcome(cmd);
        if outcome.Some? {
          FirstStopAt(runner, cmds, i);
          return Error(Wrap(outcome.value, info, kind)), trace;
        }
        assert cmds[..i + 1] == cmds[..i] + [cmd];
        i := i + 1;
      }
      assert cmds[..i] == cmds;
      FirstStopAt(runner, cmds, i);
      return Done, trace;
    }

    /**
     * HelmCmd.Run: pre-commands, the uninstall if C2U holds, the deploy, the
     * test and its rollback, the post-commands; the commands issued, in
     * order, and the result are those of the Run specification.
     */
    method Run(manifest: ManifestQuery) returns (result: RunResult, trace: seq<Command>)
      ensures Execution(result, trace) == Pipeline.Run(State(), manifest)
    {
      result, trace := RunCommands(preCmds, "precmd failed", PreFail);
      if result != Done {
        return;
      }
      var replace := C2U(manifest);
      if replace.None? {
        return Panic, trace;
      }
      if replace.value {
        if runner.None? {
          return Panic, trace;
        }
        var uninstall := ["helm", "uninstall", release] + unInsArgs;
        trace := trace + [uninstall];
        var err := runner.value.Outcome(uninstall);
        if err.Some? {
          return Error(Wrap(err.value, "helm uinnstall failed", Failed)), trace;
        }
      }
      if runner.None? {
        return Panic, trace;
      }
      var deploy := ["helm"] + args;
      trace := trace + [deploy];
      var err := runner.value.Outcome(deploy);
      if err.Some? {
        return Error(Wrap(err.value, "helm failed", Failed)), trace;
      }
      if test {
        var testCmd := ["helm", "test", "--logs", release];
        trace := trace + [testCmd];
        var testErr := runner.value.Outcome(testCmd);
        if testErr.Some? {
          if testRollback {
            var rollback := ["helm", "rollback", release];
            trace := trace + [rollback];
            var rollbackErr := runner.value.Outcome(rollback);
            if rollbackErr.Some? {
              return Error(Wrap(rollbackErr.value, "release and rollback failed", RollbackFailed)), trace;
            }
          }
          return Error(Wrap(testErr.value, "release failed and rollback successful", RollbackSuccess)), trace;
        }
      }
      var post, postTrace := RunCommands(postCmds, "postcmd failed", PostFail);
      return post, trace + postTrace;
    }
  }

  /**
   * NewHelmCmd(WithInstallUpgradeMode(), options...): a validated HelmCmd
   * whose state is that of Build, or nil and Build's error.
   */
  method NewHelmCmd(options: seq<HelmOption>) returns (h: HelmCmd?, err: Option<string>)
    ensures h != null ==> fresh(h)
    ensures Build(options).Success? ==> h != null && err.None? && h.State() == Build(options).value
    ensures Build(options).Failure? ==> h == null && err == Some(Build(options).error)
  {
    var cmd := new HelmCmd();
    cmd.InstallUpgradeMode();
    ghost var start := cmd.State();
    var i := 0;
    while i < |options|
      invariant i <= |options|
      invariant ApplyOptions(cmd.State(), options[i..]) == ApplyOptions(start, options)
    {
      assert options[i..][1..] == options[i + 1..];
      var e := cmd.Apply(options[i]);
      if e.Some? {
        return null, Some("unable to parse option: " + e.value);
      }
      i := i + 1;
    }
    assert options[i..] == [];
    if cmd.release == "" {
      return null, Some("release name is required");
    }
    if cmd.chart == "" {
      return null, Some("chart path is required");
    }
    if cmd.runner.None? {
      return null, Some("runner is required");
    }
    cmd.args := cmd.args + [cmd.release, cmd.chart];
    return cmd, None;
  }
}
