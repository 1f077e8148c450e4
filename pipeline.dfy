/**
 * What HelmCmd.Run does, as a function of the HelmCmd and of what the
 * manifest query gives: the commands it issues to the Runner, in order, and
 * the one result it returns.
 */
module Pipeline {
  import opened Wrappers
  import opened HelmErrors
  import opened Manifest
  import opened Options

  /**
   * Run's result: nil, a wrapped error, or a Go runtime panic (indexing an
   * empty command, a quoteless image line, or a nil Runner).
   */
  datatype RunResult = Done | Error(err: HelmError) | Panic

  /** The result together with the commands issued to the Runner, in order. */
  datatype Execution = Execution(result: RunResult, trace: seq<Command>)

  /** Running `cmd` goes through: it has a program name, there is a Runner, and the Runner succeeds. */
  predicate Passes(runner: Option<Runner>, cmd: Command)
  {
    |cmd| > 0 && runner.Some? && runner.value.Outcome(cmd).None?
  }

  /** Index of the first command of a hook list that does not pass, or |cmds|. */
  function FirstStop(runner: Option<Runner>, cmds: seq<Command>): (k: nat)
    ensures k <= |cmds|
    ensures forall j :: 0 <= j < k ==> Passes(runner, cmds[j])
    ensures k < |cmds| ==> !Passes(runner, cmds[k])
  {
    if cmds == [] || !Passes(runner, cmds[0]) then 0 else 1 + FirstStop(runner, cmds[1..])
  }

  /**
   * A hook list (PreCmds or PostCmds) run in order up to the first command
   * that fails, whose error is wrapped with `info` and `kind`.
   */
  function RunHooks(runner: Option<Runner>, cmds: seq<Command>, info: string, kind: ErrorKind): Execution
  {
    var k := FirstStop(runner, cmds);
    if k == |cmds| then Execution(Done, cmds)
    else if |cmds[k]| == 0 || runner.None? then Execution(Panic, cmds[..k])
    else Execution(Error(Wrap(runner.value.Outcome(cmds[k]).value, info, kind)), cmds[..k + 1])
  }

  function UninstallCommand(c: Config): Command
  {
    ["helm", "uninstall", c.release] + c.unInsArgs
  }

  function DeployCommand(c: Config): Command
  {
    ["helm"] + c.args
  }

  function TestCommand(c: Config): Command
  {
    ["helm", "test", "--logs", c.release]
  }

  function RollbackCommand(c: Config): Command
  {
    ["helm", "rollback", c.release]
  }

  /** Run from the deploy on, after the commands in `trace` went through. */
  function Deploy(c: Config, trace: seq<Command>): Execution
  {
    if c.runner.None? then Execution(Panic, trace)
    else
      var r := c.runner.value;
      var deployed := trace + [DeployCommand(c)];
      match r.Outcome(DeployCommand(c))
      case Some(e) => Execution(Error(Wrap(e, "helm failed", Failed)), deployed)
      case None =>
        if c.test && r.Outcome(TestCommand(c)).Some? then
          var testErr := r.Outcome(TestCommand(c)).value;
          var tested := deployed + [TestCommand(c)];
          if !c.testRollback then
            Execution(Error(Wrap(testErr, "release failed and rollback successful", RollbackSuccess)), tested)
          else
            match r.Outcome(RollbackCommand(c))
            case Some(rollbackErr) =>
              Execution(Error(Wrap(rollbackErr, "release and rollback failed", RollbackFailed)), tested + [RollbackCommand(c)])
            case None =>
              Execution(Error(Wrap(testErr, "release failed and rollback successful", RollbackSuccess)), tested + [RollbackCommand(c)])
        else
          var tested := if c.test then deployed + [TestCommand(c)] else deployed;
          var post := RunHooks(c.runner, c.postCmds, "postcmd failed", PostFail);
          Execution(post.result, tested + post.trace)
  }

  /** HelmCmd.Run on `c`, when `helm get manifest` gives `manifest`. */
  function Run(c: Config, manifest: ManifestQuery): Execution
  {
    var pre := RunHooks(c.runner, c.preCmds, "precmd failed", PreFail);
    if pre.result != Done then pre
    else
      var lookup := ReleaseImage(manifest);
      if lookup.IndexPanic? then Execution(Panic, pre.trace)
      else if !ShouldReplace(lookup, c.image, c.tag) then Deploy(c, pre.trace)
      else if c.runner.None? then Execution(Panic, pre.trace)
      else
        var removed := pre.trace + [UninstallCommand(c)];
        match c.runner.value.Outcome(UninstallCommand(c))
        case Some(e) => Execution(Error(Wrap(e, "helm uinnstall failed", Failed)), removed)
        case None => Deploy(c, removed)
  }

  // ---------------------------------------------------------------------
  // Properties of Run

  /** Every command of `cmds` goes through. */
  predicate AllPass(runner: Option<Runner>, cmds: seq<Command>)
  {
    forall j :: 0 <= j < |cmds| ==> Passes(runner, cmds[j])
  }

  lemma {:induction false} FirstStopAt(runner: Option<Runner>, cmds: seq<Command>, k: nat)
    requires k <= |cmds| && AllPass(runner, cmds[..k])
    requires k < |cmds| ==> !Passes(runner, cmds[k])
    ensures FirstStop(runner, cmds) == k
  {
    forall j | 0 <= j < k
      ensures Passes(runner, cmds[j])
    {
      assert cmds[..k][j] == cmds[j];
    }
  }

  /** A hook list runs to its end, issuing all of it, exactly when every command goes through. */
  lemma {:induction false} RunHooksDoneIff(runner: Option<Runner>, cmds: seq<Command>, info: string, kind: ErrorKind)
    ensures RunHooks(runner, cmds, info, kind).result == Done <==> AllPass(runner, cmds)
    ensures AllPass(runner, cmds) ==> RunHooks(runner, cmds, info, kind).trace == cmds
  {
    if AllPass(runner, cmds) {
      assert cmds[..|cmds|] == cmds;
      FirstStopAt(runner, cmds, |cmds|);
    }
  }

  /**
   * A failing pre-command ends the run with PreFail: the pre-commands before
   * it ran in list order, and nothing after it (no uninstall, deploy, test,
   * rollback or post-command) is issued.
   */
  lemma {:induction false} PreCommandFailure(c: Config, manifest: ManifestQuery, k: nat, e: string)
    requires k < |c.preCmds| && AllPass(c.runner, c.preCmds[..k])
    requires |c.preCmds[k]| > 0 && c.runner.Some? && c.runner.value.Outcome(c.preCmds[k]) == Some(e)
    ensures Run(c, manifest) == Execution(Error(HelmError("precmd failed", PreFail, e)), c.preCmds[..k + 1])
  {
    FirstStopAt(c.runner, c.preCmds, k);
  }

  /**
   * An empty pre-command, or a missing Runner, makes the run panic there:
   * the pre-commands before it are issued, and nothing else.
   */
  lemma {:induction false} PreCommandPanic(c: Config, manifest: ManifestQuery, k: nat)
    requires k < |c.preCmds| && AllPass(c.runner, c.preCmds[..k])
    requires |c.preCmds[k]| == 0 || c.runner.None?
    ensures Run(c, manifest) == Execution(Panic, c.preCmds[..k])
  {
    FirstStopAt(c.runner, c.preCmds, k);
  }

  /** With a nil Runner, Run panics at its first command and issues nothing. */
  lemma {:induction false} NilRunnerPanic(c: Config, manifest: ManifestQuery)
    requires c.runner.None?
    ensures Run(c, manifest) == Execution(Panic, [])
  {
    FirstStopAt(c.runner, c.preCmds, 0);
  }

  /** When the manifest scan panics, Run panics after the pre-commands and issues nothing more. */
  lemma {:induction false} ScanPanic(c: Config, manifest: ManifestQuery)
    requires AllPass(c.runner, c.preCmds) && ReleaseImage(manifest).IndexPanic?
    ensures Run(c, manifest) == Execution(Panic, c.preCmds)
  {
    RunHooksDoneIff(c.runner, c.preCmds, "precmd failed", PreFail);
  }

  /** The state of a run once every pre-command went through and the manifest scan did not panic. */
  predicate PastPreCommands(c: Config, manifest: ManifestQuery)
  {
    c.runner.Some? && AllPass(c.runner, c.preCmds) && !ReleaseImage(manifest).IndexPanic?
  }

  /** The replace decision of the run: C2U on the manifest, the image and the tag. */
  predicate Replaces(c: Config, manifest: ManifestQuery)
    requires !ReleaseImage(manifest).IndexPanic?
  {
    ShouldReplace(ReleaseImage(manifest), c.image, c.tag)
  }

  /** From the deploy on, the trace extends the commands issued before it, and with a Runner the deploy comes next. */
  lemma {:induction false} DeployTraceStarts(c: Config, trace: seq<Command>)
    ensures trace <= Deploy(c, trace).trace
    ensures c.runner.Some? ==> trace + [DeployCommand(c)] <= Deploy(c, trace).trace
  {
  }

  /**
   * After the pre-commands the uninstall is issued exactly when C2U is true:
   * then `helm uninstall <release> <uninstall args>` comes next, and its
   * failure ends the run with Failed before any deploy; otherwise the deploy
   * comes next.
   */
  lemma {:induction false} UninstallOnlyOnReplace(c: Config, manifest: ManifestQuery)
    requires PastPreCommands(c, manifest)
    ensures Replaces(c, manifest) ==> c.preCmds + [UninstallCommand(c)] <= Run(c, manifest).trace
    ensures !Replaces(c, manifest) ==>
      Run(c, manifest) == Deploy(c, c.preCmds) && c.preCmds + [DeployCommand(c)] <= Run(c, manifest).trace
    ensures Replaces(c, manifest) && c.runner.value.Outcome(UninstallCommand(c)).Some? ==>
      Run(c, manifest) == Execution(
        Error(HelmError("helm uinnstall failed", Failed, c.runner.value.Outcome(UninstallCommand(c)).value)),
        c.preCmds + [UninstallCommand(c)])
  {
    RunHooksDoneIff(c.runner, c.preCmds, "precmd failed", PreFail);
    DeployTraceStarts(c, c.preCmds);
    DeployTraceStarts(c, c.preCmds + [UninstallCommand(c)]);
  }

  /**
   * For a HelmCmd built by NewHelmCmd the deploy command starts with
   * `helm upgrade`, so the command issued after the pre-commands is the
   * uninstall exactly when C2U holds.
   */
  lemma {:induction false} BuiltUninstallIff(options: seq<HelmOption>, manifest: ManifestQuery)
    requires Build(options).Success? && PastPreCommands(Build(options).value, manifest)
    ensures var c := Build(options).value;
      var t := Run(c, manifest).trace;
      |t| > |c.preCmds| && (t[|c.preCmds|] == UninstallCommand(c) <==> Replaces(c, manifest))
  {
    var c := Build(options).value;
    BuildSuccess(options);
    UninstallOnlyOnReplace(c, manifest);
    var t := Run(c, manifest).trace;
    if Replaces(c, manifest) {
      assert (c.preCmds + [UninstallCommand(c)])[|c.preCmds|] == UninstallCommand(c);
    } else {
      assert (c.preCmds + [DeployCommand(c)])[|c.preCmds|] == DeployCommand(c);
      assert DeployCommand(c)[1] == "upgrade";
      assert UninstallCommand(c)[1] == "uninstall";
    }
  }

  /** The commands issued before the deploy, when every pre-command went through and the uninstall, if any, too. */
  function BeforeDeploy(c: Config, manifest: ManifestQuery): seq<Command>
    requires !ReleaseImage(manifest).IndexPanic?
  {
    c.preCmds + (if Replaces(c, manifest) then [UninstallCommand(c)] else [])
  }

  /** Past the uninstall, the run is the deploy stage after the commands issued before it. */
  lemma {:induction false} RunReachesDeploy(c: Config, manifest: ManifestQuery)
    requires PastPreCommands(c, manifest)
    requires Replaces(c, manifest) ==> c.runner.value.Outcome(UninstallCommand(c)).None?
    ensures Run(c, manifest) == Deploy(c, BeforeDeploy(c, manifest))
  {
    RunHooksDoneIff(c.runner, c.preCmds, "precmd failed", PreFail);
    if !Replaces(c, manifest) {
      assert BeforeDeploy(c, manifest) == c.preCmds;
    }
  }

  /**
   * The deploy, issued once with the deploy arguments, ends the run with
   * Failed when it fails: no test, rollback or post-command follows.
   */
  lemma {:induction false} DeployFailure(c: Config, manifest: ManifestQuery, e: string)
    requires PastPreCommands(c, manifest)
    requires Replaces(c, manifest) ==> c.runner.value.Outcome(UninstallCommand(c)).None?
    requires c.runner.value.Outcome(DeployCommand(c)) == Some(e)
    ensures Run(c, manifest) ==
      Execution(Error(HelmError("helm failed", Failed, e)), BeforeDeploy(c, manifest) + [DeployCommand(c)])
  {
    RunReachesDeploy(c, manifest);
  }

  /**
   * A failing `helm test --logs <release>` ends the run with no
   * post-command: RollbackFailed wrapping the rollback error when the
   * rollback is enabled and fails, RollbackSuccess wrapping the test error
   * otherwise, including when rollback is disabled.
   */
  lemma {:induction false} TestFailure(c: Config, manifest: ManifestQuery, testErr: string)
    requires PastPreCommands(c, manifest)
    requires Replaces(c, manifest) ==> c.runner.value.Outcome(UninstallCommand(c)).None?
    requires c.runner.value.Outcome(DeployCommand(c)).None?
    requires c.test && c.runner.value.Outcome(TestCommand(c)) == Some(testErr)
    ensures var tested := BeforeDeploy(c, manifest) + [DeployCommand(c), TestCommand(c)];
      var rollback := c.runner.value.Outcome(RollbackCommand(c));
      Run(c, manifest) ==
        if !c.testRollback then
          Execution(Error(HelmError("release failed and rollback successful", RollbackSuccess, testErr)), tested)
        else if rollback.Some? then
          Execution(Error(HelmError("release and rollback failed", RollbackFailed, rollback.value)), tested + [RollbackCommand(c)])
        else
          Execution(Error(HelmError("release failed and rollback successful", RollbackSuccess, testErr)), tested + [RollbackCommand(c)])
  {
    RunReachesDeploy(c, manifest);
    var b := BeforeDeploy(c, manifest);
    assert b + [DeployCommand(c)] + [TestCommand(c)] == b + [DeployCommand(c), TestCommand(c)];
  }

  /** The commands issued before the post-commands, on a run that gets that far. */
  function BeforePost(c: Config, manifest: ManifestQuery): seq<Command>
    requires !ReleaseImage(manifest).IndexPanic?
  {
    BeforeDeploy(c, manifest) + [DeployCommand(c)] + (if c.test then [TestCommand(c)] else [])
  }

  /**
   * A failing post-command ends Run with PostFail wrapping the Runner's
   * error; the post-commands after it are not issued.
   */
  lemma {:induction false} PostCommandFailure(c: Config, manifest: ManifestQuery, k: nat, e: string)
    requires PastPreCommands(c, manifest)
    requires Replaces(c, manifest) ==> c.runner.value.Outcome(UninstallCommand(c)).None?
    requires c.runner.value.Outcome(DeployCommand(c)).None?
    requires c.test ==> c.runner.value.Outcome(TestCommand(c)).None?
    requires k < |c.postCmds| && AllPass(c.runner, c.postCmds[..k])
    requires |c.postCmds[k]| > 0 && c.runner.value.Outcome(c.postCmds[k]) == Some(e)
    ensures Run(c, manifest) ==
      Execution(Error(HelmError("postcmd failed", PostFail, e)), BeforePost(c, manifest) + c.postCmds[..k + 1])
  {
    RunReachesDeploy(c, manifest);
    FirstStopAt(c.runner, c.postCmds, k);
  }

  /** An empty post-command panics, with only the earlier post-commands issued. */
  lemma {:induction false} PostCommandPanic(c: Config, manifest: ManifestQuery, k: nat)
    requires PastPreCommands(c, manifest)
    requires Replaces(c, manifest) ==> c.runner.value.Outcome(UninstallCommand(c)).None?
    requires c.runner.value.Outcome(DeployCommand(c)).None?
    requires c.test ==> c.runner.value.Outcome(TestCommand(c)).None?
    requires k < |c.postCmds| && AllPass(c.runner, c.postCmds[..k]) && |c.postCmds[k]| == 0
    ensures Run(c, manifest) == Execution(Panic, BeforePost(c, manifest) + c.postCmds[..k])
  {
    RunReachesDeploy(c, manifest);
    FirstStopAt(c.runner, c.postCmds, k);
  }

  /** The commands a run issues when every one of them goes through. */
  function SuccessTrace(c: Config, replace: bool): seq<Command>
  {
    c.preCmds
    + (if replace then [UninstallCommand(c)] else [])
    + [DeployCommand(c)]
    + (if c.test then [TestCommand(c)] else [])
    + c.postCmds
  }

  lemma {:induction false} AllPassConcat(runner: Option<Runner>, a: seq<Command>, b: seq<Command>)
    ensures AllPass(runner, a + b) <==> AllPass(runner, a) && AllPass(runner, b)
  {
    if AllPass(runner, a + b) {
      forall j | 0 <= j < |a|
        ensures Passes(runner, a[j])
      {
        assert (a + b)[j] == a[j];
      }
      forall j | 0 <= j < |b|
        ensures Passes(runner, b[j])
      {
        assert (a + b)[|a| + j] == b[j];
      }
    }
    if AllPass(runner, a) && AllPass(runner, b) {
      forall j | 0 <= j < |a + b|
        ensures Passes(runner, (a + b)[j])
      {
        if j < |a| {
          assert (a + b)[j] == a[j];
        } else {
          assert (a + b)[j] == b[j - |a|];
        }
      }
    }
  }

  lemma {:induction false} AllPassSingle(runner: Option<Runner>, cmd: Command)
    ensures AllPass(runner, [cmd]) <==> Passes(runner, cmd)
  {
    assert [cmd][0] == cmd;
  }

  /** Every command of the plan goes through exactly when each stage's commands do. */
  lemma {:induction false} SuccessTracePasses(c: Config, replace: bool)
    ensures AllPass(c.runner, SuccessTrace(c, replace)) <==>
      && AllPass(c.runner, c.preCmds)
      && (replace ==> Passes(c.runner, UninstallCommand(c)))
      && Passes(c.runner, DeployCommand(c))
      && (c.test ==> Passes(c.runner, TestCommand(c)))
      && AllPass(c.runner, c.postCmds)
  {
    var u: seq<Command> := if replace then [UninstallCommand(c)] else [];
    var t: seq<Command> := if c.test then [TestCommand(c)] else [];
    AllPassConcat(c.runner, c.preCmds + u + [DeployCommand(c)] + t, c.postCmds);
    AllPassConcat(c.runner, c.preCmds + u + [DeployCommand(c)], t);
    AllPassConcat(c.runner, c.preCmds + u, [DeployCommand(c)]);
    AllPassConcat(c.runner, c.preCmds, u);
    AllPassSingle(c.runner, DeployCommand(c));
    AllPassSingle(c.runner, UninstallCommand(c));
    AllPassSingle(c.runner, TestCommand(c));
  }

  /**
   * The deploy stage returns nil exactly when the deploy, the test if
   * enabled and every post-command go through, and then it issues exactly
   * those, in that order.
   */
  lemma {:induction false} DeployDoneIff(c: Config, trace: seq<Command>)
    ensures Deploy(c, trace).result == Done <==>
      && Passes(c.runner, DeployCommand(c))
      && (c.test ==> Passes(c.runner, TestCommand(c)))
      && AllPass(c.runner, c.postCmds)
    ensures Deploy(c, trace).result == Done ==>
      Deploy(c, trace).trace == trace + [DeployCommand(c)] + (if c.test then [TestCommand(c)] else []) + c.postCmds
  {
    RunHooksDoneIff(c.runner, c.postCmds, "postcmd failed", PostFail);
  }

  /**
   * Run returns nil exactly when the manifest scan does not panic and every
   * command of the plan goes through; the trace is then the pre-commands in
   * order, the uninstall if C2U holds, the deploy, the test if enabled and
   * the post-commands in order.
   */
  lemma {:induction false} RunSucceedsIff(c: Config, manifest: ManifestQuery)
    ensures Run(c, manifest).result == Done <==>
      !ReleaseImage(manifest).IndexPanic? && AllPass(c.runner, SuccessTrace(c, Replaces(c, manifest)))
    ensures Run(c, manifest).result == Done ==>
      !ReleaseImage(manifest).IndexPanic? && Run(c, manifest).trace == SuccessTrace(c, Replaces(c, manifest))
  {
    RunHooksDoneIff(c.runner, c.preCmds, "precmd failed", PreFail);
    if !ReleaseImage(manifest).IndexPanic? {
      var replace := Replaces(c, manifest);
      SuccessTracePasses(c, replace);
      if c.runner.Some? && AllPass(c.runner, c.preCmds)
        && (replace ==> c.runner.value.Outcome(UninstallCommand(c)).None?) {
        RunReachesDeploy(c, manifest);
        var b := BeforeDeploy(c, manifest);
        DeployDoneIff(c, b);
        assert SuccessTrace(c, replace) == b + [DeployCommand(c)] + (if c.test then [TestCommand(c)] else []) + c.postCmds;
      }
    }
  }
}
