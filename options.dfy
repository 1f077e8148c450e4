/**
 * The state of a HelmCmd as a value (the release descriptor), the command
 * runner it is given, and what each functional option and NewHelmCmd do to
 * that state.
 */
module Options {
  import opened Wrappers
  import opened GoStrings

  /** A command as issued to a Runner: the program, then its arguments. */
  type Command = seq<string>

  /**
   * The Runner behind `Runner.Run(ctx, program, args...)`, as an oracle:
   * the commands in `failures` fail with the given message, all others
   * succeed.
   */
  datatype Runner = Runner(failures: map<Command, string>)
  {
    /** The error of running `cmd`, or None when it succeeds. */
    function Outcome(cmd: Command): Option<string>
    {
      if cmd in failures then Some(failures[cmd]) else None
    }
  }

  /** The fields of HelmCmd that Run and the options use; `runner` None is a nil Runner. */
  datatype Config = Config(
    release: string,
    chart: string,
    args: seq<string>,
    unInsArgs: seq<string>,
    image: string,
    tag: string,
    preCmds: seq<Command>,
    postCmds: seq<Command>,
    runner: Option<Runner>,
    test: bool,
    testRollback: bool)

  /** The HelmCmd that NewHelmCmd starts from. */
  const Initial: Config := Config("", "", [], [], "", "", [], [], None, false, false)

  /** The options a caller can pass to NewHelmCmd, one per With* constructor. */
  datatype HelmOption =
    | WithRelease(release: string)
    | WithChart(chart: string)
    | WithNamespace(namespace: string)
    | WithLint(lint: bool)
    | WithAtomic(atomic: bool)
    | WithWait(wait: bool)
    | WithForce(force: bool)
    | WithCleanupOnFail(cleanup: bool)
    | WithDryRun(dry: bool)
    | WithDebug(debug: bool)
    | WithTimeout(timeout: string)
    | WithHelmRepos(repos: seq<string>)
    | WithBuildDependencies(build: bool, chart: string)
    | WithUpdateDependencies(update: bool, chart: string)
    | WithTest(test: bool, release: string)
    | WithTestRollback(testRollback: bool, release: string)
    | WithValues(values: seq<string>)
    | WithValuesString(values: seq<string>)
    | WithValuesYaml(file: string)
    | WithPreCommand(command: Command)
    | WithPostCommand(command: Command)
    | WithKubeConfig(config: string)
    | WithRunner(runner: Option<Runner>)

  /** The state after an option ran, and the error it returned, if any. */
  datatype Applied = Applied(cfg: Config, err: Option<string>)

  /** WithInstallUpgradeMode: put `upgrade --install` in front of the arguments. */
  function InstallUpgradeMode(c: Config): Config
  {
    c.(args := ["upgrade", "--install"] + c.args)
  }

  /** `arg` appended to the deploy arguments when `flag` is set. */
  function AddFlag(c: Config, flag: bool, arg: string): Config
  {
    if flag then c.(args := c.args + [arg]) else c
  }

  function FormatError(entry: string): string
  {
    "not in key=value format: " + entry
  }

  /** An entry of the form key=value. */
  predicate IsKeyValue(v: string)
  {
    '=' in v
  }

  /** One key=value entry of a values option: record the image if asked, append `flag, key=value`. */
  function SetEntry(c: Config, key: string, value: string, flag: string, tracksImage: bool): (r: Config)
  {
    var c1 := if tracksImage && key == "image.repository" then c.(image := value) else c;
    var c2 := if tracksImage && key == "image.tag" then c1.(tag := value) else c1;
    c2.(args := c2.args + [flag, key + "=" + value])
  }

  /**
   * WithValues (flag "--set", tracking image.repository and image.tag) and
   * WithValuesString (flag "--set-string", tracking nothing): each entry is
   * split at its first '='; one without '=' stops with an error, the others
   * are set in order.
   */
  function AddValues(c: Config, values: seq<string>, flag: string, tracksImage: bool): (a: Applied)
    decreases |values|
  {
    if values == [] then Applied(c, None)
    else
      var split := SplitN(values[0], '=', 2);
      if |split| != 2 then Applied(c, Some(FormatError(values[0])))
      else AddValues(SetEntry(c, split[0], split[1], flag, tracksImage), values[1..], flag, tracksImage)
  }

  /** `helm repo add` for the fields name, url, username, password, insecure of a repo entry. */
  function RepoAddCommand(fields: seq<string>): Command
    requires |fields| == 5
  {
    ["helm", "repo", "add", "--username", fields[2], "--password", fields[3], fields[0], fields[1]]
    + (if fields[4] == "yes" then ["--insecure-skip-tls-verify"] else [])
  }

  /** A repo entry with the five fields name=url=username=password=insecure. */
  predicate IsRepoEntry(repo: string)
  {
    |SplitN(repo, '=', 5)| == 5
  }

  /** The loop of WithHelmRepos: one `helm repo add` per entry, up to the first malformed entry. */
  function AddRepoEntries(c: Config, repos: seq<string>): Applied
    decreases |repos|
  {
    if repos == [] then Applied(c, None)
    else
      var split := SplitN(repos[0], '=', 5);
      if |split| != 5 then Applied(c, Some(FormatError(repos[0])))
      else AddRepoEntries(c.(preCmds := c.preCmds + [RepoAddCommand(split)]), repos[1..])
  }

  const RepoUpdate: Command := ["helm", "repo", "update"]
  const RepoList: Command := ["helm", "repo", "list"]

  /** WithHelmRepos: nothing for no entries; else the entries, then `repo update` and `repo list`. */
  function AddRepos(c: Config, repos: seq<string>): Applied
  {
    if repos == [] then Applied(c, None)
    else
      var a := AddRepoEntries(c, repos);
      if a.err.Some? then a
      else Applied(a.cfg.(preCmds := a.cfg.preCmds + [RepoUpdate, RepoList]), None)
  }

  /** What one option does to the state; options read the state as it is when they run. */
  function ApplyOption(c: Config, o: HelmOption): Applied
  {
    match o
    case WithRelease(release) => Applied(c.(release := release), None)
    case WithChart(chart) => Applied(c.(chart := chart), None)
    case WithNamespace(ns) =>
      Applied(c.(args := c.args + ["-n", ns], unInsArgs := c.unInsArgs + ["-n", ns]), None)
    case WithLint(lint) =>
      Applied(if lint then c.(preCmds := c.preCmds + [["helm", "lint", c.chart]]) else c, None)
    case WithAtomic(atomic) => Applied(AddFlag(c, atomic, "--atomic"), None)
    case WithWait(wait) => Applied(AddFlag(c, wait, "--wait"), None)
    case WithForce(force) => Applied(AddFlag(c, force, "--force"), None)
    case WithCleanupOnFail(cleanup) => Applied(AddFlag(c, cleanup, "--cleanup-on-fail"), None)
    case WithDryRun(dry) => Applied(AddFlag(c, dry, "--dry-run"), None)
    case WithDebug(debug) => Applied(AddFlag(c, debug, "--debug"), None)
    case WithTimeout(timeout) => Applied(c.(args := c.args + ["--timeout", timeout]), None)
    case WithHelmRepos(repos) => AddRepos(c, repos)
    case WithBuildDependencies(build, chart) =>
      Applied(if build then c.(preCmds := c.preCmds + [["helm", "dependency", "build", chart]]) else c, None)
    case WithUpdateDependencies(update, chart) =>
      Applied(if update then c.(preCmds := c.preCmds + [["helm", "dependency", "update", chart]]) else c, None)
    case WithTest(test, _) => Applied(c.(test := test), None)
    case WithTestRollback(testRollback, _) => Applied(c.(testRollback := testRollback), None)
    case WithValues(values) => AddValues(c, values, "--set", true)
    case WithValuesString(values) => AddValues(c, values, "--set-string", false)
    case WithValuesYaml(file) =>
      Applied(if file != "" then c.(args := c.args + ["--values", file]) else c, None)
    case WithPreCommand(command) => Applied(c.(preCmds := c.preCmds + [command]), None)
    case WithPostCommand(command) => Applied(c.(postCmds := c.postCmds + [command]), None)
    case WithKubeConfig(config) =>
      Applied(
        if config != "" then c.(args := c.args + ["--kubeconfig", config], unInsArgs := c.unInsArgs + ["--kubeconfig", config])
        else c,
        None)
    case WithRunner(runner) => Applied(c.(runner := runner), None)
  }

  /** The options applied in order, stopping at the first that returns an error. */
  function ApplyOptions(c: Config, options: seq<HelmOption>): Applied
    decreases |options|
  {
    if options == [] then Applied(c, None)
    else
      var a := ApplyOption(c, options[0]);
      if a.err.Some? then a else ApplyOptions(a.cfg, options[1..])
  }

  /** NewHelmCmd(WithInstallUpgradeMode(), options...): the validated HelmCmd, or the error. */
  function Build(options: seq<HelmOption>): Result<Config, string>
  {
    var a := ApplyOptions(InstallUpgradeMode(Initial), options);
    if a.err.Some? then Failure("unable to parse option: " + a.err.value)
    else if a.cfg.release == "" then Failure("release name is required")
    else if a.cfg.chart == "" then Failure("chart path is required")
    else if a.cfg.runner.None? then Failure("runner is required")
    else Success(a.cfg.(args := a.cfg.args + [a.cfg.release, a.cfg.chart]))
  }

  // ---------------------------------------------------------------------
  // Properties of the options

  /** `key=value` rebuilt from the split at the first '=' is the entry itself. */
  lemma {:induction false} KeyValueRebuilds(v: string)
    requires |SplitN(v, '=', 2)| == 2
    ensures SplitN(v, '=', 2)[0] + "=" + SplitN(v, '=', 2)[1] == v
  {
    JoinSplitN(v, '=', 2);
    var parts := SplitN(v, '=', 2);
    assert parts[1..] == [parts[1]];
  }

  /** An entry splits into a key and a value exactly when it contains '='. */
  lemma {:induction false} KeyValueSplits(v: string)
    ensures |SplitN(v, '=', 2)| == 2 <==> '=' in v
  {
    SplitNLength(v, '=', 2);
    CountZero('=', v);
  }

  /** The deploy arguments that a values option appends for `values`: each entry after the flag. */
  function SetFlags(values: seq<string>, flag: string): seq<string>
  {
    if values == [] then [] else [flag, values[0]] + SetFlags(values[1..], flag)
  }

  /** In SetFlags every entry, unchanged and in order, follows the flag. */
  lemma {:induction false} SetFlagsAt(values: seq<string>, flag: string)
    ensures |SetFlags(values, flag)| == 2 * |values|
    ensures forall i :: 0 <= i < |values| ==>
      SetFlags(values, flag)[2 * i] == flag && SetFlags(values, flag)[2 * i + 1] == values[i]
  {
    if values != [] {
      var rest := SetFlags(values[1..], flag);
      SetFlagsAt(values[1..], flag);
      forall i | 1 <= i < |values|
        ensures SetFlags(values, flag)[2 * i] == flag && SetFlags(values, flag)[2 * i + 1] == values[i]
      {
        assert SetFlags(values, flag)[2 * i] == rest[2 * (i - 1)];
        assert SetFlags(values, flag)[2 * i + 1] == rest[2 * (i - 1) + 1];
        assert values[i] == values[1..][i - 1];
      }
    }
  }

  /** The deploy arguments `after` are `before` followed by the flagged entries. */
  predicate AppendsSetFlags(before: seq<string>, after: seq<string>, values: seq<string>, flag: string)
  {
    after == before + SetFlags(values, flag)
  }

  /** Setting a well-formed entry appends the flag and the entry itself. */
  lemma {:induction false} SetEntryArgs(c: Config, v: string, flag: string, tracksImage: bool)
    requires IsKeyValue(v)
    ensures var split := SplitN(v, '=', 2);
      |split| == 2 && SetEntry(c, split[0], split[1], flag, tracksImage).args == c.args + [flag, v]
  {
    KeyValueSplits(v);
    KeyValueRebuilds(v);
    var split := SplitN(v, '=', 2);
    SetEntryAppends(c, split[0], split[1], flag, tracksImage);
  }

  lemma SetEntryAppends(c: Config, key: string, value: string, flag: string, tracksImage: bool)
    ensures SetEntry(c, key, value, flag, tracksImage).args == c.args + [flag, key + "=" + value]
  {
  }

  /**
   * WithValues / WithValuesString fail exactly when some entry has no '=',
   * and then with the message naming the first such entry.
   */
  lemma {:induction false} AddValuesFails(c: Config, values: seq<string>, flag: string, tracksImage: bool)
    ensures AddValues(c, values, flag, tracksImage).err.Some? <==>
      exists i :: 0 <= i < |values| && !IsKeyValue(values[i])
    ensures forall i :: 0 <= i < |values| && !IsKeyValue(values[i]) && (forall j :: 0 <= j < i ==> IsKeyValue(values[j])) ==>
              AddValues(c, values, flag, tracksImage).err == Some(FormatError(values[i]))
    decreases |values|
  {
    if values != [] {
      var v := values[0];
      KeyValueSplits(v);
      var split := SplitN(v, '=', 2);
      if |split| == 2 {
        var c1 := SetEntry(c, split[0], split[1], flag, tracksImage);
        AddValuesFails(c1, values[1..], flag, tracksImage);
        forall i | 1 <= i < |values|
          ensures values[i] == values[1..][i - 1]
        {
        }
      }
    }
  }

  /** On success, each entry of WithValues / WithValuesString, unchanged, follows the flag. */
  lemma {:induction false} AddValuesAppends(c: Config, values: seq<string>, flag: string, tracksImage: bool)
    requires AddValues(c, values, flag, tracksImage).err.None?
    ensures AppendsSetFlags(c.args, AddValues(c, values, flag, tracksImage).cfg.args, values, flag)
    decreases |values|
  {
    if values != [] {
      var v := values[0];
      KeyValueSplits(v);
      var split := SplitN(v, '=', 2);
      SetEntryArgs(c, v, flag, tracksImage);
      var c1 := SetEntry(c, split[0], split[1], flag, tracksImage);
      AddValuesAppends(c1, values[1..], flag, tracksImage);
      assert c.args + [flag, v] + SetFlags(values[1..], flag) == c.args + SetFlags(values, flag);
    }
  }

  /** The key an entry sets, or "" when it has no '='. */
  function KeyOf(v: string): string
  {
    var split := SplitN(v, '=', 2);
    if |split| == 2 then split[0] else ""
  }

  function ValueOf(v: string): string
  {
    var split := SplitN(v, '=', 2);
    if |split| == 2 then split[1] else ""
  }

  /**
   * After WithValues succeeds, Image holds the value of the last
   * image.repository entry, or its old value when there is none; likewise
   * Tag and image.tag.
   */
  lemma {:induction false} AddValuesTracksImage(c: Config, values: seq<string>, key: string)
    requires key == "image.repository" || key == "image.tag"
    requires AddValues(c, values, "--set", true).err.None?
    ensures var cfg := AddValues(c, values, "--set", true).cfg;
      var got := if key == "image.repository" then cfg.image else cfg.tag;
      var had := if key == "image.repository" then c.image else c.tag;
      && ((forall i :: 0 <= i < |values| ==> KeyOf(values[i]) != key) ==> got == had)
      && (forall i :: 0 <= i < |values| && KeyOf(values[i]) == key && IsLastKey(values, i, key) ==> got == ValueOf(values[i]))
    decreases |values|
  {
    if values != [] {
      var split := SplitN(values[0], '=', 2);
      AddValuesTracksImage(SetEntry(c, split[0], split[1], "--set", true), values[1..], key);
      forall i | 1 <= i < |values|
        ensures values[i] == values[1..][i - 1]
      {
      }
    }
  }

  /** No entry after `i` sets `key`. */
  predicate IsLastKey(values: seq<string>, i: nat, key: string)
  {
    forall j :: i < j < |values| ==> KeyOf(values[j]) != key
  }

  /** WithValues and WithValuesString change the deploy arguments, the image and the tag, nothing else. */
  lemma {:induction false} AddValuesFrame(c: Config, values: seq<string>, flag: string, tracksImage: bool)
    ensures var r := AddValues(c, values, flag, tracksImage).cfg;
      r == c.(args := r.args, image := r.image, tag := r.tag)
    decreases |values|
  {
    if values != [] {
      var split := SplitN(values[0], '=', 2);
      if |split| == 2 {
        AddValuesFrame(SetEntry(c, split[0], split[1], flag, tracksImage), values[1..], flag, tracksImage);
      }
    }
  }

  /** WithValuesString never touches Image or Tag. */
  lemma {:induction false} AddValuesStringKeepsImage(c: Config, values: seq<string>)
    ensures AddValues(c, values, "--set-string", false).cfg.image == c.image
    ensures AddValues(c, values, "--set-string", false).cfg.tag == c.tag
    decreases |values|
  {
    if values != [] {
      var split := SplitN(values[0], '=', 2);
      if |split| == 2 {
        AddValuesStringKeepsImage(SetEntry(c, split[0], split[1], "--set-string", false), values[1..]);
      }
    }
  }

  /** A repo entry has its five fields exactly when it holds at least four '='. */
  lemma {:induction false} RepoEntryFields(repo: string)
    ensures IsRepoEntry(repo) <==> Count('=', repo) >= 4
  {
    SplitNFull(repo, '=', 5);
  }

  /** `helm repo add` ends with --insecure-skip-tls-verify exactly when the fifth field is "yes". */
  lemma {:induction false} RepoAddInsecure(fields: seq<string>)
    requires |fields| == 5
    ensures |RepoAddCommand(fields)| == (if fields[4] == "yes" then 10 else 9)
    ensures RepoAddCommand(fields)[..9] ==
      ["helm", "repo", "add", "--username", fields[2], "--password", fields[3], fields[0], fields[1]]
    ensures fields[4] == "yes" ==> RepoAddCommand(fields)[9] == "--insecure-skip-tls-verify"
  {
  }

  /** The `helm repo add` command of a repo entry; no command for a malformed one. */
  function RepoAddOf(repo: string): Command
  {
    var split := SplitN(repo, '=', 5);
    if |split| == 5 then RepoAddCommand(split) else []
  }

  /** The `helm repo add` commands of the repo entries, in order. */
  function RepoAdds(repos: seq<string>): seq<Command>
  {
    if repos == [] then [] else [RepoAddOf(repos[0])] + RepoAdds(repos[1..])
  }

  /** RepoAdds holds one `helm repo add` per entry, at the entry's position. */
  lemma {:induction false} RepoAddsAt(repos: seq<string>)
    ensures |RepoAdds(repos)| == |repos|
    ensures forall i :: 0 <= i < |repos| ==> RepoAdds(repos)[i] == RepoAddOf(repos[i])
  {
    if repos != [] {
      RepoAddsAt(repos[1..]);
      forall i | 1 <= i < |repos|
        ensures RepoAdds(repos)[i] == RepoAddOf(repos[i])
      {
        assert RepoAdds(repos)[i] == RepoAdds(repos[1..])[i - 1];
      }
    }
  }

  /** The entry loop of WithHelmRepos fails exactly when some entry does not have five fields. */
  lemma {:induction false} AddRepoEntriesFails(c: Config, repos: seq<string>)
    ensures AddRepoEntries(c, repos).err.Some? <==> exists i :: 0 <= i < |repos| && !IsRepoEntry(repos[i])
    decreases |repos|
  {
    if repos != [] && IsRepoEntry(repos[0]) {
      var c1 := c.(preCmds := c.preCmds + [RepoAddOf(repos[0])]);
      AddRepoEntriesStep(c, repos);
      AddRepoEntriesFails(c1, repos[1..]);
      forall i | 1 <= i < |repos|
        ensures repos[i] == repos[1..][i - 1]
      {
      }
    }
  }

  /** The entry loop stops at the first malformed entry, with the message naming it. */
  lemma {:induction false} AddRepoEntriesFirstError(c: Config, repos: seq<string>, i: nat)
    requires i < |repos| && !IsRepoEntry(repos[i])
    requires forall j :: 0 <= j < i ==> IsRepoEntry(repos[j])
    ensures AddRepoEntries(c, repos).err == Some(FormatError(repos[i]))
    decreases i
  {
    if i > 0 {
      AddRepoEntriesStep(c, repos);
      assert repos[1..][i - 1] == repos[i];
      AddRepoEntriesFirstError(c.(preCmds := c.preCmds + [RepoAddOf(repos[0])]), repos[1..], i - 1);
    }
  }

  /** WithHelmRepos fails with the message naming its first malformed entry. */
  lemma {:induction false} AddReposFirstError(c: Config, repos: seq<string>, i: nat)
    requires i < |repos| && !IsRepoEntry(repos[i])
    requires forall j :: 0 <= j < i ==> IsRepoEntry(repos[j])
    ensures AddRepos(c, repos).err == Some(FormatError(repos[i]))
  {
    AddRepoEntriesFirstError(c, repos, i);
  }

  /** The entry loop of WithHelmRepos changes the pre-commands only. */
  lemma {:induction false} AddRepoEntriesFrame(c: Config, repos: seq<string>)
    ensures var r := AddRepoEntries(c, repos).cfg; r == c.(preCmds := r.preCmds)
    decreases |repos|
  {
    if repos != [] && IsRepoEntry(repos[0]) {
      AddRepoEntriesFrame(c.(preCmds := c.preCmds + [RepoAddCommand(SplitN(repos[0], '=', 5))]), repos[1..]);
    }
  }

  /** WithHelmRepos changes the pre-commands only. */
  lemma {:induction false} AddReposFrame(c: Config, repos: seq<string>)
    ensures var r := AddRepos(c, repos).cfg; r == c.(preCmds := r.preCmds)
  {
    AddRepoEntriesFrame(c, repos);
  }

  /** One round of the entry loop over a well-formed first entry. */
  lemma AddRepoEntriesStep(c: Config, repos: seq<string>)
    requires repos != [] && IsRepoEntry(repos[0])
    ensures AddRepoEntries(c, repos) == AddRepoEntries(c.(preCmds := c.preCmds + [RepoAddOf(repos[0])]), repos[1..])
  {
  }

  /**
   * Regrouping one appended command; stated on its own so that proofs about
   * the repo loop need not reason about concatenation in a large context.
   */
  lemma PrependOne(before: seq<Command>, add: Command, rest: seq<Command>)
    ensures before + [add] + rest == before + ([add] + rest)
  {
  }

  /**
   * When the entry loop succeeds, it has appended one `helm repo add` per
   * entry, in order, after the existing pre-commands.
   */
  lemma {:induction false} AddRepoEntriesAppends(c: Config, repos: seq<string>)
    ensures AddRepoEntries(c, repos).err.None? ==>
      AddRepoEntries(c, repos).cfg.preCmds == c.preCmds + RepoAdds(repos)
    decreases |repos|
  {
    if repos != [] && IsRepoEntry(repos[0]) {
      var add := RepoAddOf(repos[0]);
      var c1 := c.(preCmds := c.preCmds + [add]);
      AddRepoEntriesStep(c, repos);
      AddRepoEntriesAppends(c1, repos[1..]);
      PrependOne(c.preCmds, add, RepoAdds(repos[1..]));
    }
  }

  /**
   * WithHelmRepos: with no entries it changes nothing; it fails exactly when
   * an entry lacks five fields; otherwise the repo adds come in order,
   * followed by `repo update` and `repo list`.
   */
  lemma {:induction false} AddReposResult(c: Config, repos: seq<string>)
    ensures repos == [] ==> AddRepos(c, repos) == Applied(c, None)
    ensures AddRepos(c, repos).err.Some? <==> exists i :: 0 <= i < |repos| && !IsRepoEntry(repos[i])
    ensures repos != [] && AddRepos(c, repos).err.None? ==>
      && (forall i :: 0 <= i < |repos| ==> IsRepoEntry(repos[i]))
      && AddRepos(c, repos).cfg.preCmds == c.preCmds + RepoAdds(repos) + [RepoUpdate, RepoList]
  {
    AddRepoEntriesFails(c, repos);
    AddRepoEntriesAppends(c, repos);
  }

  /** WithLint adds `helm lint` for the chart set by the options that ran before it, not after. */
  lemma {:induction false} LintSeesEarlierChart(c: Config, chart: string)
    ensures ApplyOptions(c, [WithLint(true), WithChart(chart)]).cfg.preCmds == c.preCmds + [["helm", "lint", c.chart]]
    ensures ApplyOptions(c, [WithChart(chart), WithLint(true)]).cfg.preCmds == c.preCmds + [["helm", "lint", chart]]
  {
    var lint := c.(preCmds := c.preCmds + [["helm", "lint", c.chart]]);
    assert [WithLint(true), WithChart(chart)][1..] == [WithChart(chart)];
    assert ApplyOptions(c, [WithLint(true), WithChart(chart)]) == ApplyOptions(lint, [WithChart(chart)]);
    assert ApplyOptions(lint, [WithChart(chart)]) == ApplyOptions(lint.(chart := chart), []);
    var charted := c.(chart := chart);
    assert [WithChart(chart), WithLint(true)][1..] == [WithLint(true)];
    assert ApplyOptions(c, [WithChart(chart), WithLint(true)]) == ApplyOptions(charted, [WithLint(true)]);
    assert ApplyOptions(charted, [WithLint(true)])
      == ApplyOptions(charted.(preCmds := c.preCmds + [["helm", "lint", chart]]), []);
  }

  /** No option takes away from or reorders the deploy arguments: it only appends. */
  lemma {:induction false} ApplyOptionExtendsArgs(c: Config, o: HelmOption)
    ensures c.args <= ApplyOption(c, o).cfg.args
  {
    match o
    case WithHelmRepos(repos) =>
      AddRepoEntriesFrame(c, repos);
    case WithValues(values) =>
      AddValuesExtendsArgs(c, values, "--set", true);
    case WithValuesString(values) =>
      AddValuesExtendsArgs(c, values, "--set-string", false);
    case _ =>
  }

  lemma {:induction false} AddValuesExtendsArgs(c: Config, values: seq<string>, flag: string, tracksImage: bool)
    ensures c.args <= AddValues(c, values, flag, tracksImage).cfg.args
    decreases |values|
  {
    if values != [] {
      var split := SplitN(values[0], '=', 2);
      if |split| == 2 {
        AddValuesExtendsArgs(SetEntry(c, split[0], split[1], flag, tracksImage), values[1..], flag, tracksImage);
      }
    }
  }

  lemma {:induction false} ApplyOptionsExtendsArgs(c: Config, options: seq<HelmOption>)
    ensures c.args <= ApplyOptions(c, options).cfg.args
    decreases |options|
  {
    if options != [] {
      ApplyOptionExtendsArgs(c, options[0]);
      var a := ApplyOption(c, options[0]);
      if a.err.None? {
        ApplyOptionsExtendsArgs(a.cfg, options[1..]);
      }
    }
  }

  /** The options fail exactly when one of them fails on the state the ones before it left. */
  lemma {:induction false} ApplyOptionsFails(c: Config, options: seq<HelmOption>)
    ensures ApplyOptions(c, options).err.Some? <==>
      exists i :: 0 <= i < |options| && ApplyOption(ApplyOptions(c, options[..i]).cfg, options[i]).err.Some?
    decreases |options|
  {
    if options != [] {
      var a := ApplyOption(c, options[0]);
      assert options[..1] == [options[0]];
      assert ApplyOptions(c, options[..0]).cfg == c;
      if a.err.None? {
        ApplyOptionsFails(a.cfg, options[1..]);
        forall i | 1 <= i <= |options|
          ensures ApplyOptions(c, options[..i]) == ApplyOptions(a.cfg, options[1..][..i - 1])
        {
          assert options[..i][1..] == options[1..][..i - 1];
        }
        if ApplyOptions(c, options).err.Some? {
          var i :| 0 <= i < |options[1..]| && ApplyOption(ApplyOptions(a.cfg, options[1..][..i]).cfg, options[1..][i]).err.Some?;
          assert options[i + 1] == options[1..][i];
        } else {
          forall i | 0 <= i < |options|
            ensures ApplyOption(ApplyOptions(c, options[..i]).cfg, options[i]).err.None?
          {
            if i > 0 {
              assert options[i] == options[1..][i - 1];
            }
          }
        }
      }
    }
  }

  /** Running options in two parts: the second part runs only when the first succeeded. */
  lemma {:induction false} ApplyOptionsAppend(c: Config, first: seq<HelmOption>, second: seq<HelmOption>)
    ensures var a := ApplyOptions(c, first);
      ApplyOptions(c, first + second) == if a.err.Some? then a else ApplyOptions(a.cfg, second)
    decreases |first|
  {
    if first != [] {
      var a := ApplyOption(c, first[0]);
      assert (first + second)[0] == first[0];
      assert (first + second)[1..] == first[1..] + second;
      if a.err.None? {
        ApplyOptionsAppend(a.cfg, first[1..], second);
      }
    } else {
      assert first + second == second;
    }
  }

  /**
   * When the options before position `k` succeed and the option at `k`
   * fails, the loop stops there: its state and error are that option's.
   */
  lemma {:induction false} ApplyOptionsFirstError(c: Config, options: seq<HelmOption>, k: nat)
    requires k < |options| && ApplyOptions(c, options[..k]).err.None?
    requires ApplyOption(ApplyOptions(c, options[..k]).cfg, options[k]).err.Some?
    ensures ApplyOptions(c, options) == ApplyOption(ApplyOptions(c, options[..k]).cfg, options[k])
  {
    assert options == options[..k] + options[k..];
    ApplyOptionsAppend(c, options[..k], options[k..]);
    assert options[k..][0] == options[k];
  }

  /**
   * NewHelmCmd fails exactly when an option fails, the release is empty,
   * the chart is empty or no Runner was given; each check has its own
   * message and they are made in that order.
   */
  lemma {:induction false} BuildFailsIff(options: seq<HelmOption>)
    ensures var a := ApplyOptions(InstallUpgradeMode(Initial), options);
      && (Build(options).Failure? <==>
            a.err.Some? || a.cfg.release == "" || a.cfg.chart == "" || a.cfg.runner.None?)
      && (a.err.Some? ==> Build(options) == Failure("unable to parse option: " + a.err.value))
      && (a.err.None? && a.cfg.release == "" ==> Build(options) == Failure("release name is required"))
      && (a.err.None? && a.cfg.release != "" && a.cfg.chart == "" ==>
            Build(options) == Failure("chart path is required"))
      && (a.err.None? && a.cfg.release != "" && a.cfg.chart != "" && a.cfg.runner.None? ==>
            Build(options) == Failure("runner is required"))
  {
  }

  /**
   * A HelmCmd that NewHelmCmd returns has a release, a chart and a Runner,
   * and its deploy arguments start with `upgrade --install` and end with the
   * release and the chart.
   */
  lemma {:induction false} BuildSuccess(options: seq<HelmOption>)
    requires Build(options).Success?
    ensures var c := Build(options).value;
      && c.release != "" && c.chart != "" && c.runner.Some?
      && |c.args| >= 4
      && c.args[..2] == ["upgrade", "--install"]
      && c.args[|c.args| - 2..] == [c.release, c.chart]
  {
    var start := InstallUpgradeMode(Initial);
    ApplyOptionsExtendsArgs(start, options);
    var a := ApplyOptions(start, options);
    var args := a.cfg.args + [a.cfg.release, a.cfg.chart];
    assert start.args == ["upgrade", "--install"];
    assert args[..2] == a.cfg.args[..2];
  }
}
