# helmForDone release orchestration, modelled in Dafny

This project models `internal/helm/helm.go` of helmForDone. The file is a thin
deployment engine that drives the `helm` command line tool for one release.

**Options and NewHelmCmd.** Functional options (`With*`) build a `HelmCmd`
in place. They fill in:
- the release and the chart;
- the deploy arguments (`Args`) and the uninstall arguments (`UnInsArgs`);
- the pre-commands and post-commands;
- the image and tag being deployed;
- the `Runner` that executes commands.

`NewHelmCmd` applies `WithInstallUpgradeMode` and then every option, in order.
It stops at the first option error. It then checks that a release, a chart
and a Runner are present, and appends the release and the chart to the deploy
arguments.

**Run.** `HelmCmd.Run` is a fail-fast pipeline. Its stages, in order:
1. The pre-commands.
2. If `C2U` holds, `helm uninstall <release> <uninstall args>`.
3. The deploy, `helm <args>`.
4. If `Test` is set, `helm test --logs <release>`. If that fails and
   `TestRollback` is set, `helm rollback <release>`.
5. The post-commands.

Every failure is wrapped in a `HelmError` tagged with the kind of its stage.

**C2U.** `C2U` decides whether to uninstall before deploying. It reads the
output of `helm get manifest` line by line (`getReleaseImage`). The first line
containing ` image: ` is split on `"`, and the segment at index 1 is the
deployed image. C2U is true when that image equals `Trim(Image + ":" + Tag, " ")`.

**How the model is built:**
- Modules:
  - `GoStrings`: the parts of Go's `strings` package that the file uses.
  - `HelmErrors`: the error kinds, `HelmError`, `Wrap` and `Error`.
  - `Manifest`: getReleaseImage and the C2U decision.
  - `Options`: the HelmCmd state as a value, every option, and `Build`, the specification of NewHelmCmd.
  - `Pipeline`: the specification of Run.
  - `Helm`: the class `HelmCmd`, whose methods update its fields in place.
- Each `HelmCmd` method is proved against its specification function. The
  properties are proved as lemmas about those functions.
- The `Runner` is an oracle. It maps each command (program followed by
  arguments) to a failure message; a command it does not map succeeds.
- The pipeline's result comes with its trace, the commands issued to the
  Runner in order.
- The output of `helm get manifest` is an input: either the error of starting
  the query, or the text read from standard output.
- Go runtime panics are modelled as explicit outcomes, not excluded by
  preconditions. There are three:
  - indexing an empty pre-command or post-command (`preCmd[0]`);
  - calling a nil Runner;
  - `strings.Split(line, "\"")[1]` on an image line without a quote. The
    guard above it, `len(imaArr) != 0`, is always true, so it does not stop this.

Three behaviours of Run are easy to misread; the model keeps them as the
code has them:
- A failing test with rollback disabled returns the kind
  `RollbackSuccessErrorKind`, wrapping the test error. No separate kind exists
  for that case.
- An uninstall failure and a deploy failure share `FailedErrorKind`.
- The uninstall failure context reads "helm uinnstall failed", with the
  doubled `n`.

## Model

| member | source | states |
|---|---|---|
| GoStrings.Contains | internal/helm/helm.go:423 | strings.Contains: whether the substring occurs at some position; ContainsIff characterises it |
| GoStrings.Trim | internal/helm/helm.go:389 | strings.Trim with one cut character: LeadingCut and TrailingCut characters dropped; TrimInfix characterises the result |
| GoStrings.Count | internal/helm/helm.go:424 | the number of occurrences of a character is at most the length |
| GoStrings.CountAppend | internal/helm/helm.go:424 | occurrences in a concatenation add up |
| GoStrings.IndexOf | internal/helm/helm.go:160 | the position returned holds the searched character and no earlier position does |
| GoStrings.ContainsIff | internal/helm/helm.go:423 | strings.Contains holds exactly when the substring occurs at some position |
| GoStrings.CountZero | internal/helm/helm.go:424-425 | a character is counted zero times exactly when it is absent |
| GoStrings.SplitN | internal/helm/helm.go:160 | strings.SplitN with n > 0 yields between one and n parts |
| GoStrings.JoinSplitN | internal/helm/helm.go:230 | joining the parts of SplitN with the separator gives back the input |
| GoStrings.CountFromFirst | internal/helm/helm.go:160 | cutting at the first separator leaves one separator fewer after it |
| GoStrings.SplitNLength | internal/helm/helm.go:160-161 | SplitN yields one part more than there are separators, capped at n |
| GoStrings.SplitNFull | internal/helm/helm.go:160-161 | SplitN yields all n parts exactly when the input holds at least n - 1 separators |
| GoStrings.SplitNPartsLackSep | internal/helm/helm.go:160 | no part of SplitN but the last holds the separator, nor the last when fewer than n parts came out |
| GoStrings.Split | internal/helm/helm.go:424 | strings.Split yields separator-count + 1 parts, none holding the separator, that join back to the input |
| GoStrings.SplitAllLength | internal/helm/helm.go:424 | with more room than separators SplitN yields one part per separator plus one |
| GoStrings.SplitAllLackSep | internal/helm/helm.go:424 | with more room than separators no part of SplitN holds the separator |
| GoStrings.LeadingCut | internal/helm/helm.go:389 | the count of characters strings.Trim drops in front: all of them are the cut character, and the next one is not |
| GoStrings.TrailingCut | internal/helm/helm.go:389 | the count of characters strings.Trim drops at the end: all of them are the cut character, and the one before is not |
| GoStrings.TrimInfix | internal/helm/helm.go:389 | strings.Trim leaves the infix between two runs of the cut character, neither starting nor ending with it |
| HelmErrors.Wrap | internal/helm/helm.go:446-452 | Wrap: a HelmError with the given context, kind and cause; WrapMessage states its kind and message |
| HelmErrors.Message | internal/helm/helm.go:442-444 | HelmError.Error(): context, ": ", cause; WrapMessage states its layout |
| HelmErrors.WrapMessage | internal/helm/helm.go:442-452 | a wrapped error keeps its kind, and its message starts with the context, then ": ", and ends with the cause |
| Manifest.Extract | internal/helm/helm.go:424-428 | segment 1 of the `"`-split of an image line, or the index panic when the line holds no quote; PanicIff and ImageHasNoQuote state it |
| Manifest.ScanLines | internal/helm/helm.go:416-431 | the line-by-line scan for " image: " that stops at the first match; ScanIsFirstMatch characterises it |
| Manifest.ReleaseImage | internal/helm/helm.go:398-433 | getReleaseImage on the query outcome; ImageFoundIff, LookupErrorIff and PanicIff characterise it |
| Manifest.ShouldReplace | internal/helm/helm.go:384-396 | the C2U decision on a lookup; ShouldReplaceIff characterises it |
| Manifest.NextNewline | internal/helm/helm.go:417 | ReadBytes stops at the first newline from the read position, or at the end of the output |
| Manifest.NextNewlineIs | internal/helm/helm.go:417 | a position with no newline before it from the start, holding a newline or the end, is where ReadBytes stops |
| Manifest.LinesFromAreLines | internal/helm/helm.go:416-418 | every line read from a position on ends with its only newline |
| Manifest.LinesAreLines | internal/helm/helm.go:416-418 | every line read ends with its only newline |
| Manifest.LinesFromPrefix | internal/helm/helm.go:416-421 | the lines read from a position, put together, are the output from that position on, up to some point |
| Manifest.LinesFromRest | internal/helm/helm.go:416-421 | no newline follows the lines read from a position |
| Manifest.LinesCoverText | internal/helm/helm.go:416-421 | the lines read, put together, are a prefix of the output, and only a tail without a newline is lost |
| Manifest.ReadLine | internal/helm/helm.go:417-421 | ReadBytes('\n') returns the next newline-terminated chunk, or reports that none is left when the output has no further newline |
| Manifest.FirstMatch | internal/helm/helm.go:416-423 | the index found is the first line holding " image: ", or the number of lines when no line holds it |
| Manifest.ScanIsFirstMatch | internal/helm/helm.go:416-431 | the scan returns the extraction of the first image line, or the EOF error when there is none |
| Manifest.FirstImageLineUnique | internal/helm/helm.go:416-431 | there is at most one first image line |
| Manifest.ImageFoundIff | internal/helm/helm.go:398-433 | getReleaseImage yields image x exactly when the output has a first image line whose second quote-separated segment is x |
| Manifest.LookupErrorIff | internal/helm/helm.go:404-422 | getReleaseImage errs exactly when the query fails to start or no complete line holds " image: " |
| Manifest.PanicIff | internal/helm/helm.go:423-428 | getReleaseImage panics exactly when the first image line holds no quote |
| Manifest.ImageHasNoQuote | internal/helm/helm.go:424-426 | an image found never holds a quote |
| Manifest.GetReleaseImage | internal/helm/helm.go:398-433 | the read-until-match loop returns what the scan of the output's lines returns |
| Manifest.ShouldReplaceIff | internal/helm/helm.go:384-396 | C2U is true exactly when the first image line's quoted value equals the trimmed image:tag; a failed query, or no image line, gives false |
| Options.InstallUpgradeMode | internal/helm/helm.go:48-52 | WithInstallUpgradeMode: upgrade --install before the existing arguments; HelmCmd.InstallUpgradeMode and BuildSuccess state it |
| Options.AddValues | internal/helm/helm.go:227-263 | WithValues and WithValuesString; AddValuesFails, AddValuesAppends, AddValuesTracksImage, AddValuesStringKeepsImage and AddValuesFrame characterise it |
| Options.AddRepoEntries | internal/helm/helm.go:155-179 | the entry loop of WithHelmRepos; AddRepoEntriesFails, AddRepoEntriesFirstError, AddRepoEntriesAppends and AddRepoEntriesFrame characterise it |
| Options.AddRepos | internal/helm/helm.go:149-189 | WithHelmRepos; AddReposResult, AddReposFirstError and AddReposFrame characterise it |
| Options.ApplyOption | internal/helm/helm.go:54-304 | what each of the 23 options does to the HelmCmd; HelmCmd.Apply is proved equal to it and ApplyOptionExtendsArgs states a property of it |
| Options.ApplyOptions | internal/helm/helm.go:314-319 | the option loop of NewHelmCmd, stopping at the first error; ApplyOptionsFails, ApplyOptionsFirstError and ApplyOptionsExtendsArgs characterise it |
| Options.Build | internal/helm/helm.go:306-333 | NewHelmCmd as a value; BuildFailsIff and BuildSuccess characterise it and NewHelmCmd is proved equal to it |
| Options.KeyValueRebuilds | internal/helm/helm.go:230-246 | the key, "=", and the value of the split at the first '=' rebuild the entry |
| Options.KeyValueSplits | internal/helm/helm.go:230-233 | an entry splits into exactly two fields exactly when it holds '=' |
| Options.SetFlagsAt | internal/helm/helm.go:244-246 | the flag-value list has the flag at every even position and the i-th entry right after it |
| Options.SetEntryArgs | internal/helm/helm.go:234-246 | setting a well-formed entry appends the flag and then the entry unchanged |
| Options.AddValuesFails | internal/helm/helm.go:227-263 | WithValues and WithValuesString fail exactly when some entry lacks '=', with the message naming the first such entry |
| Options.AddValuesAppends | internal/helm/helm.go:227-263 | on success each entry, unchanged, follows its flag, in order, after the existing deploy arguments |
| Options.AddValuesTracksImage | internal/helm/helm.go:236-243 | after WithValues, Image and Tag hold the last image.repository and image.tag values, or keep their old values when none is given |
| Options.AddValuesFrame | internal/helm/helm.go:227-263 | WithValues and WithValuesString change the deploy arguments, the image and the tag, and no other field |
| Options.AddValuesStringKeepsImage | internal/helm/helm.go:250-263 | WithValuesString never changes Image or Tag |
| Options.RepoEntryFields | internal/helm/helm.go:160-163 | a repo entry has its five fields exactly when it holds at least four '=' |
| Options.RepoAddInsecure | internal/helm/helm.go:170-178 | `helm repo add` carries the username, password, name and url, and ends with --insecure-skip-tls-verify exactly when the fifth field is "yes" |
| Options.RepoAddsAt | internal/helm/helm.go:160-178 | the list of repo adds holds, at each entry's position, the `helm repo add` of that entry |
| Options.AddRepoEntriesFails | internal/helm/helm.go:155-163 | the entry loop fails exactly when some entry lacks five fields |
| Options.AddRepoEntriesFirstError | internal/helm/helm.go:155-163 | the entry loop stops at the first entry without five fields, with "not in key=value format: " and that entry as its error |
| Options.AddReposFirstError | internal/helm/helm.go:149-189 | WithHelmRepos fails with the message naming its first malformed entry |
| Options.AddRepoEntriesFrame | internal/helm/helm.go:155-179 | the entry loop changes the pre-commands and no other field |
| Options.AddReposFrame | internal/helm/helm.go:149-189 | WithHelmRepos changes the pre-commands and no other field |
| Options.AddRepoEntriesStep | internal/helm/helm.go:155-179 | a well-formed first entry appends its `helm repo add` and the loop goes on with the rest |
| Options.AddRepoEntriesAppends | internal/helm/helm.go:155-179 | when the entry loop succeeds, it has appended one `helm repo add` per entry, in order, after the existing pre-commands |
| Options.AddReposResult | internal/helm/helm.go:149-189 | no entries change nothing; an error comes exactly when an entry is malformed; otherwise every entry is well-formed and the repo adds come in order, then `repo update` and `repo list` |
| Options.LintSeesEarlierChart | internal/helm/helm.go:77-86 | `helm lint` names the chart set by options before WithLint, not after |
| Options.ApplyOptionExtendsArgs | internal/helm/helm.go:54-304 | no option removes or reorders deploy arguments |
| Options.AddValuesExtendsArgs | internal/helm/helm.go:227-263 | the values options only append deploy arguments |
| Options.ApplyOptionsExtendsArgs | internal/helm/helm.go:314-319 | a sequence of options only appends deploy arguments |
| Options.ApplyOptionsFails | internal/helm/helm.go:314-319 | the option loop fails exactly when some option fails on the state left by the options before it |
| Options.ApplyOptionsAppend | internal/helm/helm.go:314-319 | running options in two parts: the second part runs only when the first succeeded |
| Options.ApplyOptionsFirstError | internal/helm/helm.go:314-319 | the option loop stops at the first failing option, with that option's state and error |
| Options.BuildFailsIff | internal/helm/helm.go:306-333 | NewHelmCmd fails exactly when an option fails, the release or chart is empty, or the Runner is nil; the checks run in that order, each with its own message |
| Options.BuildSuccess | internal/helm/helm.go:306-333 | a built HelmCmd has a release, a chart and a Runner; its arguments start with upgrade --install and end with release, chart |
| Pipeline.RunHooks | internal/helm/helm.go:336-341 | the pre-command and post-command loops; RunHooksDoneIff, PreCommandFailure, PreCommandPanic, PostCommandFailure and PostCommandPanic characterise it |
| Pipeline.Deploy | internal/helm/helm.go:355-381 | the deploy, test, rollback and post-command stages; DeployFailure, TestFailure, PostCommandFailure, PostCommandPanic and DeployDoneIff characterise it |
| Pipeline.Run | internal/helm/helm.go:335-382 | HelmCmd.Run as a value with its trace; PreCommandFailure, PreCommandPanic, NilRunnerPanic, ScanPanic, UninstallOnlyOnReplace, RunReachesDeploy, DeployFailure, TestFailure, PostCommandFailure, PostCommandPanic and RunSucceedsIff characterise it |
| Pipeline.FirstStop | internal/helm/helm.go:336-341 | the index returned is the first command that does not go through, or the list length |
| Pipeline.FirstStopAt | internal/helm/helm.go:336-341 | a position before which every command goes through, and at which one does not or the list ends, is where the hook loop stops |
| Pipeline.RunHooksDoneIff | internal/helm/helm.go:336-341 | a hook list succeeds exactly when every command goes through, and then it issues all of them in order |
| Pipeline.PreCommandFailure | internal/helm/helm.go:336-341 | a failing pre-command ends Run with PreFail; only the pre-commands up to it were issued |
| Pipeline.PreCommandPanic | internal/helm/helm.go:336-338 | an empty pre-command or a nil Runner panics with only the earlier pre-commands issued |
| Pipeline.NilRunnerPanic | internal/helm/helm.go:335-358 | with a nil Runner, Run panics at its first command (a pre-command, the uninstall or the deploy) and issues nothing |
| Pipeline.ScanPanic | internal/helm/helm.go:343 | when the manifest scan panics (C2U indexing a quoteless image line), Run panics with only the pre-commands issued |
| Pipeline.DeployTraceStarts | internal/helm/helm.go:355-358 | from the deploy stage on, the trace extends the earlier commands, and the deploy is issued next |
| Pipeline.UninstallOnlyOnReplace | internal/helm/helm.go:343-353 | after the pre-commands the uninstall is issued when C2U holds, the deploy otherwise; a failed uninstall ends Run with Failed before any deploy |
| Pipeline.BuiltUninstallIff | internal/helm/helm.go:343-358 | for a HelmCmd from NewHelmCmd the command after the pre-commands is the uninstall exactly when C2U holds |
| Pipeline.RunReachesDeploy | internal/helm/helm.go:343-355 | past the pre-commands and the uninstall, Run continues with the deploy stage |
| Pipeline.DeployFailure | internal/helm/helm.go:355-358 | a failing deploy ends Run with Failed; no test, rollback or post-command is issued |
| Pipeline.TestFailure | internal/helm/helm.go:359-374 | a failing test ends Run with no post-command: RollbackFailed with the rollback error if the rollback is enabled and fails, RollbackSuccess with the test error otherwise |
| Pipeline.PostCommandFailure | internal/helm/helm.go:375-380 | a failing post-command ends Run with PostFail wrapping the Runner's error; the trace ends at that post-command |
| Pipeline.PostCommandPanic | internal/helm/helm.go:375-377 | an empty post-command panics, with only the earlier post-commands issued |
| Pipeline.DeployDoneIff | internal/helm/helm.go:355-381 | the deploy stage succeeds exactly when the deploy, the test if enabled and every post-command go through, and then issues exactly those |
| Pipeline.SuccessTracePasses | internal/helm/helm.go:335-381 | every command of the full plan goes through exactly when each stage's commands do |
| Pipeline.RunSucceedsIff | internal/helm/helm.go:335-382 | Run returns nil exactly when the scan does not panic and every planned command goes through; then the trace is pre-commands, optional uninstall, deploy, optional test, post-commands |
| Helm.HelmCmd.constructor | internal/helm/helm.go:307-312 | the new HelmCmd is empty, with a nil Runner |
| Helm.HelmCmd.InstallUpgradeMode | internal/helm/helm.go:48-52 | upgrade --install is put before the existing arguments |
| Helm.HelmCmd.SetValues | internal/helm/helm.go:227-263 | the in-place loop leaves the state and the error that the values specification gives |
| Helm.HelmCmd.AddRepoEntryCommands | internal/helm/helm.go:155-179 | the in-place loop leaves the state and the error of the repo-entry specification |
| Helm.HelmCmd.AddRepoCommands | internal/helm/helm.go:149-189 | WithHelmRepos in place leaves the state and the error of its specification |
| Helm.HelmCmd.Apply | internal/helm/helm.go:54-304 | each option, applied in place, leaves the state and the error of its specification |
| Helm.HelmCmd.ApplySetting | internal/helm/helm.go:54-305 | WithRelease, WithChart, WithTest, WithTestRollback and WithRunner set their field as specified, without error |
| Helm.HelmCmd.ApplyCommand | internal/helm/helm.go:77-287 | WithLint, WithBuildDependencies, WithUpdateDependencies, WithPreCommand and WithPostCommand add their command as specified, without error |
| Helm.HelmCmd.ApplyArgs | internal/helm/helm.go:68-297 | WithNamespace, the flag options, WithTimeout, WithValuesYaml and WithKubeConfig add their arguments as specified, without error |
| Helm.HelmCmd.SetFlag | internal/helm/helm.go:88-95 | a boolean flag option appends its flag only when set |
| Helm.HelmCmd.C2U | internal/helm/helm.go:384-396 | C2U is undefined (panics) exactly when the scan panics, and otherwise is the replace decision on the current image and tag |
| Helm.HelmCmd.RunCommands | internal/helm/helm.go:336-341 | the hook loop issues and returns what the hook-list specification gives |
| Helm.HelmCmd.Run | internal/helm/helm.go:335-382 | Run issues exactly the commands, in order, and returns exactly the result of the pipeline specification |
| Helm.NewHelmCmd | internal/helm/helm.go:306-333 | NewHelmCmd returns a HelmCmd whose state is Build's, or nil and Build's error |

## Left out

- Process spawning for `helm get manifest` (exec.Command, StdoutPipe, Start, the bufio reader) is not modelled. The query's outcome is an input, so the manifest query does not appear in the Run trace. A read error in mid-stream is treated as the output ending there; both end getReleaseImage with an error.
- The `errors.New("no such release")` return after the read loop is unreachable, because the loop only ends by returning, so it has no counterpart.
- Real command execution behind the `Runner` interface is replaced by the oracle. The oracle gives the same outcome each time a command is issued. Context cancellation is left out.
- All `fmt.Printf`, `fmt.Println` and `log.Printf` output is left out; it is logging only.
- WithTimeout: the timeout is an opaque string standing for `time.Duration.String()`, whose formatting is not modelled.
- The `core` package is not part of this model. Its error kinds are the enum `HelmErrors.ErrorKind`.
- Wrapped errors are reduced to their message strings. `HelmErrors.Message` is `Context + ": " + message`.
- The callback fields `OnSuccess`, `OnTestSuccess`, `OnTestFailed`, `OnTestFailedRollbackSuccess` and `OnTestFailedRollbackFailed` are never read, and are left out.
- Go strings are byte sequences (`string(bl)` and the splitting and trimming on it); the model uses strings of characters. For the ASCII separators and cut character used here (`=`, `"`, newline, space) byte and character results agree on valid UTF-8; output that is not valid UTF-8 has no counterpart in the model.
- NewHelmCmd on a nil option: the Go code calls `option(h)` and panics; `HelmOption` values are never nil here, so that panic is not modelled.
- NewHelmCmd's mode parameter: `WithInstallUpgradeMode` is the only mode the file defines, so the model always applies it.
- Go slice aliasing (PreCmds holding the caller's `command` slice, `append` sharing backing arrays) is not modelled. Lists are values.
