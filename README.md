# gitman core, modelled in Dafny

`gitman` is a command-line tool that manages a folder of git working trees.
It scans the current folder for repositories and, given a GitHub access
token, lists the user's remote repositories. Remote repositories that are
already cloned in the folder are not offered again. The user picks some
names, and gitman turns the picks into a plan of pulls (local repositories)
and clones (remote ones). It shows a summary and, once the user confirms,
runs the git operations one after another. `gitman update` does the same
with the local repositories alone: all of them (`--all`) or a saved,
comma-separated selection. `--set-token` and `--clear-token` store or clear
the token.

The model covers the deterministic core of `bin/gitman-cli.js`, module by
module:

- `Records`: the `Repo` record.
  - Its defaults and its label. Colours and emoji are abstract tags.
  - How discovery builds local and remote records.
- `Registry`: the module-level `repositories` object.
  - A class with two name-keyed maps, filled during local and remote discovery.
  - The records `getRemoteRepos` returns for a token and a response.
  - `getRepoObjectsFromSelections`: looks a name up locally first, then remotely, and keeps unknown names as `undefined` (`None`).
- `Reconciliation`: the `filter`/`findIndex` that removes remote records already cloned locally.
- `Actions`:
  - `prepareActions`: a loop that throws at the first `undefined` entry.
  - `runActions`: a loop that issues commands against an abstract success oracle and stops at the first failure.
  - The summary that `confirmActions` builds, and the confirmation itself.
- `Config`:
  - Token normalisation in `configure` and the token gate in `getRemoteRepos`.
  - The saved selection, written with `join(',')` and read with `split(',')`.
  - Both are fields of a `Settings` class.
- `Text`: `String.prototype.trim`, `join` and `split`, with their round trips.
- `Gitman`: the `listRepositories` and `updateSelectedRepositories` flows that chain the pieces together.
- `Seqs` and `Wrappers`: a generic stable filter and `Option`/`Result`.

Git operations and the GitHub API become inputs:
- Discovery receives one `LocalProbe` per working tree: its name, the number of changed files and the current branch.
- The API answer is `Option<seq<RemoteInfo>>`; `None` is a failed request.
- Each git command's outcome comes from an oracle `ok: Command -> bool`.

Behaviour of the code that the model keeps as written:
- `runActions` has no failure isolation. The first rejected pull or clone ends the run: later items are not attempted and `done()` is not reached.
- Unknown picked or saved names are not dropped. They resolve to `undefined`, and `prepareActions` throws a TypeError when it reads `repo.remote` on the first one. The model returns `Failure(UndefinedEntry(i))`.
- Reconciliation compares records by `value` (the bare name), not by label.
- A saved empty selection is stored as `""`. That splits to `[""]`, so `gitman update` fails at entry 0 (`Gitman.EmptySavedSelection`).

`Repo` is a datatype, not a class. Its constructor assigns all fields once, and nothing in the core changes them afterwards. The label the constructor stores in `name` is therefore always equal to `Display` of the record, and `Display` recomputes it.

## Model

| member | source | states |
|---|---|---|
| Records.NewRepo | bin/gitman-cli.js:34-46 | `value` is the given name; `remote` and `uncommitedChanges` are true exactly when `props` sets them true, and false by default; `branch` and `cloneUrl` come from `props` |
| Records.Display | bin/gitman-cli.js:49-64 | the label starts with `value`, plain for a remote record and green for a local one; it has a ` (branch)` segment iff the branch is set and non-empty, coloured cyan iff it is `master` and red otherwise; it ends with the warning segment iff `uncommitedChanges`; its length is fixed by those three facts |
| Records.DisplayDetermines | bin/gitman-cli.js:49-64 | two records with the same label have the same name, origin, shown branch and dirty flag |
| Records.LocalRecord | bin/gitman-cli.js:124-127 | a local record is not remote, has `branch = status.current`, and is dirty iff the diff lists at least one file |
| Records.RemoteRecord | bin/gitman-cli.js:172-175 | a remote record has `remote = true`, `cloneUrl = ssh_url`, is clean and has no branch |
| Records.RecordLabels | bin/gitman-cli.js:49-64 | a remote record's label is its bare name; a local record's label starts with its green name and ends with the red "Uncommited changes" iff files changed |
| Records.LocalRecords | bin/gitman-cli.js:116-132 | discovery yields one local record per working tree, in scan order |
| Records.RemoteRecords | bin/gitman-cli.js:171-179 | the listing yields one remote record per API entry, in order |
| Registry.Indexed | bin/gitman-cli.js:128 | after storing each record under its `value`, the keys are the old keys plus every record name, and each entry is a record of that name or the untouched old entry |
| Registry.IndexedLast | bin/gitman-cli.js:128 | a record that no later record shares a name with is the one stored under its name (last write wins) |
| Registry.IndexedKeeps | bin/gitman-cli.js:176 | an entry whose key no stored record has is left unchanged |
| Registry.Lookup | bin/gitman-cli.js:193-195 | a name is undefined iff neither map has it; the local entry wins when there is one; otherwise the remote entry is returned |
| Registry.Resolve | bin/gitman-cli.js:191-197 | one entry per selected name, in order: the local record when the name is in the local map, otherwise the remote record, otherwise `undefined` |
| Registry.Registry.constructor | bin/gitman-cli.js:28-31 | both maps start empty |
| Registry.Registry.AddLocal | bin/gitman-cli.js:128 | the local map gains or overwrites the entry for the record's `value`; nothing else changes |
| Registry.Registry.AddRemote | bin/gitman-cli.js:176 | the remote map gains or overwrites the entry for the record's `value`; nothing else changes |
| Registry.Registry.DiscoverLocal | bin/gitman-cli.js:112-135 | returns the local records of the probes in order and leaves the local map equal to the old map with each of them stored under its name |
| Registry.Registry.DiscoverRemote | bin/gitman-cli.js:137-182 | returns the gated listing and leaves the remote map equal to the old map with each listed record stored under its name |
| Reconciliation.FindIndex | bin/gitman-cli.js:398-400 | the first position of a local record with that name, or -1 exactly when none has it |
| Reconciliation.Reconcile | bin/gitman-cli.js:396-401 | the offered list is a subsequence of the remote list, so it keeps the remote order; a record is offered iff it is a remote record and no local record has its name; and each such record is offered exactly as often as the remote list holds it, while a claimed one is never offered |
| Reconciliation.ReconcileWithoutLocals | bin/gitman-cli.js:396-401 | with no local records the remote list is offered unchanged |
| Reconciliation.ReconcileAllClaimed | bin/gitman-cli.js:396-401 | when every remote name is also a local name, nothing is offered |
| Reconciliation.ReconcileIdempotent | bin/gitman-cli.js:396-401 | filtering the offered list again changes nothing |
| Actions.Partition | bin/gitman-cli.js:203-215 | every record lands in exactly one list (lengths add up; the multisets add up to the input), `clones` holds exactly the remote records and `pulls` the rest, and each list keeps the input order |
| Actions.AllLocalPlan | bin/gitman-cli.js:257-259 | a list of local records plans as all pulls, in order, and no clones |
| Actions.PlanOf | bin/gitman-cli.js:199-221 | planning succeeds iff no entry is `undefined`; on success the plan is the partition of the records; otherwise it fails at the first `undefined` entry |
| Actions.PrepareActions | bin/gitman-cli.js:199-221 | the loop that pushes each record onto `clones` or `pulls`, stopping at an `undefined` entry, computes exactly `PlanOf` |
| Actions.PullCommands | bin/gitman-cli.js:227-232 | one pull per `pulls` entry, in order, at `root + "/" + value` |
| Actions.CloneCommands | bin/gitman-cli.js:234-239 | one clone per `clones` entry, in order, with `(cloneUrl, value)` |
| Actions.Commands | bin/gitman-cli.js:227-239 | the run's commands are all the pulls' commands followed by all the clones' commands, one per record |
| Actions.FirstFailure | bin/gitman-cli.js:227-239 | every operation before the returned position succeeds, and the one at it fails unless it is the end |
| Actions.Issued | bin/gitman-cli.js:227-239 | the issued commands are a prefix of the plan's commands that includes the first failing command, or else is every command; the last one failed iff the run stopped early |
| Actions.RunActions | bin/gitman-cli.js:223-242 | the issued commands are the plan's pulls and then its clones, up to and including the first failure; `done()` is reached iff nothing fails |
| Actions.IssuedSucceeded | bin/gitman-cli.js:227-239 | every issued command but the last succeeded |
| Actions.FailureEndsRun | bin/gitman-cli.js:227-241 | when command `i` fails, nothing after it is issued and the run does not finish |
| Actions.AllSucceed | bin/gitman-cli.js:227-241 | when every command succeeds, all are issued in plan order and the run finishes |
| Actions.Lines | bin/gitman-cli.js:444-446 | four pieces per record |
| Actions.LinesItems | bin/gitman-cli.js:444-446 | the `i`-th group of four pieces is the arrow line of the `i`-th record |
| Actions.Summary | bin/gitman-cli.js:438-454 | the summary is empty iff the plan is; it starts with the "Updating" header when there are pulls, otherwise with the "Cloning" header when there are clones; its length counts each present header and four pieces per record |
| Actions.SummaryText | bin/gitman-cli.js:438-454 | the `+=` accumulation builds exactly the summary: the "Updating" section, then the "Cloning" section, each a header followed by one arrow line per record |
| Actions.SectionContents | bin/gitman-cli.js:440-454 | a section names its records in order, and holds its header's emoji iff it has records |
| Actions.SummaryContents | bin/gitman-cli.js:438-454 | the summary names the pulled records and then the cloned ones, in order; each header appears iff its section is non-empty |
| Actions.ConfirmActions | bin/gitman-cli.js:437-469 | shows the summary; when declined, nothing is issued; when confirmed, the trace is that of `RunActions`, and the run completes iff no command fails |
| Config.StoredToken | bin/gitman-cli.js:272-276 | a string token is stored trimmed; any other value, including a missing one, is stored as "false" |
| Config.TokenUsable | bin/gitman-cli.js:138-143 | the gate is closed exactly for a missing token and the literal "false"; any other stored string, the empty one included, opens it |
| Config.ConfiguredGate | bin/gitman-cli.js:272-276 | after `configure`, remote listing is enabled iff a string was given whose trimmed form is not "false" |
| Config.ClearTokenDisables | bin/gitman-cli.js:527-528 | `--clear-token` stores "false", which disables remote listing |
| Registry.RemoteListing | bin/gitman-cli.js:137-182 | no records when the token is absent or "false", or when the request fails; otherwise one remote record per listed repository, with its name and SSH URL |
| Config.Settings.constructor | bin/gitman-cli.js:23-27 | the two stored keys start at the given values |
| Config.Settings.Configure | bin/gitman-cli.js:272-282 | stores the normalised token and nothing else; announces and authenticates for any defined token except "false" |
| Config.Settings.SaveSelection | bin/gitman-cli.js:492 | stores the names joined with ',' and nothing else |
| Config.Settings.SavedSelection | bin/gitman-cli.js:260-261 | present iff the key is stored; then it holds at least one name, and rejoining the names gives the stored string |
| Config.SelectionRoundTrip | bin/gitman-cli.js:492 | saving a non-empty list of names without ',' and loading it gives the list back |
| Config.EmptySelectionRoundTrip | bin/gitman-cli.js:492 | an empty selection is saved as "" and loads back as one empty name |
| Text.TrimStart | bin/gitman-cli.js:275 | the result is a suffix of the input, everything removed is whitespace, and the result does not start with whitespace |
| Text.TrimEnd | bin/gitman-cli.js:275 | the result is a prefix of the input, everything removed is whitespace, and the result does not end with whitespace |
| Text.Trim | bin/gitman-cli.js:275 | the result is a contiguous part of the input with only whitespace removed around it, and it neither starts nor ends with whitespace |
| Text.TrimIdempotent | bin/gitman-cli.js:275 | trimming twice is trimming once |
| Text.Join | bin/gitman-cli.js:492 | joining no parts gives ""; a join starts with its first part |
| Text.JoinSeparators | bin/gitman-cli.js:492 | a join of separator-free parts contains exactly one separator fewer than there are parts |
| Text.Split | bin/gitman-cli.js:261 | splitting never yields an empty list |
| Text.SplitPieces | bin/gitman-cli.js:261 | splitting gives one more piece than there are separators, and no piece contains the separator |
| Text.SplitJoin | bin/gitman-cli.js:261 | splitting a join of a non-empty list of separator-free parts gives the parts back |
| Text.JoinSplit | bin/gitman-cli.js:261 | joining the pieces of a split gives the string back |
| Gitman.ListRepositories | bin/gitman-cli.js:379-435 | starting from an empty registry, discovers the local records, offers the reconciled remote records, and plans exactly as `PlanOf` does for the picks resolved against both registered maps |
| Gitman.LocalWins | bin/gitman-cli.js:191-197 | a name that has a local record resolves to a local record of that name, even when a remote record has the same name |
| Gitman.OfferedNameResolves | bin/gitman-cli.js:403-432 | a name that was offered as a choice resolves to a local record or to an offered remote record |
| Gitman.PicksFromChoices | bin/gitman-cli.js:432-433 | when every pick was offered, planning succeeds with one action per pick, pulls come from the local records, and clones come from the offered remote records |
| Gitman.UpdateSelectedRepositories | bin/gitman-cli.js:254-270 | with `--all`, every local record is pulled and nothing is cloned; with nothing saved, nothing is planned; otherwise the saved names are split and resolved against the local records alone, then planned |
| Gitman.UnknownSavedName | bin/gitman-cli.js:255-262 | on the update path, a saved name with no local working tree resolves to `undefined` |
| Gitman.EmptySavedSelection | bin/gitman-cli.js:260-263 | when no working tree has an empty name, a saved "" makes planning fail at entry 0 |
| Gitman.SavedNameResolves | bin/gitman-cli.js:255-262 | a saved name that a working tree has resolves to a local record of that name |
| Gitman.SavedNamesResolve | bin/gitman-cli.js:255-262 | when every saved name has a working tree, no entry is `undefined`, and entry k is a local record named by the k-th name |
| Gitman.LocalPicksPlan | bin/gitman-cli.js:262-263 | local records picked by name plan as pulls in the named order and no clones |
| Gitman.SavedSelectionPulls | bin/gitman-cli.js:260-264 | saving a non-empty list of comma-free local names and updating pulls exactly those local records, in the saved order, and clones nothing |
| Gitman.TwoRepositoryOffer | bin/gitman-cli.js:396-401 | with local `proj1`, `proj2` and remote `proj1`, `proj3`, only `proj3` is offered |
| Gitman.TwoRepositoryRegistry | bin/gitman-cli.js:128 | discovering the example records stores each under its own name |
| Gitman.TwoRepositoryPicks | bin/gitman-cli.js:191-197 | in the example folder, `proj2` resolves to its working tree and `proj3` to its remote record |
| Gitman.PickPair | bin/gitman-cli.js:199-221 | one local record followed by one remote record plans one pull and one clone |
| Gitman.TwoRepositoryPlan | bin/gitman-cli.js:432-433 | picking `proj2` and `proj3`, resolved against the maps discovery fills, plans one pull of the local `proj2` and one clone of the remote `proj3` |
| Gitman.TwoRepositoryCommands | bin/gitman-cli.js:227-239 | that plan issues a pull at `root/proj2`, then a clone of `proj3` from its SSH URL |

## Left out

- Directory scanning (`getRepositoriesInPath`, `readdirSync`/`statSync`): filesystem I/O. Discovery takes the list of working trees as input.
- A failing discovery query: the model assumes every `diffSummary()` and `status()` call succeeds. In the source, one rejected query rejects the `Promise.all` in `getLocalRepos`, which ends `listRepositories` or `updateSelectedRepositories` with an unhandled rejection before any prompt or plan; that outcome is not modelled.
- The `simple-git` queries and operations (`diffSummary`, `status`, `pull`, `clone`): these are foreign calls. Their results are inputs (`LocalProbe`), or outcomes of the oracle `ok`. That oracle depends only on the command, not on earlier effects.
- The GitHub API calls (`authenticate`, `repos.list`, `repos.listForOrg`, `orgs.listMemberships`): network clients.
  - The API answer is an input, and a failed request is `None`.
  - The choice between the organisation endpoint and the personal endpoint (it depends on the local `github.org` key) is not modelled, because both return the same shape.
  - `getOrgs` is not modelled.
  - The printed error message is not modelled.
- `Promise.all` in `getLocalRepos` and `getRepositories`: the only concurrency. Discovery is modelled sequentially, in list order, so last write wins for duplicate names.
- `inquirer` prompts, the `setup` and `localSetup` wizards, token validation, `opn` and the `ora` spinners:
  - these are interactive UI;
  - the picked names and the confirmation answer are inputs.
- The checkbox choice list in `listRepositories`:
  - not modelled: the separators, the literal `[]` choice added when there are no local records, and the `fuzzysearch` filter (a third-party library);
  - what the model keeps: the offered records, and lemmas about picks drawn from them.
- `chalk`, `gradient-string` and `node-emoji`: terminal formatting. Colours and emoji are abstract tags, and the prompt text around the summary is not modelled.
- `Conf` storage beyond the `github.token` and `selectedRepos` keys:
  - the `type` and `github.org` keys are not modelled;
  - `resetLocalConfig` and the first-run check in `main` are left out, because they only clear or inspect the store.
- `caporal` option routing, `main`, `done`/`terminate` and `process.exit`: CLI wiring. Reaching `done()` is the `finished` / `Completed` result.
- `console.log` output: it has no effect on the modelled state. The summary is modelled because it is the message of the confirmation prompt (bin/gitman-cli.js:460).
- JavaScript object-key details of the `repositories` maps, such as inherited prototype keys like `constructor`, which would make a lookup truthy: the maps are plain Dafny maps.
- Non-boolean `remote` values in `props`: the source's `switch` treats every value other than `true` as a pull, and the core only ever passes `true` or nothing, so `Props.remote` is `Option<bool>`.
- test/test.js is not part of this model: it checks nothing about this logic.
