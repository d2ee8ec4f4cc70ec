# goArcaneGitOps sync tool — a Dafny model of its reconciliation core

The sync tool (`main.go`) keeps an Arcane server's Docker Compose projects in line with a git
checkout. A run goes like this:

1. It forces the checkout onto its remote branch. A failed fetch or reset to the remote ends the run.
2. It lists the project folders on disk and lists the Arcane inventory page by page.
3. It indexes the inventory by name and warns about names that occur more than once.
4. When the checkout was behind its remote branch (behind > 0), whether or not it was also
   ahead, it computes which projects' manifests changed between the old and the new commit.
   An ahead-only reset moves HEAD but computes no change set.
5. It creates the projects that exist only on disk, guarded by an exact-name lookup. Then it
   starts each one and redeploys it when the start fails.
6. It updates and redeploys the changed projects. When a name has several entries, the
   timestamps decide which ID is used.

This project models those decisions and proves the properties below. Git output, the
directory listing, file contents and the server's replies are inputs. The Arcane client is a
class that appends every request to a call log and reads its replies from given oracles.

| file | module | what it models |
|---|---|---|
| `wrappers.dfy` | `Wrappers` | `Option` and `Result` |
| `collections.dfy` | `Collections` | generic filtering and collecting over sequences, with their membership and order facts |
| `strings.dfy` | `Strings` | Go's `strings.TrimSpace`, `strings.Fields`, `strings.Split` and `fmt.Sscanf("%d")`, over `unicode.IsSpace` |
| `paths.dfy` | `Paths` | Go's `filepath.Clean`, `Base`, `Dir` and `Join` on `/`-separated paths |
| `gitsync.dfy` | `GitSync` | the `rev-list`/`status` parsing of `getGitStatus` and the git state machine of `main` |
| `changeset.dfy` | `ChangeSet` | `detectChangedProjects` |
| `diskscan.dfy` | `DiskScan` | `listDiskProjects` and `findComposeFile` |
| `arcane.dfy` | `Arcane` | the API client: `listProjectsAll` pagination, the exact-name filter, the request bodies, and the mutating calls with their call log |
| `tiebreak.dfy` | `TieBreak` | `selectPreferredProjectID` |
| `engine.dfy` | `Engine` | grouping by name, duplicate warnings, the create/sync classification, and the requests of the create and sync paths, as functions |
| `synctool.dfy` | `SyncTool` | `main` from the git sync on: the `Reconciler` class holding the name index, with the loops that mutate it |

The server's oracles work as follows:
- `catalog(search)` is the sequence of its replies to the listing requests for `search`, page
  by page. A page past the end of that sequence is empty, so an exhausted server ends the
  listing.
- `respond(n)` is its reply to the request that is `n`-th in the call log.

The time parse `parseArcaneTime` is a given function `string -> Option<int>`. It yields `None`
for an empty, unparsable or zero time.

## Model

| member | source | states |
|---|---|---|
| Strings.TrimSpace | main.go:724 | the result starts and ends with a non-space character, and is empty exactly when the input is all white space |
| Strings.TrimSpaceIsSlice | main.go:724 | the result is the slice of the input between a prefix and a suffix made only of white space |
| Strings.TrimSpaceOfPadded | main.go:724 | white space on both sides of a trimmed core, such as git's final line break, is removed and the core is kept exactly |
| Strings.Fields | main.go:724 | every field is non-empty and holds no white space |
| Strings.TwoFields | main.go:724-725 | two space-free words separated by one space character split into exactly those two fields |
| Strings.Split | main.go:782 | there is always at least one part, and no part holds the separator |
| Strings.JoinSplit | main.go:782 | splitting at a separator and joining back gives the input: no character is lost |
| Strings.SplitNoSeparator | main.go:782 | a string without the separator splits into itself alone |
| Strings.ScanInt | main.go:726-731 | a value is scanned only if it fits in 64 bits; the empty field is a scan error |
| Strings.ScanDecimal | main.go:726-731 | the decimal rendering of any in-range count scans back to that count |
| Paths.Base | main.go:795 | the base name is never empty and is slash-free unless it is the root |
| Paths.BaseOf | main.go:795 | the base of a path ending in `/name` is `name` |
| Paths.ParentName | main.go:801-802 | the base of the directory of `prefix + dir + "/" + file` is `dir` |
| Paths.Clean | main.go:801 | the cleaned path is never empty, is `.` for the empty path, and stays rooted when the input is |
| Paths.Dir | main.go:801 | the directory is never empty, is `.` for a path without `/`, and stays rooted when the input is |
| Paths.JoinPath | main.go:635 | the joined path is empty exactly when both parts are |
| GitSync.ParseGitStatus | main.go:724-740 | both counts stay 0 unless the trimmed `rev-list` output has exactly two fields; the tree is dirty exactly when the trimmed porcelain output is non-empty |
| GitSync.ParseGitStatusOfCounts | main.go:723-732 | git's output `behind<TAB>ahead` parses to exactly those counts, behind being the first field |
| GitSync.FirstFatalFailure | main.go:364-423 | the position of the first fetch or remote reset that fails, and no earlier command fatally failed |
| GitSync.Synchronize | main.go:355-426 | the commands run are the plan of the status's situation up to and including the first fatal failure, which is reported; otherwise the whole plan runs, a change is reported exactly when behind > 0 and ahead ≥ 0, and the failed clean-up commands are the warnings |
| GitSync.SyncDiverged | main.go:359-377 | ahead and behind: fetch, reset to the remote, then clean |
| GitSync.SyncAheadOnly | main.go:378-393 | ahead only: fetch and reset, with no change reported |
| GitSync.SyncBehindOnly | main.go:396-426 | behind only: a dirty tree is reset to HEAD and cleaned first, then fetch and reset |
| GitSync.DiscardLocalChanges | main.go:401-411 | resetting to HEAD and cleaning are both attempted, and their failures are only warnings |
| GitSync.FetchAndReset | main.go:364-371 | the remote reset is attempted only after a successful fetch; the step succeeds exactly when both do |
| GitSync.SyncConverges | main.go:355-426 | after an acting sync that did not fail fatally, the checkout is at the remote tip with no tracked edits; commands that fail change nothing, so the untracked files are gone exactly when the plan cleans (diverged, or behind with local changes) and that `git clean` succeeded, and are as they were otherwise |
| GitSync.NoActionLeavesCheckout | main.go:393-396 | an in-sync checkout issues no command and is left exactly as it was, local edits included |
| GitSync.CleanupFailuresAreWarnings | main.go:373-375 | when the fetch and the remote reset succeed, no other failure stops the run |
| GitSync.ResetFollowsFetch | main.go:364-423 | every reset to the remote directly follows a fetch of the same branch |
| ChangeSet.ChangedProjectsMembership | main.go:786-808 | a name is in the change set exactly when some changed line, once trimmed, is non-empty, names one of the four manifest files, and has that name as its directory's base |
| ChangeSet.DetectChangedProjects | main.go:766-811 | the map sends every changed project to itself and holds nothing else; equal commits and a failed diff give the empty map |
| ChangeSet.ManifestMarksItsProject | main.go:795-806 | a changed manifest `prefix + dir + "/" + name` puts `dir` in the change set |
| ChangeSet.ProjectOf | main.go:795-806 | the project of a changed line is the base of its directory: never empty, and slash-free unless it is the root |
| ChangeSet.TwoLines | main.go:782 | two changed lines of diff output, each ended by a line break as git prints them, split into exactly those two paths |
| ChangeSet.TwoFileExample | main.go:766-811 | the diff output `a/compose.yaml\nunrelated/readme.md\n` gives exactly `{a}` |
| DiskScan.FirstExisting | main.go:648-653 | the first of the given names from position `k` on whose file exists; none of the names between `k` and it exist |
| DiskScan.FindComposeFile | main.go:646-655 | `""` exactly when none of the four files exists; otherwise the path of the first existing one in priority order |
| DiskScan.ProjectNamesMembership | main.go:625-641 | a name is listed exactly when it belongs to a directory entry that is a folder, is not hidden, is not `syncTool`, and has a manifest |
| DiskScan.ProjectNamesKeepListingOrder | main.go:625-641 | the project names keep the order of the directory listing |
| DiskScan.ListDiskProjects | main.go:617-644 | an unreadable root is an error; otherwise the result is the project folders in listing order |
| Arcane.ReportedTotal | main.go:204-209 | the grand total when it is positive, else the total when it is positive, else 0 |
| Arcane.UnknownTotalNeverStops | main.go:200-212 | a full page without a positive total never stops the listing |
| Arcane.ListCalls | main.go:170-214 | the `i`-th listing request asks for 50 projects from `start = 50·i` |
| Arcane.ListAll | main.go:168-218 | between 1 and one more than the number of pages are requested; the listing fails exactly when the last requested page failed, and otherwise holds the projects of the requested pages in order |
| Arcane.ListAllIsListing | main.go:168-218 | every page before the last one fetched was a full page that did not reach the total. The last one failed, and then so did the listing with no partial list. Or the last one met a stop condition, and the listing returned the projects of all fetched pages in order |
| Arcane.Client.ListProjectsAll | main.go:168-218 | the listing loop sends exactly the specified requests and returns the specified result |
| Arcane.Client.ListProjects | main.go:135-137 | the listing without a search string |
| Arcane.Client.FindProjectsByNameExact | main.go:153-166 | a failed listing is an error; otherwise the listed projects named exactly `name`, in listing order |
| Arcane.WithNameMembership | main.go:159-164 | the exact-name filter keeps exactly the listed projects of that name |
| Arcane.WithNameKeepsOrder | main.go:159-164 | the exact-name filter keeps the listing order |
| Arcane.CreateBodyFields | main.go:223-229 | the create body holds the name and the compose content, holds the env content exactly when it is non-empty, and holds nothing else |
| Arcane.UpdateBodyFields | main.go:250-256 | the update body holds exactly the non-empty contents, under their keys |
| Arcane.CreatedId | main.go:241-244 | the reply's ID when it is non-empty, the project name otherwise |
| Arcane.Client.CreateProject | main.go:220-245 | one create request with the create body; a failure is an error, a success yields the created ID |
| Arcane.Client.UpdateProject | main.go:247-260 | one update request with the update body, reporting the reply's success |
| Arcane.Client.StartProject | main.go:262-266 | one start request for the ID, reporting the reply's success |
| Arcane.Client.RedeployProject | main.go:275-280 | one redeploy request for the ID, reporting the reply's success |
| Engine.GroupedLookup | main.go:451-454 | the index entry of every name is the listed projects of that name, in listing order |
| Engine.GroupedKeys | main.go:451-454 | only listed names are keys, and no entry is empty |
| Engine.DuplicateNames | main.go:457-465 | a name is warned about exactly when its entry holds more than one project |
| Engine.DuplicatesOfListing | main.go:451-465 | a name is warned about exactly when two listed projects carry it |
| Engine.ClassificationMembership | main.go:484-493 | a disk project is to be created exactly when it has no entry, and to be synced exactly when it has one and is in the change set; no project is in both lists |
| Engine.ClassificationKeepsDiskOrder | main.go:484-493 | both lists keep the disk order |
| Engine.RemoteOnlyUntouched | main.go:484-493 | a name only on the server is neither created nor synced, so nothing is deleted |
| Engine.SteadyStateIsQuiet | main.go:495-498 | with every disk project indexed and none changed, both lists are empty |
| Engine.ReadProjectFiles | main.go:505-522 | no files exactly when there is no manifest or it cannot be read; otherwise the compose content is what reading the manifest chosen in priority order gave, and the env content is what reading the project's `.env` gave, or empty when that read failed |
| Engine.ListCallsChangeNothing | main.go:168-218 | the listing requests of an exact-name lookup are not mutations, which lets the create-guard proofs count only the requests after the lookup |
| Engine.FreshCreate | main.go:539-562 | the entry a successful create records is never empty |
| Engine.CreateOutcome | main.go:505-562 | whatever the lookup and create replies, an entry the create step sets is never empty |
| Engine.CreateSkipsWithoutFiles | main.go:505-516 | a project without a readable manifest sends no request and changes no entry |
| Engine.CreateGuardFindsExisting | main.go:525-537 | when the exact-name lookup finds projects, nothing is created and the entry becomes what the lookup found |
| Engine.CreateWhenLookupFindsNothing | main.go:525-544 | when the lookup fails or finds nothing, the create request is sent with the project's contents; a failed create changes nothing else |
| Engine.CreateSucceeded | main.go:540-562 | a successful create is followed by exactly one start of the new ID, and by one redeploy of that ID exactly when the start failed; the entry becomes that single project |
| Engine.CreatePhaseKeepsOthers | main.go:503-563 | creating leaves the entry of every name not being created as it was |
| Engine.CreatePhaseNeverEmpties | main.go:503-563 | the create loop never empties a name's entry |
| Engine.CreateStepsSetEntries | main.go:525-562 | no create step of the reconciler sets an empty entry |
| Engine.ReconcilerCreatesNeverEmpty | main.go:503-575 | after the reconciler's creates, a name that had entries still has some, so its sync target is still taken from its entries |
| Engine.SyncCalls | main.go:577-611 | without readable files nothing is sent; otherwise an update of the target ID whose body is built from exactly the project's compose and env contents, then a redeploy of the same ID whatever the update's reply |
| Engine.SyncPhaseTouchesOnlyTargets | main.go:569-611 | the sync loop only updates and redeploys, and only under the target IDs of the projects it syncs |
| Engine.SyncTargetId | main.go:570-575 | a project with no entry is synced under its name, otherwise under the ID the timestamp tie-break prefers among its entries, which is one of their IDs |
| Engine.SyncTargetFallbacks | main.go:570-575 | a project with no entry is synced under its name, one with a single entry under that entry's ID |
| Engine.SyncTargetsIgnoreCreates | main.go:562-572 | the projects created earlier in the run do not change the ID a changed project is synced under |
| TieBreak.EffectiveTime | main.go:667-676 | the update time when it parses, the creation time otherwise |
| TieBreak.BestIndexIsPreferred | main.go:666-681 | after any number of candidates, the loop's best is the earliest-listed one with a maximal time, or the first when none has a time |
| TieBreak.PreferredIndexUnique | main.go:677 | ties keep the earlier candidate, so at most one index meets the reference choice |
| TieBreak.PreferredId | main.go:657-688 | `""` for no candidates, the only ID for one, otherwise the reference choice's ID, falling back to the first candidate's ID when that one is empty; for a non-empty list it is always one of the candidates' IDs |
| TieBreak.SelectPreferredProjectId | main.go:657-688 | the loop returns the reference choice's ID |
| TieBreak.TwoCandidates | main.go:672-681 | of two timed candidates the second wins only with a strictly later time |
| TieBreak.NoTimesChooseFirst | main.go:666-681 | when no candidate has a time, the first one is chosen |
| TieBreak.UntimedNeverChosen | main.go:677 | a candidate without a time is never chosen over one that has a time |
| SyncTool.Reconciler.IndexRemote | main.go:451-454 | the index becomes the in-order grouping of the listed projects |
| SyncTool.Reconciler.IndexInventory | main.go:442-465 | the whole inventory is listed once and indexed, a failed listing counting as empty, and the duplicate warnings are those of the index |
| SyncTool.Reconciler.Classify | main.go:484-493 | the two lists of the classification |
| SyncTool.Reconciler.CreateOne | main.go:503-563 | one iteration of the create loop sends the requests of the create step and sets the entry that step sets |
| SyncTool.Reconciler.CreateAndStart | main.go:539-562 | create, start, redeploy on a failed start, and a singleton entry for the new ID |
| SyncTool.Reconciler.CreateAll | main.go:501-564 | the create loop's requests and final index are those of the create phase |
| SyncTool.Reconciler.SyncOne | main.go:570-611 | one iteration of the sync loop sends that project's sync requests |
| SyncTool.Reconciler.SyncAll | main.go:567-612 | the sync loop's requests are those of the sync phase, in order |
| SyncTool.Reconciler.Act | main.go:484-612 | both lists empty: nothing is sent and the index is kept. Otherwise the create phase, then the sync phase under the index it left |
| SyncTool.Reconciler.Reconcile | main.go:434-612 | each outcome fixes the requests and the final index. A disk-scan failure sends nothing. A failure to read the new commit comes after the inventory listing. A quiet run sends only listing requests |
| SyncTool.Reconciler.Run | main.go:355-612 | a fatal git failure ends the run with no request sent; otherwise the whole git plan runs and the reconciliation follows with a change set exactly when behind > 0 and ahead ≥ 0 |

## Left out

- The HTTP layer is left out. The model does not cover `doRequest`, URLs, headers, timeouts, JSON encoding and decoding, or the mapping of status codes (main.go:92-133). Each request is a `Call` in the log, and each reply is an oracle value.
- `parseArcaneTime` (main.go:690-702) is a given function, because RFC 3339 parsing is not part of this model. It is only assumed to yield `None` for a zero time.
- Environment variables, configuration, logging, coloured output and git authentication (main.go:288-316, 813-915) are left out. They do not change the decisions.
- The git and file-system queries run before the sync are inputs, not modelled:
  - the initial `git fetch origin` (main.go:326-331);
  - `getCurrentBranch` (main.go:704-711) and `getCurrentCommit` (main.go:757-764);
  - the failures of the two `getGitStatus` commands, which end the process before any decision.
- `os.ReadDir`, `os.Stat` and `os.ReadFile` are inputs too: a directory listing, an existence predicate and a read function.
- `os.Exit` is modelled only as an outcome value (`GitFailed`, `DiskScanFailed`, `NewCommitFailed`).
- `DeployProject` (main.go:268-273) is never called, and `ProjectExists` (main.go:139-151) is never used.
- Go's map iteration order in the duplicate warnings (main.go:457) is not modelled. The warnings are the set of names with more than one entry, and the listed IDs are not modelled.
- Arcane.Client.ListProjectsAll: a server that answers full pages without a total forever makes the source loop forever. This model cannot express that, because every `catalog` reply sequence is finite and the pages after it are empty.
- Arcane.Client: the server's replies are fixed per search string and per log position. They do not react to the mutations sent earlier in the run.
- Strings.TrimSpace, Strings.Fields: white space is `unicode.IsSpace` over characters. Byte-level encoding and invalid UTF-8 are not modelled.
- Paths: only `/`-separated paths are modelled. Git's quoting of unusual file names in `git diff --name-only` is not modelled either.
- Arcane.Project keeps only the ID, name and timestamps. The other decoded fields (status, paths, contents) are never used by the decisions.
- `log.Fatal` on missing configuration (main.go:301-309) is not modelled.
- With ahead = 0 and behind = 0, a dirty tree is left as it is (`GitSync.NoActionLeavesCheckout`), because main.go:393-396 issues no command.
