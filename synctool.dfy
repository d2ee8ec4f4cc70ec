/** One run of the sync tool: git synchronization, then the reconciliation of the disk
    projects against the Arcane inventory, driven through a `Client`. */
module SyncTool {
  import opened Wrappers
  import opened Paths
  import opened DiskScan
  import opened ChangeSet
  import opened GitSync
  import opened Arcane
  import opened TieBreak
  import opened Engine

  /** How a run ends. `duplicates` are the names the duplicate warning was printed for. */
  datatype RunOutcome =
    | GitFailed(failed: GitCmd)          // a fetch or reset to the remote failed: exit 1
    | DiskScanFailed                     // the repository directory could not be listed: exit 1
    | NewCommitFailed                    // the commit after the sync could not be read: exit 1
    | NothingToDo(duplicates: set<string>)
    | Reconciled(duplicates: set<string>, toCreate: seq<string>, toSync: seq<string>)

  /** The index built from the listing of the whole inventory; a failed listing counts as
      no projects. */
  function InventoryIndex(remote: Listing): Index
  {
    Grouped(if remote.result.Ok? then remote.result.value else [])
  }

  /** The state of `main` from the Arcane client on: the name index it keeps up to date. */
  class Reconciler {
    const root: string
    const fs: FileSystem
    const parse: string -> Option<int>
    const api: Client
    /** What reading the compose and `.env` files of a project yields. */
    const files: string -> Option<ProjectFiles>
    var index: Index
    /** The step the create path takes for a name, given how many requests were sent before it. */
    ghost const createStep: (string, nat) -> CreateStep

    /** `createStep` is the engine's create outcome, for every name. */
    ghost predicate StepIsCreateOutcome()
    {
      forall name, n0 {:trigger CreateOutcome(name, files(name), api.catalog, api.respond, n0)} ::
        createStep(name, n0) == CreateOutcome(name, files(name), api.catalog, api.respond, n0)
    }

    constructor (root: string, fs: FileSystem, parse: string -> Option<int>, api: Client)
      ensures this.root == root && this.fs == fs && this.parse == parse && this.api == api
      ensures files == ((name: string) => ReadProjectFiles(root, name, fs))
      ensures createStep == CreateStepOf(files, api.catalog, api.respond) && StepIsCreateOutcome()
      ensures index == map[]
    {
      this.root := root;
      this.fs := fs;
      this.parse := parse;
      this.api := api;
      files := (name: string) => ReadProjectFiles(root, name, fs);
      createStep := CreateStepOf((name: string) => ReadProjectFiles(root, name, fs), api.catalog, api.respond);
      index := map[];
    }

    /** Index the listed projects by name, in listing order. */
    method IndexRemote(ps: seq<Project>)
      modifies this
      ensures index == Grouped(ps)
    {
      index := map[];
      var i := 0;
      while i < |ps|
        invariant 0 <= i <= |ps|
        invariant index == Grouped(ps[..i])
      {
        assert ps[..i + 1][..i] == ps[..i];
        var p := ps[i];
        index := index[p.name := Lookup(index, p.name) + [p]];
        i := i + 1;
      }
      assert ps[..i] == ps;
    }

    /** Split the disk projects into those to create and those to sync. */
    method Classify(disk: seq<string>, changed: map<string, string>) returns (toCreate: seq<string>, toSync: seq<string>)
      ensures toCreate == CreateList(disk, index)
      ensures toSync == SyncList(disk, index, changed.Keys)
    {
      toCreate, toSync := [], [];
      var i := 0;
      while i < |disk|
        invariant 0 <= i <= |disk|
        invariant toCreate == CreateList(disk[..i], index)
        invariant toSync == SyncList(disk[..i], index, changed.Keys)
      {
        Collections.FilterStep(disk, i, Unindexed(index));
        Collections.FilterStep(disk, i, NeedsSync(index, changed.Keys));
        var name := disk[i];
        if |Lookup(index, name)| == 0 {
          toCreate := toCreate + [name];
        } else if name in changed {
          toSync := toSync + [name];
        }
        i := i + 1;
      }
      assert disk[..i] == disk;
    }

    /** List the whole inventory and index it; returns the names warned about as duplicates. */
    method IndexInventory() returns (duplicates: set<string>)
      modifies this, api
      ensures var remote := ListAll(api.catalog(""));
        api.log == old(api.log) + ListCalls("", remote.requests) && index == InventoryIndex(remote)
      ensures duplicates == DuplicateNames(index)
    {
      var remote := api.ListProjects();
      var projects: seq<Project> := [];
      if remote.Ok? {
        projects := remote.value;
      }
      IndexRemote(projects);
      duplicates := DuplicateNames(index);
    }

    /** Create one project: skip it without readable files, keep what the exact-name lookup
        finds, otherwise create it. */
    method CreateOne(name: string)
      requires StepIsCreateOutcome()
      modifies this, api
      ensures var s := createStep(name, |old(api.log)|);
        api.log == old(api.log) + s.calls && index == ApplyEntry(old(index), name, s.entry)
    {
      ghost var n0 := |api.log|;
      var read := files(name);
      ghost var s := CreateOutcome(name, read, api.catalog, api.respond, n0);
      if read.None? {
        return;
      }
      var existing := api.FindProjectsByNameExact(name);
      if existing.Ok? && |existing.value| > 0 {
        index := index[name := existing.value];
        return;
      }
      CreateAndStart(name, read.value);
    }

    /** Create a project the lookup did not find, start it (redeploying when the start fails)
        and index the new ID under its name. */
    method CreateAndStart(name: string, f: ProjectFiles)
      modifies this, api
      ensures var s := FreshCreate(name, f, api.respond, |old(api.log)|);
        api.log == old(api.log) + s.calls && index == ApplyEntry(old(index), name, s.entry)
    {
      var created := api.CreateProject(name, f.compose, f.env);
      if created.Err? {
        return;
      }
      var id := created.value;
      var started := api.StartProject(id);
      if !started {
        var _ := api.RedeployProject(id);
      }
      index := index[name := [Project(id, name, "", "")]];
    }

    /** The create loop over `projectsToCreate`. */
    method CreateAll(names: seq<string>)
      requires StepIsCreateOutcome()
      modifies this, api
      ensures var r := CreatePhase(names, createStep, old(index), |old(api.log)|);
        api.log == old(api.log) + r.calls && index == r.index
    {
      ghost var log0, index0 := api.log, index;
      var i := 0;
      while i < |names|
        invariant 0 <= i <= |names|
        invariant var done := CreatePhase(names[..i], createStep, index0, |log0|);
          api.log == log0 + done.calls && index == done.index
      {
        assert names[..i + 1][..i] == names[..i];
        CreateOne(names[i]);
        i := i + 1;
      }
      assert names[..i] == names;
    }

    /** `callsOf` gives, for every name, the requests syncing it under the current index sends. */
    ghost predicate SyncsAs(callsOf: string -> seq<Call>)
      reads this
    {
      forall name {:trigger SyncCalls(SyncTargetId(index, name, parse), files(name))} ::
        callsOf(name) == SyncCalls(SyncTargetId(index, name, parse), files(name))
    }

    /** Sync one project: resolve its ID, send the update (its failure is only a warning)
        and then the redeploy; skip it without readable files. */
    method SyncOne(name: string, ghost callsOf: string -> seq<Call>)
      requires SyncsAs(callsOf)
      modifies api
      ensures api.log == old(api.log) + callsOf(name)
    {
      ghost var calls := SyncCalls(SyncTargetId(index, name, parse), files(name));
      var id := name;
      var candidates := Lookup(index, name);
      if |candidates| > 0 {
        id := SelectPreferredProjectId(candidates, parse);
      }
      var read := files(name);
      if read.None? {
        return;
      }
      var _ := api.UpdateProject(id, read.value.compose, read.value.env);
      var _ := api.RedeployProject(id);
    }

    /** The sync loop over `projectsToSync`. */
    method SyncAll(names: seq<string>, ghost callsOf: string -> seq<Call>)
      requires SyncsAs(callsOf)
      modifies api
      ensures api.log == old(api.log) + SyncPhase(names, callsOf)
    {
      ghost var log0 := api.log;
      var i := 0;
      while i < |names|
        invariant 0 <= i <= |names|
        invariant api.log == log0 + SyncPhase(names[..i], callsOf)
      {
        assert names[..i + 1][..i] == names[..i];
        SyncOne(names[i], callsOf);
        i := i + 1;
      }
      assert names[..i] == names;
    }

    /** How `main` ends after a successful git synchronization, `log0` being the requests
        sent before it: the outcome fixes the requests sent and the final index. */
    ghost predicate ReconcileSpec(listing: Result<seq<DirEntry>>, changesOccurred: bool, oldCommit: string,
                                  newCommit: Option<string>, diff: Option<string>, log0: seq<Call>,
                                  outcome: RunOutcome)
      reads this, api
    {
      var remote := ListAll(api.catalog(""));
      var idx := InventoryIndex(remote);
      var listed := log0 + ListCalls("", remote.requests);
      var changed := if changesOccurred && newCommit.Some? then ChangeSetOf(oldCommit, newCommit.value, diff) else {};
      match outcome
      case GitFailed(_) => false
      case DiskScanFailed => listing.Err? && api.log == log0
      case NewCommitFailed =>
        listing.Ok? && changesOccurred && newCommit.None? && api.log == listed && index == idx
      case NothingToDo(duplicates) =>
        listing.Ok? && !(changesOccurred && newCommit.None?) &&
        var disk := ProjectNames(root, listing.value, fs.fileExists);
        duplicates == DuplicateNames(idx) &&
        CreateList(disk, idx) == [] && SyncList(disk, idx, changed) == [] &&
        api.log == listed && index == idx
      case Reconciled(duplicates, toCreate, toSync) =>
        listing.Ok? && !(changesOccurred && newCommit.None?) &&
        var disk := ProjectNames(root, listing.value, fs.fileExists);
        duplicates == DuplicateNames(idx) &&
        toCreate == CreateList(disk, idx) && toSync == SyncList(disk, idx, changed) &&
        (toCreate != [] || toSync != []) &&
        var created := CreatePhase(toCreate, createStep, idx, |listed|);
        api.log == listed + created.calls + SyncPhase(toSync, SyncCallsOf(files, created.index, parse)) &&
        index == created.index
    }

    /** `main` after the git synchronization: scan the disk, index the remote inventory,
        compute the change set when `changesOccurred` (the sync pulled remote commits),
        classify, and create then sync. */
    method Reconcile(listing: Result<seq<DirEntry>>, changesOccurred: bool, oldCommit: string,
                     newCommit: Option<string>, diff: Option<string>) returns (outcome: RunOutcome)
      requires StepIsCreateOutcome()
      modifies this, api
      ensures ReconcileSpec(listing, changesOccurred, oldCommit, newCommit, diff, old(api.log), outcome)
    {
      var disk := ListDiskProjects(root, listing, fs.fileExists);
      if disk.Err? {
        return DiskScanFailed;
      }
      var duplicates := IndexInventory();
      var changed: map<string, string> := map[];
      if changesOccurred {
        if newCommit.None? {
          return NewCommitFailed;
        }
        changed := DetectChangedProjects(oldCommit, newCommit.value, diff);
      }
      assert changed.Keys == if changesOccurred then ChangeSetOf(oldCommit, newCommit.value, diff) else {};
      outcome := Act(disk.value, changed, duplicates);
    }

    /** Classify the disk projects and, unless both lists are empty, create then sync. */
    method Act(disk: seq<string>, changed: map<string, string>, duplicates: set<string>) returns (outcome: RunOutcome)
      requires StepIsCreateOutcome()
      modifies this, api
      ensures var toCreate, toSync := CreateList(disk, old(index)), SyncList(disk, old(index), changed.Keys);
        if toCreate == [] && toSync == [] then
          outcome == NothingToDo(duplicates) && api.log == old(api.log) && index == old(index)
        else
          var created := CreatePhase(toCreate, createStep, old(index), |old(api.log)|);
          outcome == Reconciled(duplicates, toCreate, toSync) &&
          api.log == old(api.log) + created.calls + SyncPhase(toSync, SyncCallsOf(files, created.index, parse)) &&
          index == created.index
    {
      var toCreate, toSync := Classify(disk, changed);
      if |toCreate| == 0 && |toSync| == 0 {
        return NothingToDo(duplicates);
      }
      CreateAll(toCreate);
      SyncAll(toSync, SyncCallsOf(files, index, parse));
      return Reconciled(duplicates, toCreate, toSync);
    }

    /** One run of `main` after the repository checks: synchronize the checkout; when that
        did not fail, reconcile, with a change set only when behind > 0 and ahead >= 0; an
        ahead-only reset moves HEAD but reports no change. */
    method Run(st: GitStatus, branch: string, succeeds: GitCmd -> bool, listing: Result<seq<DirEntry>>,
               oldCommit: string, newCommit: Option<string>, diff: Option<string>)
      returns (gitTrace: seq<GitCmd>, outcome: RunOutcome)
      requires StepIsCreateOutcome()
      modifies this, api
      ensures var plan := PlannedCommands(st, branch);
        var fatal := FirstFatalFailure(plan, succeeds) < |plan|;
        (fatal ==> gitTrace == plan[..FirstFatalFailure(plan, succeeds) + 1] &&
                   outcome == GitFailed(plan[FirstFatalFailure(plan, succeeds)]) && api.log == old(api.log)) &&
        (!fatal ==> gitTrace == plan &&
                    ReconcileSpec(listing, st.behind > 0 && st.ahead >= 0, oldCommit, newCommit, diff,
                                  old(api.log), outcome))
    {
      var sync;
      gitTrace, sync := Synchronize(st, branch, succeeds);
      if sync.Fatal? {
        return gitTrace, GitFailed(sync.failed);
      }
      outcome := Reconcile(listing, sync.changesOccurred, oldCommit, newCommit, diff);
    }
  }
}
