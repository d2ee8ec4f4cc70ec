/** The reconciliation decisions of one run: the name index of the remote projects, the
    create/sync classification of the disk projects, and the requests the create and sync
    paths send, as functions of the inputs. */
module Engine {
  import opened Wrappers
  import opened Collections
  import opened Paths
  import opened DiskScan
  import opened Arcane
  import opened TieBreak

  /** `arcaneProjectsByName`: the remote projects grouped by name. */
  type Index = map<string, seq<Project>>

  /** The entries of `name`; a missing key reads as no entries, as in a Go map of slices. */
  function Lookup(index: Index, name: string): seq<Project>
  {
    if name in index then index[name] else []
  }

  /** The index built by appending each listed project, in order, to its name's entries. */
  function Grouped(ps: seq<Project>): Index
  {
    if ps == [] then map[]
    else
      var p := ps[|ps| - 1];
      var g := Grouped(ps[..|ps| - 1]);
      g[p.name := Lookup(g, p.name) + [p]]
  }

  /** The entries of every name are the listed projects of that name, in listing order. */
  lemma {:induction false} GroupedLookup(ps: seq<Project>, n: string)
    ensures Lookup(Grouped(ps), n) == WithName(ps, n)
  {
    if ps != [] {
      var init, p := ps[..|ps| - 1], ps[|ps| - 1];
      assert ps == init + [p];
      WithNameSnoc(init, p, n);
      GroupedLookup(init, n);
      if p.name != n {
        assert Lookup(Grouped(ps), n) == Lookup(Grouped(init), n);
      }
    }
  }

  /** Only listed names are keys, and no key has an empty entry list. */
  lemma {:induction false} GroupedKeys(ps: seq<Project>, n: string)
    ensures n in Grouped(ps) <==> exists p :: p in ps && p.name == n
    ensures n in Grouped(ps) ==> Grouped(ps)[n] != []
  {
    GroupedLookup(ps, n);
    if ps != [] {
      var init, p := ps[..|ps| - 1], ps[|ps| - 1];
      assert ps == init + [p];
      GroupedKeys(init, n);
      if p.name != n {
        assert (exists q :: q in ps && q.name == n) <==> (exists q :: q in init && q.name == n);
      }
    }
  }

  /** The names the duplicate warning is printed for. */
  function DuplicateNames(index: Index): (r: set<string>)
    ensures forall n :: n in r <==> |Lookup(index, n)| > 1
  {
    set n | n in index && |index[n]| > 1
  }

  lemma {:induction false} WithNameTwice(ps: seq<Project>, n: string)
    ensures |WithName(ps, n)| > 1 <==>
      exists i, j :: 0 <= i < j < |ps| && ps[i].name == n && ps[j].name == n
  {
    if ps != [] {
      var init, p := ps[..|ps| - 1], ps[|ps| - 1];
      assert ps == init + [p];
      WithNameSnoc(init, p, n);
      WithNameTwice(init, n);
      if p.name == n && |WithName(init, n)| == 1 {
        var q := WithName(init, n)[0];
        WithNameMembership(init, n, q);
        var i :| 0 <= i < |init| && init[i] == q;
        assert ps[i] == q && ps[|ps| - 1] == p;
      }
      if exists i, j :: 0 <= i < j < |ps| && ps[i].name == n && ps[j].name == n {
        var i, j :| 0 <= i < j < |ps| && ps[i].name == n && ps[j].name == n;
        if j < |ps| - 1 {
          assert init[i] == ps[i] && init[j] == ps[j];
        } else {
          WithNameMembership(init, n, init[i]);
        }
      }
    }
  }

  /** A name is warned about exactly when two listed projects carry it. */
  lemma DuplicatesOfListing(ps: seq<Project>, n: string)
    ensures n in DuplicateNames(Grouped(ps)) <==>
      exists i, j :: 0 <= i < j < |ps| && ps[i].name == n && ps[j].name == n
  {
    GroupedLookup(ps, n);
    WithNameTwice(ps, n);
  }

  // ---- classification ----

  function Unindexed(index: Index): string -> bool
  {
    (n: string) => |Lookup(index, n)| == 0
  }

  function NeedsSync(index: Index, changed: set<string>): string -> bool
  {
    (n: string) => |Lookup(index, n)| > 0 && n in changed
  }

  /** `projectsToCreate`: the disk projects with no remote entry, in disk order. */
  function CreateList(disk: seq<string>, index: Index): seq<string>
  {
    Filter(disk, Unindexed(index))
  }

  /** `projectsToSync`: the disk projects with a remote entry whose compose file changed. */
  function SyncList(disk: seq<string>, index: Index, changed: set<string>): seq<string>
  {
    Filter(disk, NeedsSync(index, changed))
  }

  /** What each list holds; no project is in both. */
  lemma ClassificationMembership(disk: seq<string>, index: Index, changed: set<string>, n: string)
    ensures n in CreateList(disk, index) <==> n in disk && |Lookup(index, n)| == 0
    ensures n in SyncList(disk, index, changed) <==> n in disk && |Lookup(index, n)| > 0 && n in changed
    ensures !(n in CreateList(disk, index) && n in SyncList(disk, index, changed))
  {
    FilterMembership(disk, Unindexed(index), n);
    FilterMembership(disk, NeedsSync(index, changed), n);
  }

  /** Both lists keep the disk order. */
  lemma ClassificationKeepsDiskOrder(disk: seq<string>, index: Index, changed: set<string>)
    ensures IsSubsequence(CreateList(disk, index), disk)
    ensures IsSubsequence(SyncList(disk, index, changed), disk)
  {
    FilterIsSubsequence(disk, Unindexed(index));
    FilterIsSubsequence(disk, NeedsSync(index, changed));
  }

  /** A project that exists only remotely is neither created nor synced: nothing is deleted. */
  lemma RemoteOnlyUntouched(disk: seq<string>, index: Index, changed: set<string>, n: string)
    requires n !in disk
    ensures n !in CreateList(disk, index) && n !in SyncList(disk, index, changed)
  {
    ClassificationMembership(disk, index, changed, n);
  }

  /** With every disk project indexed and no changed project, both lists are empty. */
  lemma SteadyStateIsQuiet(disk: seq<string>, index: Index, changed: set<string>)
    requires forall k :: 0 <= k < |disk| ==> |Lookup(index, disk[k])| > 0 && disk[k] !in changed
    ensures CreateList(disk, index) == [] && SyncList(disk, index, changed) == []
  {
    FilterNone(disk, Unindexed(index));
    FilterNone(disk, NeedsSync(index, changed));
  }

  // ---- project files ----

  /** The file system as the create and sync paths see it. */
  datatype FileSystem = FileSystem(fileExists: string -> bool, read: string -> Option<string>)

  /** The compose content and the optional env content of a project. */
  datatype ProjectFiles = ProjectFiles(compose: string, env: string)

  /** The files of project `name`: none when it has no compose file or that file cannot be
      read; a missing or unreadable `.env` reads as empty. */
  function ReadProjectFiles(root: string, name: string, fs: FileSystem): (r: Option<ProjectFiles>)
    ensures r.None? <==> FindComposeFile(JoinPath(root, name), fs.fileExists) == "" ||
                         fs.read(FindComposeFile(JoinPath(root, name), fs.fileExists)).None?
    ensures r.Some? ==> fs.fileExists(FindComposeFile(JoinPath(root, name), fs.fileExists))
    ensures r.Some? ==> Some(r.value.compose) == fs.read(FindComposeFile(JoinPath(root, name), fs.fileExists))
    ensures r.Some? ==> r.value.env == fs.read(JoinPath(JoinPath(root, name), ".env")).GetOr("")
  {
    var projectPath := JoinPath(root, name);
    var composePath := FindComposeFile(projectPath, fs.fileExists);
    if composePath == "" then None
    else
      match fs.read(composePath)
      case None => None
      case Some(compose) => Some(ProjectFiles(compose, fs.read(JoinPath(projectPath, ".env")).GetOr("")))
  }

  // ---- create path ----

  /** What creating one project does: the requests it sends and the index entry it sets. */
  datatype CreateStep = CreateStep(calls: seq<Call>, entry: Option<seq<Project>>)

  /** Creating a project the lookup did not find, `pos` being how many requests were sent
      before the create request: the create, and after a successful one the start of the new
      ID, then its redeploy when the start failed. */
  function FreshCreate(name: string, f: ProjectFiles, respond: nat -> Reply, pos: nat): (s: CreateStep)
    ensures s.entry.Some? ==> s.entry.value != []
  {
    var create := CreateCall(CreateBody(name, f.compose, f.env));
    match respond(pos)
    case Failed => CreateStep([create], None)
    case Succeeded(rid) =>
      var id := CreatedId(rid, name);
      var redeploy := if respond(pos + 1).Succeeded? then [] else [RedeployCall(id)];
      CreateStep([create, StartCall(id)] + redeploy, Some([Project(id, name, "", "")]))
  }

  /** `n0` is how many requests were sent before this step. */
  function CreateOutcome(name: string, files: Option<ProjectFiles>, catalog: string -> seq<Result<Page>>,
                         respond: nat -> Reply, n0: nat): (s: CreateStep)
    ensures s.entry.Some? ==> s.entry.value != []
  {
    match files
    case None => CreateStep([], None)
    case Some(f) =>
      var l := ListAll(catalog(name));
      var lookup := ListCalls(name, l.requests);
      if l.result.Ok? && WithName(l.result.value, name) != [] then
        CreateStep(lookup, Some(WithName(l.result.value, name)))
      else
        var created := FreshCreate(name, f, respond, n0 + l.requests);
        CreateStep(lookup + created.calls, created.entry)
  }

  /** The index after a step that set `entry` (or nothing) for `name`. */
  function ApplyEntry(index: Index, name: string, entry: Option<seq<Project>>): Index
  {
    if entry.Some? then index[name := entry.value] else index
  }

  /** The requests that change something on the server. */
  const IsMutation: Call -> bool := (c: Call) => !c.ListCall?

  function Mutations(calls: seq<Call>): seq<Call>
  {
    Filter(calls, IsMutation)
  }

  lemma {:induction false} ListCallsChangeNothing(search: string, n: nat)
    ensures Mutations(ListCalls(search, n)) == []
  {
    if n > 0 {
      ListCallsChangeNothing(search, n - 1);
    }
  }

  /** A project without readable compose content is skipped before any request. */
  lemma CreateSkipsWithoutFiles(name: string, catalog: string -> seq<Result<Page>>, respond: nat -> Reply, n0: nat)
    ensures CreateOutcome(name, None, catalog, respond, n0) == CreateStep([], None)
  {
  }

  /** When the exact-name lookup finds the project, nothing is created and the index entry
      becomes what the lookup found. */
  lemma CreateGuardFindsExisting(name: string, f: ProjectFiles, catalog: string -> seq<Result<Page>>,
                                 respond: nat -> Reply, n0: nat)
    requires ListAll(catalog(name)).result.Ok?
    requires WithName(ListAll(catalog(name)).result.value, name) != []
    ensures var s := CreateOutcome(name, Some(f), catalog, respond, n0);
      Mutations(s.calls) == [] && s.entry == Some(WithName(ListAll(catalog(name)).result.value, name))
  {
    ListCallsChangeNothing(name, ListAll(catalog(name)).requests);
  }

  /** When the lookup fails or finds nothing, the create request is sent with the
      project's contents; a failed create changes nothing else. */
  lemma CreateWhenLookupFindsNothing(name: string, f: ProjectFiles, catalog: string -> seq<Result<Page>>,
                                     respond: nat -> Reply, n0: nat)
    requires ListAll(catalog(name)).result.Err? || WithName(ListAll(catalog(name)).result.value, name) == []
    requires respond(n0 + ListAll(catalog(name)).requests).Failed?
    ensures var s := CreateOutcome(name, Some(f), catalog, respond, n0);
      Mutations(s.calls) == [CreateCall(CreateBody(name, f.compose, f.env))] && s.entry.None?
  {
    var l := ListAll(catalog(name));
    var t := FreshCreate(name, f, respond, n0 + l.requests);
    CreateAfterMissedLookup(name, f, catalog, respond, n0);
    MutationsAfterLookup(name, l.requests, t.calls);
  }

  /** A successful create is followed by exactly one start of the new ID, and by a redeploy
      of that ID exactly when the start failed; the index entry becomes that one project. */
  lemma CreateSucceeded(name: string, f: ProjectFiles, catalog: string -> seq<Result<Page>>,
                        respond: nat -> Reply, n0: nat, rid: string)
    requires ListAll(catalog(name)).result.Err? || WithName(ListAll(catalog(name)).result.value, name) == []
    requires respond(n0 + ListAll(catalog(name)).requests) == Succeeded(rid)
    ensures var s := CreateOutcome(name, Some(f), catalog, respond, n0);
      var id := CreatedId(rid, name);
      var startFailed := respond(n0 + ListAll(catalog(name)).requests + 1).Failed?;
      Mutations(s.calls) ==
        [CreateCall(CreateBody(name, f.compose, f.env)), StartCall(id)] + (if startFailed then [RedeployCall(id)] else []) &&
      s.entry == Some([Project(id, name, "", "")])
  {
    var l := ListAll(catalog(name));
    var t := FreshCreate(name, f, respond, n0 + l.requests);
    CreateAfterMissedLookup(name, f, catalog, respond, n0);
    MutationsAfterLookup(name, l.requests, t.calls);
  }

  /** When the lookup fails or finds nothing, the step is the lookup followed by a fresh create. */
  lemma CreateAfterMissedLookup(name: string, f: ProjectFiles, catalog: string -> seq<Result<Page>>,
                                respond: nat -> Reply, n0: nat)
    requires ListAll(catalog(name)).result.Err? || WithName(ListAll(catalog(name)).result.value, name) == []
    ensures var l := ListAll(catalog(name));
      var t := FreshCreate(name, f, respond, n0 + l.requests);
      CreateOutcome(name, Some(f), catalog, respond, n0) == CreateStep(ListCalls(name, l.requests) + t.calls, t.entry)
      && forall k :: 0 <= k < |t.calls| ==> !t.calls[k].ListCall?
  {
  }

  lemma MutationsAfterLookup(search: string, n: nat, tail: seq<Call>)
    requires forall k :: 0 <= k < |tail| ==> !tail[k].ListCall?
    ensures Mutations(ListCalls(search, n) + tail) == tail
  {
    ListCallsChangeNothing(search, n);
    FilterAppend(ListCalls(search, n), tail, IsMutation);
    AllKept(tail, IsMutation);
  }

  lemma {:induction false} AllKept<T>(xs: seq<T>, keep: T -> bool)
    requires forall k :: 0 <= k < |xs| ==> keep(xs[k])
    ensures Filter(xs, keep) == xs
  {
    if xs != [] {
      AllKept(xs[..|xs| - 1], keep);
      assert xs[..|xs| - 1] + [xs[|xs| - 1]] == xs;
    }
  }

  /** The step the create path takes for a project name, given how many requests were
      sent before it. */
  function CreateStepOf(files: string -> Option<ProjectFiles>, catalog: string -> seq<Result<Page>>,
                        respond: nat -> Reply): (string, nat) -> CreateStep
  {
    (name: string, n0: nat) => CreateOutcome(name, files(name), catalog, respond, n0)
  }

  /** The create phase: each project of `names` in turn, each step seeing the index the
      previous ones left and the requests sent before it. */
  datatype PhaseResult = PhaseResult(calls: seq<Call>, index: Index)

  function CreatePhase(names: seq<string>, step: (string, nat) -> CreateStep, index: Index, n0: nat): PhaseResult
    decreases |names|
  {
    if names == [] then PhaseResult([], index)
    else
      var r := CreatePhase(names[..|names| - 1], step, index, n0);
      var s := step(names[|names| - 1], n0 + |r.calls|);
      PhaseResult(r.calls + s.calls, ApplyEntry(r.index, names[|names| - 1], s.entry))
  }

  /** Creating leaves the entries of every other name as they were. */
  lemma {:induction false} CreatePhaseKeepsOthers(names: seq<string>, step: (string, nat) -> CreateStep,
                                                  index: Index, n0: nat, n: string)
    requires n !in names
    ensures Lookup(CreatePhase(names, step, index, n0).index, n) == Lookup(index, n)
    decreases |names|
  {
    if names != [] {
      var init := names[..|names| - 1];
      assert names == init + [names[|names| - 1]];
      CreatePhaseKeepsOthers(init, step, index, n0, n);
    }
  }

  /** Creating never takes entries away: a name with entries still has some afterwards. */
  lemma {:induction false} CreatePhaseNeverEmpties(names: seq<string>, step: (string, nat) -> CreateStep,
                                                   index: Index, n0: nat, n: string)
    requires forall m, k :: step(m, k).entry.Some? ==> step(m, k).entry.value != []
    requires Lookup(index, n) != []
    ensures Lookup(CreatePhase(names, step, index, n0).index, n) != []
    decreases |names|
  {
    if names != [] {
      var init := names[..|names| - 1];
      CreatePhaseNeverEmpties(init, step, index, n0, n);
      var r := CreatePhase(init, step, index, n0);
      var s := step(names[|names| - 1], n0 + |r.calls|);
      assert Lookup(ApplyEntry(r.index, names[|names| - 1], s.entry), n) != [];
    }
  }

  /** The create steps of the reconciler never set an empty entry. */
  lemma CreateStepsSetEntries(files: string -> Option<ProjectFiles>, catalog: string -> seq<Result<Page>>, respond: nat -> Reply)
    ensures forall m, k :: CreateStepOf(files, catalog, respond)(m, k).entry.Some? ==>
      CreateStepOf(files, catalog, respond)(m, k).entry.value != []
  {
    forall m: string, k: nat
      ensures CreateStepOf(files, catalog, respond)(m, k).entry.Some? ==>
        CreateStepOf(files, catalog, respond)(m, k).entry.value != []
    {
      var s := CreateOutcome(m, files(m), catalog, respond, k);
      assert CreateStepOf(files, catalog, respond)(m, k) == s;
    }
  }

  /** The reconciler's create phase never empties the entry of a name that had one, so a
      project indexed before the creates keeps a sync target among its entries. */
  lemma {:induction false} ReconcilerCreatesNeverEmpty(names: seq<string>, files: string -> Option<ProjectFiles>,
      catalog: string -> seq<Result<Page>>, respond: nat -> Reply, index: Index, n0: nat, n: string)
    requires Lookup(index, n) != []
    ensures Lookup(CreatePhase(names, CreateStepOf(files, catalog, respond), index, n0).index, n) != []
  {
    CreateStepsSetEntries(files, catalog, respond);
    CreatePhaseNeverEmpties(names, CreateStepOf(files, catalog, respond), index, n0, n);
  }

  // ---- sync path ----

  /** The ID a changed project is synced under: the preferred one of its entries, or its
      name when it has none. */
  function SyncTargetId(index: Index, name: string, parse: string -> Option<int>): (r: string)
    ensures Lookup(index, name) == [] ==> r == name
    ensures Lookup(index, name) != [] ==> r == PreferredId(Lookup(index, name), parse)
    ensures Lookup(index, name) != [] ==> exists k :: 0 <= k < |Lookup(index, name)| && r == Lookup(index, name)[k].id
  {
    var candidates := Lookup(index, name);
    if |candidates| > 0 then PreferredId(candidates, parse) else name
  }

  /** The requests of syncing one project: an update with the non-empty contents and then a
      redeploy of the same ID, whatever the update's reply; none without readable files. */
  function SyncCalls(id: string, files: Option<ProjectFiles>): (r: seq<Call>)
    ensures files.None? ==> r == []
    ensures files.Some? ==> |r| == 2 && r[0].UpdateCall? && r[0].id == id && r[1] == RedeployCall(id)
    ensures files.Some? ==> r[0] == UpdateCall(id, UpdateBody(files.value.compose, files.value.env))
  {
    match files
    case None => []
    case Some(f) => [UpdateCall(id, UpdateBody(f.compose, f.env)), RedeployCall(id)]
  }

  /** The requests the sync path sends for one project. */
  function SyncCallsOf(files: string -> Option<ProjectFiles>, index: Index, parse: string -> Option<int>): string -> seq<Call>
  {
    (name: string) => SyncCalls(SyncTargetId(index, name, parse), files(name))
  }

  /** The sync phase: the requests of each project of `names`, in order. */
  function SyncPhase(names: seq<string>, callsOf: string -> seq<Call>): seq<Call>
  {
    if names == [] then [] else SyncPhase(names[..|names| - 1], callsOf) + callsOf(names[|names| - 1])
  }

  /** The sync phase only updates and redeploys, and only under the target IDs of the
      projects it syncs. */
  lemma {:induction false} SyncPhaseTouchesOnlyTargets(names: seq<string>, files: string -> Option<ProjectFiles>,
      index: Index, parse: string -> Option<int>, c: Call)
    requires c in SyncPhase(names, SyncCallsOf(files, index, parse))
    ensures c.UpdateCall? || c.RedeployCall?
    ensures exists k :: 0 <= k < |names| && c.id == SyncTargetId(index, names[k], parse)
  {
    var init, last := names[..|names| - 1], names[|names| - 1];
    if c in SyncCallsOf(files, index, parse)(last) {
      assert c.id == SyncTargetId(index, last, parse);
    } else {
      SyncPhaseTouchesOnlyTargets(init, files, index, parse, c);
      var k :| 0 <= k < |init| && c.id == SyncTargetId(index, init[k], parse);
      assert init[k] == names[k];
    }
  }

  /** The projects created earlier in the run do not change the ID a changed project is
      synced under: no name is in both lists. */
  lemma SyncTargetsIgnoreCreates(disk: seq<string>, index: Index, changed: set<string>,
                                 step: (string, nat) -> CreateStep, n0: nat, parse: string -> Option<int>, n: string)
    requires n in SyncList(disk, index, changed)
    ensures SyncTargetId(CreatePhase(CreateList(disk, index), step, index, n0).index, n, parse) == SyncTargetId(index, n, parse)
  {
    ClassificationMembership(disk, index, changed, n);
    CreatePhaseKeepsOthers(CreateList(disk, index), step, index, n0, n);
  }

  /** A project with no entries is synced under its own name, one with a single entry under
      that entry's ID. */
  lemma SyncTargetFallbacks(index: Index, name: string, parse: string -> Option<int>)
    ensures Lookup(index, name) == [] ==> SyncTargetId(index, name, parse) == name
    ensures |Lookup(index, name)| == 1 ==> SyncTargetId(index, name, parse) == Lookup(index, name)[0].id
  {
  }
}
