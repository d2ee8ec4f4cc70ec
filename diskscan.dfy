/** The disk inventory scanner: which sub-directories of the repository are projects, and
    which manifest file each one uses. */
module DiskScan {
  import opened Wrappers
  import opened Paths
  import opened Collections

  /** The recognised manifest names, in the priority order in which they are looked up. */
  const ComposeFileNames: seq<string> := ["compose.yaml", "compose.yml", "docker-compose.yaml", "docker-compose.yml"]

  /** The name of the directory that holds the tool itself; it is never a project. */
  const SyncToolDirName: string := "syncTool"

  /** One entry of a directory listing. */
  datatype DirEntry = DirEntry(name: string, isDir: bool)

  /** The position of the first of `names`, from position `k` on, whose file exists in
      `dir`; `|names|` when there is none. */
  function FirstExisting(dir: string, names: seq<string>, fileExists: string -> bool, k: nat): (i: nat)
    requires k <= |names|
    ensures k <= i <= |names|
    ensures i < |names| ==> fileExists(JoinPath(dir, names[i]))
    ensures forall j :: k <= j < i ==> !fileExists(JoinPath(dir, names[j]))
    decreases |names| - k
  {
    if k == |names| then k
    else if fileExists(JoinPath(dir, names[k])) then k
    else FirstExisting(dir, names, fileExists, k + 1)
  }

  /** The path of the manifest of the project in `dir`: the first name in priority order
      whose file exists, or "" when none does. */
  function FindComposeFile(dir: string, fileExists: string -> bool): (r: string)
    ensures r == "" <==> forall j :: 0 <= j < |ComposeFileNames| ==> !fileExists(JoinPath(dir, ComposeFileNames[j]))
    ensures r != "" ==> fileExists(r)
    ensures r != "" ==>
      exists i :: 0 <= i < |ComposeFileNames| && r == JoinPath(dir, ComposeFileNames[i]) &&
        forall j :: 0 <= j < i ==> !fileExists(JoinPath(dir, ComposeFileNames[j]))
  {
    var i := FirstExisting(dir, ComposeFileNames, fileExists, 0);
    if i == |ComposeFileNames| then "" else JoinPath(dir, ComposeFileNames[i])
  }

  /** A name starting with '.' is hidden. */
  predicate IsHidden(name: string) {
    |name| > 0 && name[0] == '.'
  }

  /** An entry of the repository root that is a project folder. */
  predicate IsProjectDir(root: string, e: DirEntry, fileExists: string -> bool) {
    && e.isDir
    && !IsHidden(e.name)
    && e.name != SyncToolDirName
    && FindComposeFile(JoinPath(root, e.name), fileExists) != ""
  }

  /** The names of the project folders among `entries`, in listing order. */
  function ProjectNames(root: string, entries: seq<DirEntry>, fileExists: string -> bool): seq<string>
  {
    MarkedList(entries, (e: DirEntry) => IsProjectDir(root, e, fileExists), (e: DirEntry) => e.name)
  }

  /** A name is listed exactly when some project folder among the entries has it. */
  lemma ProjectNamesMembership(root: string, entries: seq<DirEntry>, fileExists: string -> bool, n: string)
    ensures n in ProjectNames(root, entries, fileExists) <==>
      exists e :: e in entries && IsProjectDir(root, e, fileExists) && e.name == n
  {
    MarkedListMembership(entries, (e: DirEntry) => IsProjectDir(root, e, fileExists), (e: DirEntry) => e.name, n);
  }

  /** One more entry adds its name exactly when it is a project folder. */
  lemma ProjectNamesStep(root: string, entries: seq<DirEntry>, fileExists: string -> bool, i: nat)
    requires i < |entries|
    ensures ProjectNames(root, entries[..i + 1], fileExists) ==
      ProjectNames(root, entries[..i], fileExists) + (if IsProjectDir(root, entries[i], fileExists) then [entries[i].name] else [])
  {
    MarkedListStep(entries, i, (e: DirEntry) => IsProjectDir(root, e, fileExists), (e: DirEntry) => e.name);
  }

  /** The names of all entries, in listing order. */
  function EntryNames(entries: seq<DirEntry>): (r: seq<string>)
    ensures |r| == |entries|
  {
    if entries == [] then [] else EntryNames(entries[..|entries| - 1]) + [entries[|entries| - 1].name]
  }

  /** The project names keep the order of the directory listing. */
  lemma {:induction false} ProjectNamesKeepListingOrder(root: string, entries: seq<DirEntry>, fileExists: string -> bool)
    ensures IsSubsequence(ProjectNames(root, entries, fileExists), EntryNames(entries))
  {
    if entries != [] {
      var init, e := entries[..|entries| - 1], entries[|entries| - 1];
      var ps, ns := ProjectNames(root, init, fileExists), EntryNames(init);
      ProjectNamesKeepListingOrder(root, init, fileExists);
      if IsProjectDir(root, e, fileExists) {
        assert (ps + [e.name])[..|ps|] == ps;
        assert (ns + [e.name])[..|ns|] == ns;
      } else {
        assert ProjectNames(root, entries, fileExists) == ps + [];
        assert ps + [] == ps;
        SubsequenceOfExtension(ps, ns, e.name);
      }
    }
  }

  /** `listDiskProjects`: a failure to read the root is an error; otherwise the project
      folders in listing order. */
  method ListDiskProjects(root: string, listing: Result<seq<DirEntry>>, fileExists: string -> bool)
    returns (r: Result<seq<string>>)
    ensures listing.Err? ==> r.Err?
    ensures listing.Ok? ==> r == Ok(ProjectNames(root, listing.value, fileExists))
  {
    if listing.Err? {
      return Err("failed to read projects directory: " + listing.msg);
    }
    var entries := listing.value;
    var projects: seq<string> := [];
    var i := 0;
    while i < |entries|
      invariant 0 <= i <= |entries|
      invariant projects == ProjectNames(root, entries[..i], fileExists)
    {
      var entry := entries[i];
      ProjectNamesStep(root, entries, fileExists, i);
      if !entry.isDir {
        i := i + 1;
        continue;
      }
      if IsHidden(entry.name) || entry.name == SyncToolDirName {
        i := i + 1;
        continue;
      }
      var projectPath := JoinPath(root, entry.name);
      if FindComposeFile(projectPath, fileExists) != "" {
        projects := projects + [entry.name];
      }
      i := i + 1;
    }
    assert entries[..i] == entries;
    return Ok(projects);
  }
}
