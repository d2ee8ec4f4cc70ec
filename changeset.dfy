/** The change-set detector: the projects whose manifest differs between two commits. */
module ChangeSet {
  import opened Wrappers
  import opened Strings
  import opened Paths
  import opened DiskScan
  import opened Collections

  /** The changed paths listed by `git diff --name-only`, one per line. */
  function ChangedFiles(diffOutput: string): seq<string>
  {
    Split(TrimSpace(diffOutput), '\n')
  }

  /** A changed line that names a manifest file. */
  predicate IsManifestChange(line: string) {
    var f := TrimSpace(line);
    f != "" && Base(f) in ComposeFileNames
  }

  /** The project a changed manifest belongs to: the base name of its directory, which is
      never empty and holds no '/' unless it is the root. */
  function ProjectOf(line: string): (r: string)
    ensures r != "" && (r != "/" ==> '/' !in r)
  {
    Base(Dir(TrimSpace(line)))
  }

  /** The projects of the manifest changes among `files`. */
  function ChangedProjectsOf(files: seq<string>): set<string>
  {
    MarkedImage(files, IsManifestChange, ProjectOf)
  }

  /** A project is in the change set exactly when one of the changed manifests lies in it. */
  lemma ChangedProjectsMembership(files: seq<string>, n: string)
    ensures n in ChangedProjectsOf(files) <==>
      exists f :: f in files && IsManifestChange(f) && ProjectOf(f) == n
  {
    MarkedImageMembership(files, IsManifestChange, ProjectOf, n);
  }

  /** The change set between two commits; `diff` is the output of `git diff --name-only`,
      or `None` when that command failed. */
  function ChangeSetOf(oldCommit: string, newCommit: string, diff: Option<string>): set<string>
  {
    if oldCommit == newCommit then {}
    else match diff
      case None => {}
      case Some(out) => ChangedProjectsOf(ChangedFiles(out))
  }

  /** `m` maps each element of `s` to itself and has no other key. */
  predicate MapsEachToItself(m: map<string, string>, s: set<string>)
  {
    m.Keys == s && forall n :: n in m ==> m[n] == n
  }

  /** `detectChangedProjects`: a map from each changed project to itself. */
  method DetectChangedProjects(oldCommit: string, newCommit: string, diff: Option<string>)
    returns (changed: map<string, string>)
    ensures MapsEachToItself(changed, ChangeSetOf(oldCommit, newCommit, diff))
    ensures oldCommit == newCommit ==> changed == map[]
  {
    changed := map[];
    if oldCommit == newCommit {
      return;
    }
    if diff.None? {
      return;
    }
    var files := ChangedFiles(diff.value);
    var i := 0;
    while i < |files|
      invariant 0 <= i <= |files|
      invariant MapsEachToItself(changed, ChangedProjectsOf(files[..i]))
    {
      MarkedImageStep(files, i, IsManifestChange, ProjectOf);
      if IsManifestChange(files[i]) {
        var projectName := ProjectOf(files[i]);
        MapsOneMoreToItself(changed, ChangedProjectsOf(files[..i]), projectName);
        changed := changed[projectName := projectName];
      }
      i := i + 1;
    }
    assert files[..i] == files;
  }

  lemma MapsOneMoreToItself(m: map<string, string>, s: set<string>, n: string)
    requires MapsEachToItself(m, s)
    ensures MapsEachToItself(m[n := n], s + {n})
  {
  }

  /** A changed manifest `prefix + dir + "/" + name` puts `dir` in the change set. */
  lemma ManifestMarksItsProject(files: seq<string>, prefix: string, dir: string, name: string)
    requires prefix + dir + "/" + name in files
    requires prefix == "" || (prefix[|prefix| - 1] == '/' && !IsSpace(prefix[0]))
    requires IsNormalElement(dir) && !IsSpace(dir[0])
    requires name in ComposeFileNames
    ensures dir in ChangedProjectsOf(files)
  {
    var f := prefix + dir + "/" + name;
    assert f[|f| - 1] == name[|name| - 1];
    assert f[0] == if prefix == "" then dir[0] else prefix[0];
    TrimSpaceOfTrimmed(f);
    BaseOf(prefix + dir + "/", name);
    ParentName(prefix, dir, name);
    ChangedProjectsMembership(files, dir);
  }

  /** The final line break of the output is trimmed away before splitting. */
  lemma EndedOutput(out: string)
    requires out != [] && !IsSpace(out[0]) && !IsSpace(out[|out| - 1])
    ensures ChangedFiles(out + "\n") == Split(out, '\n')
  {
    TrimSpaceOfPadded("", out, "\n");
    assert "" + out + "\n" == out + "\n";
  }

  /** Two changed lines as `git diff --name-only` prints them, each ended by a line break;
      the paths are free of line breaks and of surrounding space. */
  lemma TwoLines(f1: string, f2: string)
    requires f1 != [] && !IsSpace(f1[0]) && '\n' !in f1
    requires f2 != [] && !IsSpace(f2[|f2| - 1]) && '\n' !in f2
    ensures ChangedFiles(f1 + "\n" + f2 + "\n") == [f1, f2]
  {
    var out := f1 + "\n" + f2;
    assert out[0] == f1[0] && out[|out| - 1] == f2[|f2| - 1];
    EndedOutput(out);
    SplitAppend(f1, f2, '\n');
    SplitNoSeparator(f1, '\n');
    SplitNoSeparator(f2, '\n');
  }

  lemma ExampleManifest()
    ensures IsManifestChange("a/" + "compose.yaml") && ProjectOf("a/" + "compose.yaml") == "a"
  {
    var f1 := "a/" + "compose.yaml";
    assert f1[0] == 'a' && f1[|f1| - 1] == 'l';
    TrimSpaceOfTrimmed(f1);
    BaseOf("a/", "compose.yaml");
    assert f1 == "" + "a" + "/" + "compose.yaml";
    ParentName("", "a", "compose.yaml");
  }

  lemma ExampleOther()
    ensures !IsManifestChange("unrelated/" + "readme.md")
  {
    var f2 := "unrelated/" + "readme.md";
    assert f2[0] == 'u' && f2[|f2| - 1] == 'd';
    TrimSpaceOfTrimmed(f2);
    BaseOf("unrelated/", "readme.md");
  }

  /** A diff touching `a/compose.yaml` and `unrelated/readme.md` gives the change set {a}. */
  lemma TwoFileExample()
    ensures ChangeSetOf("old", "new", Some("a/" + "compose.yaml" + "\n" + "unrelated/" + "readme.md" + "\n")) == {"a"}
  {
    var f1, f2 := "a/" + "compose.yaml", "unrelated/" + "readme.md";
    assert f1[0] == 'a' && f2[|f2| - 1] == 'd';
    TwoLines(f1, f2);
    assert "a/" + "compose.yaml" + "\n" + "unrelated/" + "readme.md" + "\n" == f1 + "\n" + f2 + "\n";
    ExampleManifest();
    ExampleOther();
    MarkedImagePair(f1, f2, IsManifestChange, ProjectOf);
  }
}
