/** The git state synchronizer: forces the checkout onto the tip of its remote branch. */
module GitSync {
  import opened Wrappers
  import opened Strings

  /** The files `git clean` is told to keep (`-e` patterns). */
  const PreservedPatterns: seq<string> := [".env.global", "*.env.local", ".env"]

  /** The git commands the synchronizer issues. */
  datatype GitCmd =
    | FetchBranch(branch: string)                // git fetch origin <branch>
    | ResetToRemote(branch: string)              // git reset --hard origin/<branch>
    | ResetToHead                                // git reset --hard HEAD
    | CleanUntracked(preserved: seq<string>)     // git clean -fd -e <pattern> ...

  /** Ahead and behind counts against `origin/<branch>`, and whether the tree is dirty. */
  datatype GitStatus = GitStatus(ahead: int, behind: int, hasLocalChange: bool)

  /** `getGitStatus` after its two commands ran: `revList` is the output of
      `git rev-list --left-right --count origin/<branch>...HEAD` ("behind ahead"),
      `porcelain` that of `git status --porcelain`. A count is set only when the output has
      exactly two fields and that field scans as an integer; otherwise it stays 0. */
  function ParseGitStatus(revList: string, porcelain: string): (st: GitStatus)
    ensures |Fields(TrimSpace(revList))| != 2 ==> st.ahead == 0 && st.behind == 0
    ensures st.hasLocalChange <==> !AllSpace(porcelain)
  {
    var counts := Fields(TrimSpace(revList));
    var behind := if |counts| == 2 then ScanInt(counts[0]).GetOr(0) else 0;
    var ahead := if |counts| == 2 then ScanInt(counts[1]).GetOr(0) else 0;
    GitStatus(ahead, behind, |TrimSpace(porcelain)| > 0)
  }

  lemma DigitsAreNotSpace(s: string)
    requires AllDigits(s)
    ensures forall j :: 0 <= j < |s| ==> !IsSpace(s[j])
  {
  }

  /** The output git prints for `behind` and `ahead` parses back to those counts, the
      first field being the behind count. */
  lemma ParseGitStatusOfCounts(behind: nat, ahead: nat, porcelain: string)
    requires behind <= Int64Max && ahead <= Int64Max
    ensures ParseGitStatus(Decimal(behind) + "\t" + Decimal(ahead) + "\n", porcelain) ==
      GitStatus(ahead, behind, !AllSpace(porcelain))
  {
    var b, a := Decimal(behind), Decimal(ahead);
    var line := b + "\t" + a;
    var out := line + "\n";
    DigitsAreNotSpace(b);
    DigitsAreNotSpace(a);
    assert line[0] == b[0] && line[|line| - 1] == a[|a| - 1];
    TrimSpaceOfPadded("", line, "\n");
    assert "" + line + "\n" == out;
    TwoFields(b, '\t', a);
    ScanDecimal(behind);
    ScanDecimal(ahead);
  }

  /** The four situations the synchronizer distinguishes. */
  datatype RepoState = Diverged | AheadOnly | BehindOnly | NoAction

  function StateOf(st: GitStatus): RepoState
  {
    if st.ahead > 0 && st.behind > 0 then Diverged
    else if st.ahead > 0 then AheadOnly
    else if st.behind > 0 && st.ahead == 0 then BehindOnly
    else NoAction
  }

  /** The commands issued in each situation when every one of them succeeds. */
  function PlannedCommands(st: GitStatus, branch: string): seq<GitCmd>
  {
    match StateOf(st)
    case Diverged => [FetchBranch(branch), ResetToRemote(branch), CleanUntracked(PreservedPatterns)]
    case AheadOnly => [FetchBranch(branch), ResetToRemote(branch)]
    case BehindOnly =>
      (if st.hasLocalChange then [ResetToHead, CleanUntracked(PreservedPatterns)] else [])
      + [FetchBranch(branch), ResetToRemote(branch)]
    case NoAction => []
  }

  /** A fetch or a reset to the remote ends the run when it fails; the others only warn. */
  predicate IsFatalOnFailure(c: GitCmd) {
    c.FetchBranch? || c.ResetToRemote?
  }

  /** The position of the first command of `cmds` whose failure is fatal, or `|cmds|`. */
  function FirstFatalFailure(cmds: seq<GitCmd>, succeeds: GitCmd -> bool): (i: nat)
    ensures i <= |cmds|
    ensures i < |cmds| ==> IsFatalOnFailure(cmds[i]) && !succeeds(cmds[i])
    ensures forall j :: 0 <= j < i ==> !IsFatalOnFailure(cmds[j]) || succeeds(cmds[j])
  {
    if cmds == [] then 0
    else if IsFatalOnFailure(cmds[0]) && !succeeds(cmds[0]) then 0
    else 1 + FirstFatalFailure(cmds[1..], succeeds)
  }

  /** The commands of `cmds` that failed, in order. */
  function FailedCommands(cmds: seq<GitCmd>, succeeds: GitCmd -> bool): seq<GitCmd>
  {
    if cmds == [] then []
    else (if succeeds(cmds[0]) then [] else [cmds[0]]) + FailedCommands(cmds[1..], succeeds)
  }

  lemma FatalCons(c: GitCmd, rest: seq<GitCmd>, succeeds: GitCmd -> bool)
    ensures FirstFatalFailure([c] + rest, succeeds) ==
      if IsFatalOnFailure(c) && !succeeds(c) then 0 else 1 + FirstFatalFailure(rest, succeeds)
    ensures FailedCommands([c] + rest, succeeds) == (if succeeds(c) then [] else [c]) + FailedCommands(rest, succeeds)
  {
    assert ([c] + rest)[1..] == rest;
  }

  /** How a synchronization ends: a fatal failure, or synchronized with the failed
      commands that were only warnings. */
  datatype SyncOutcome = Fatal(failed: GitCmd) | Synced(changesOccurred: bool, warnings: seq<GitCmd>)

  /** The synchronizer ran `plan` up to and including its first fatal failure, and
      reported that failure; or it ran all of `plan` and reported a change exactly when the
      checkout was behind its remote branch (behind > 0, with the ahead count not negative),
      whether or not it was also ahead, with the failed commands as warnings. */
  ghost predicate FollowsPlan(st: GitStatus, branch: string, succeeds: GitCmd -> bool,
                              trace: seq<GitCmd>, outcome: SyncOutcome)
  {
    var plan := PlannedCommands(st, branch);
    var k := FirstFatalFailure(plan, succeeds);
    if k < |plan| then trace == plan[..k + 1] && outcome == Fatal(plan[k])
    else trace == plan && outcome == Synced(st.behind > 0 && st.ahead >= 0, FailedCommands(plan, succeeds))
  }

  /** The state-machine part of `main`, given the status `getGitStatus` computed;
      `succeeds` says which git commands succeed. */
  method Synchronize(st: GitStatus, branch: string, succeeds: GitCmd -> bool)
    returns (trace: seq<GitCmd>, outcome: SyncOutcome)
    ensures FollowsPlan(st, branch, succeeds, trace, outcome)
  {
    if st.ahead > 0 && st.behind > 0 {
      trace, outcome := SyncDiverged(st, branch, succeeds);
    } else if st.ahead > 0 {
      trace, outcome := SyncAheadOnly(st, branch, succeeds);
    } else if st.behind > 0 && st.ahead == 0 {
      trace, outcome := SyncBehindOnly(st, branch, succeeds);
    } else {
      trace, outcome := [], Synced(false, []);
    }
  }

  /** Both sides have commits: force the checkout onto the remote and clean it. */
  method SyncDiverged(st: GitStatus, branch: string, succeeds: GitCmd -> bool)
    returns (trace: seq<GitCmd>, outcome: SyncOutcome)
    requires StateOf(st) == Diverged
    ensures FollowsPlan(st, branch, succeeds, trace, outcome)
  {
    var clean := CleanUntracked(PreservedPatterns);
    var fetch, reset := FetchBranch(branch), ResetToRemote(branch);
    assert PlannedCommands(st, branch) == [fetch, reset, clean];
    FatalCons(fetch, [reset, clean], succeeds);
    FatalCons(reset, [clean], succeeds);
    FatalCons(clean, [], succeeds);
    var ran, ok := FetchAndReset(branch, succeeds);
    if !ok {
      return ran, Fatal(ran[|ran| - 1]);
    }
    trace := ran + [clean];
    var warnings: seq<GitCmd> := [];
    if !succeeds(clean) {
      warnings := warnings + [clean];
    }
    outcome := Synced(true, warnings);
  }

  /** Only the local side has commits: discard them. No change is reported. */
  method SyncAheadOnly(st: GitStatus, branch: string, succeeds: GitCmd -> bool)
    returns (trace: seq<GitCmd>, outcome: SyncOutcome)
    requires StateOf(st) == AheadOnly
    ensures FollowsPlan(st, branch, succeeds, trace, outcome)
  {
    var fetch, reset := FetchBranch(branch), ResetToRemote(branch);
    assert PlannedCommands(st, branch) == [fetch, reset];
    FatalCons(fetch, [reset], succeeds);
    FatalCons(reset, [], succeeds);
    var ran, ok := FetchAndReset(branch, succeeds);
    if !ok {
      return ran, Fatal(ran[|ran| - 1]);
    }
    trace, outcome := ran, Synced(false, []);
  }

  /** Only the remote has new commits: drop local edits when the tree is dirty, then move
      onto the remote. */
  method SyncBehindOnly(st: GitStatus, branch: string, succeeds: GitCmd -> bool)
    returns (trace: seq<GitCmd>, outcome: SyncOutcome)
    requires StateOf(st) == BehindOnly
    ensures FollowsPlan(st, branch, succeeds, trace, outcome)
  {
    var fetch, reset := FetchBranch(branch), ResetToRemote(branch);
    var warnings: seq<GitCmd> := [];
    trace := [];
    if st.hasLocalChange {
      trace, warnings := DiscardLocalChanges(succeeds);
    }
    ghost var plan := PlannedCommands(st, branch);
    assert plan == trace + [fetch, reset];
    FatalCons(fetch, [reset], succeeds);
    FatalCons(reset, [], succeeds);
    AppendAfterNonFatal(trace, [fetch, reset], succeeds);
    var ran, ok := FetchAndReset(branch, succeeds);
    trace := trace + ran;
    if !ok {
      return trace, Fatal(ran[|ran| - 1]);
    }
    outcome := Synced(true, warnings);
  }

  /** `git reset --hard HEAD` then `git clean`; a failure of either is only a warning. */
  method DiscardLocalChanges(succeeds: GitCmd -> bool) returns (ran: seq<GitCmd>, warnings: seq<GitCmd>)
    ensures ran == [ResetToHead, CleanUntracked(PreservedPatterns)]
    ensures FirstFatalFailure(ran, succeeds) == |ran|
    ensures warnings == FailedCommands(ran, succeeds)
  {
    var clean := CleanUntracked(PreservedPatterns);
    warnings := [];
    ran := [ResetToHead];
    if !succeeds(ResetToHead) {
      warnings := warnings + [ResetToHead];
    }
    ran := ran + [clean];
    if !succeeds(clean) {
      warnings := warnings + [clean];
    }
    FatalCons(ResetToHead, [clean], succeeds);
    FatalCons(clean, [], succeeds);
  }

  lemma {:induction false} AppendAfterNonFatal(pre: seq<GitCmd>, rest: seq<GitCmd>, succeeds: GitCmd -> bool)
    requires FirstFatalFailure(pre, succeeds) == |pre|
    ensures FirstFatalFailure(pre + rest, succeeds) == |pre| + FirstFatalFailure(rest, succeeds)
    ensures FailedCommands(pre + rest, succeeds) == FailedCommands(pre, succeeds) + FailedCommands(rest, succeeds)
  {
    if pre != [] {
      assert (pre + rest)[1..] == pre[1..] + rest;
      AppendAfterNonFatal(pre[1..], rest, succeeds);
    } else {
      assert pre + rest == rest;
    }
  }

  /** The fetch-then-reset step every acting branch of the synchronizer takes: the reset is
      attempted only after the fetch succeeded, and the step succeeds when both do. */
  method FetchAndReset(branch: string, succeeds: GitCmd -> bool) returns (ran: seq<GitCmd>, ok: bool)
    ensures ok <==> succeeds(FetchBranch(branch)) && succeeds(ResetToRemote(branch))
    ensures ran == if succeeds(FetchBranch(branch)) then [FetchBranch(branch), ResetToRemote(branch)]
      else [FetchBranch(branch)]
  {
    ran := [FetchBranch(branch)];
    if !succeeds(FetchBranch(branch)) {
      return ran, false;
    }
    ran := ran + [ResetToRemote(branch)];
    ok := succeeds(ResetToRemote(branch));
  }

  // ---- what the commands do to the checkout ----

  /** The part of a checkout the commands change: the commit checked out, the last fetched
      tip of the remote branch, whether tracked files have edits, and whether untracked
      files other than those the preserved patterns cover are present. */
  datatype Checkout = Checkout(head: string, fetched: string, trackedEdits: bool, untracked: bool)

  /** The effect of one command; a command that fails leaves the checkout as it was. */
  function Apply(c: GitCmd, ok: bool, co: Checkout, remoteTip: string): Checkout
  {
    if !ok then co
    else match c
      case FetchBranch(_) => co.(fetched := remoteTip)
      case ResetToRemote(_) => co.(head := co.fetched, trackedEdits := false)
      case ResetToHead => co.(trackedEdits := false)
      case CleanUntracked(_) => co.(untracked := false)
  }

  /** The checkout after running `cmds` in order, `succeeds` saying which of them succeed. */
  function RunAll(cmds: seq<GitCmd>, succeeds: GitCmd -> bool, co: Checkout, remoteTip: string): Checkout
  {
    if cmds == [] then co
    else RunAll(cmds[1..], succeeds, Apply(cmds[0], succeeds(cmds[0]), co, remoteTip), remoteTip)
  }

  lemma RunCons(c: GitCmd, rest: seq<GitCmd>, succeeds: GitCmd -> bool, co: Checkout, remoteTip: string)
    ensures RunAll([c] + rest, succeeds, co, remoteTip) ==
      RunAll(rest, succeeds, Apply(c, succeeds(c), co, remoteTip), remoteTip)
  {
    assert ([c] + rest)[1..] == rest;
  }

  /** The plan cleans the tree: after a diverged state, or a behind state with local changes. */
  predicate PlanCleans(st: GitStatus)
  {
    StateOf(st) == Diverged || (StateOf(st) == BehindOnly && st.hasLocalChange)
  }

  /** When the synchronizer acted and did not fail fatally, the checkout is at the remote tip
      with no tracked edits. Its untracked files are gone exactly when the plan cleans and
      that `git clean` succeeded; otherwise they are as they were. */
  lemma SyncConverges(st: GitStatus, branch: string, succeeds: GitCmd -> bool, co: Checkout, remoteTip: string)
    requires StateOf(st) != NoAction
    requires FirstFatalFailure(PlannedCommands(st, branch), succeeds) == |PlannedCommands(st, branch)|
    ensures var after := RunAll(PlannedCommands(st, branch), succeeds, co, remoteTip);
      after.head == remoteTip && !after.trackedEdits &&
      after.untracked == (co.untracked && !(PlanCleans(st) && succeeds(CleanUntracked(PreservedPatterns))))
  {
    var clean := CleanUntracked(PreservedPatterns);
    var fetch, reset := FetchBranch(branch), ResetToRemote(branch);
    var plan := PlannedCommands(st, branch);
    match StateOf(st)
    case Diverged =>
      assert plan == [fetch, reset, clean];
      assert plan[0] == fetch && plan[1] == reset;
      var co1 := Apply(fetch, true, co, remoteTip);
      var co2 := Apply(reset, true, co1, remoteTip);
      RunCons(clean, [], succeeds, co2, remoteTip);
      RunCons(reset, [clean], succeeds, co1, remoteTip);
      RunCons(fetch, [reset, clean], succeeds, co, remoteTip);
    case AheadOnly =>
      assert plan == [fetch, reset];
      assert plan[0] == fetch && plan[1] == reset;
      var co1 := Apply(fetch, true, co, remoteTip);
      RunCons(reset, [], succeeds, co1, remoteTip);
      RunCons(fetch, [reset], succeeds, co, remoteTip);
    case BehindOnly =>
      var pre := if st.hasLocalChange then [ResetToHead, clean] else [];
      assert plan == pre + [fetch, reset];
      var start := RunAll(pre, succeeds, co, remoteTip);
      if st.hasLocalChange {
        var h := Apply(ResetToHead, succeeds(ResetToHead), co, remoteTip);
        RunCons(clean, [], succeeds, h, remoteTip);
        RunCons(ResetToHead, [clean], succeeds, co, remoteTip);
        RunAllAppend(pre, [fetch, reset], succeeds, co, remoteTip);
        assert [ResetToHead, clean] + [fetch, reset] == [ResetToHead, clean, fetch, reset];
      } else {
        assert pre + [fetch, reset] == [fetch, reset];
      }
      assert start.untracked == (co.untracked && !(st.hasLocalChange && succeeds(clean)));
      assert plan[|pre|] == fetch && plan[|pre| + 1] == reset;
      var co1 := Apply(fetch, true, start, remoteTip);
      RunCons(reset, [], succeeds, co1, remoteTip);
      RunCons(fetch, [reset], succeeds, start, remoteTip);
  }

  /** Running two command lists one after the other. */
  lemma {:induction false} RunAllAppend(a: seq<GitCmd>, b: seq<GitCmd>, succeeds: GitCmd -> bool, co: Checkout, remoteTip: string)
    ensures RunAll(a + b, succeeds, co, remoteTip) == RunAll(b, succeeds, RunAll(a, succeeds, co, remoteTip), remoteTip)
  {
    if a != [] {
      assert (a + b)[1..] == a[1..] + b;
      RunAllAppend(a[1..], b, succeeds, Apply(a[0], succeeds(a[0]), co, remoteTip), remoteTip);
    } else {
      assert a + b == b;
    }
  }

  /** An in-sync checkout is left exactly as it is, local edits included. */
  lemma NoActionLeavesCheckout(st: GitStatus, branch: string, succeeds: GitCmd -> bool, co: Checkout, remoteTip: string)
    requires StateOf(st) == NoAction
    ensures PlannedCommands(st, branch) == []
    ensures RunAll(PlannedCommands(st, branch), succeeds, co, remoteTip) == co
  {
  }

  /** Only a failing fetch or reset to the remote is fatal: when both succeed, failures of
      the clean-up commands never stop the run. */
  lemma CleanupFailuresAreWarnings(st: GitStatus, branch: string, succeeds: GitCmd -> bool)
    requires succeeds(FetchBranch(branch)) && succeeds(ResetToRemote(branch))
    ensures FirstFatalFailure(PlannedCommands(st, branch), succeeds) == |PlannedCommands(st, branch)|
  {
    var plan := PlannedCommands(st, branch);
    forall j | 0 <= j < |plan|
      ensures !IsFatalOnFailure(plan[j]) || succeeds(plan[j])
    {
    }
    FatalFreePlan(plan, succeeds);
  }

  lemma {:induction false} FatalFreePlan(cmds: seq<GitCmd>, succeeds: GitCmd -> bool)
    requires forall j :: 0 <= j < |cmds| ==> !IsFatalOnFailure(cmds[j]) || succeeds(cmds[j])
    ensures FirstFatalFailure(cmds, succeeds) == |cmds|
  {
    if cmds != [] {
      assert forall j :: 0 <= j < |cmds[1..]| ==> cmds[1..][j] == cmds[j + 1];
      FatalFreePlan(cmds[1..], succeeds);
    }
  }

  /** Every reset to the remote is immediately preceded by a fetch of the same branch. */
  lemma ResetFollowsFetch(st: GitStatus, branch: string, i: nat)
    requires i < |PlannedCommands(st, branch)| && PlannedCommands(st, branch)[i].ResetToRemote?
    ensures i > 0 && PlannedCommands(st, branch)[i - 1] == FetchBranch(branch)
  {
  }
}
