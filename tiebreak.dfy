/** `selectPreferredProjectID`: which of several same-named Arcane projects the reconciler
    acts on. Timestamps are read by a given parse that yields `None` for an empty,
    unparsable or zero time. */
module TieBreak {
  import opened Wrappers
  import opened Arcane

  /** The time a project is judged by: its update time, or its creation time when the update
      time does not parse. */
  function EffectiveTime(p: Project, parse: string -> Option<int>): (t: Option<int>)
    ensures parse(p.updatedAt).Some? ==> t == parse(p.updatedAt)
    ensures parse(p.updatedAt).None? ==> t == parse(p.createdAt)
  {
    var updated := parse(p.updatedAt);
    if updated.Some? then updated else parse(p.createdAt)
  }

  /** `t` replaces the best time so far: it is a time, and the best is none or strictly earlier. */
  predicate Beats(t: Option<int>, best: Option<int>)
  {
    t.Some? && (best.None? || t.value > best.value)
  }

  /** The reference choice: when some candidate has a time, `k` is the earliest-listed one
      whose time is maximal; when none has, `k` is the first candidate. */
  ghost predicate IsPreferredIndex(cs: seq<Project>, parse: string -> Option<int>, k: nat)
  {
    k < |cs| &&
    if exists j :: 0 <= j < |cs| && EffectiveTime(cs[j], parse).Some? then
      EffectiveTime(cs[k], parse).Some? &&
      (forall j :: 0 <= j < |cs| && EffectiveTime(cs[j], parse).Some? ==>
        EffectiveTime(cs[j], parse).value <= EffectiveTime(cs[k], parse).value) &&
      (forall j :: 0 <= j < k && EffectiveTime(cs[j], parse).Some? ==>
        EffectiveTime(cs[j], parse).value < EffectiveTime(cs[k], parse).value)
    else k == 0
  }

  /** The index the loop ends with after the first `n` candidates. */
  function BestIndex(cs: seq<Project>, parse: string -> Option<int>, n: nat): (k: nat)
    requires 1 <= n <= |cs|
    ensures k < n
  {
    if n == 1 then 0
    else
      var b := BestIndex(cs, parse, n - 1);
      if Beats(EffectiveTime(cs[n - 1], parse), EffectiveTime(cs[b], parse)) then n - 1 else b
  }

  /** The loop's index after `n` candidates is the reference choice among them. */
  lemma {:induction false} BestIndexIsPreferred(cs: seq<Project>, parse: string -> Option<int>, n: nat)
    requires 1 <= n <= |cs|
    ensures IsPreferredIndex(cs[..n], parse, BestIndex(cs, parse, n))
  {
    if n == 1 {
      assert cs[..1] == [cs[0]];
    } else {
      BestIndexIsPreferred(cs, parse, n - 1);
      BestIndexStep(cs, parse, n, BestIndex(cs, parse, n - 1));
    }
  }

  lemma BestIndexStep(cs: seq<Project>, parse: string -> Option<int>, n: nat, b: nat)
    requires 2 <= n <= |cs| && b < n - 1
    requires IsPreferredIndex(cs[..n - 1], parse, b)
    ensures IsPreferredIndex(cs[..n], parse,
      if Beats(EffectiveTime(cs[n - 1], parse), EffectiveTime(cs[b], parse)) then n - 1 else b)
  {
    var pre, all := cs[..n - 1], cs[..n];
    assert forall j :: 0 <= j < n - 1 ==> pre[j] == cs[j] && all[j] == cs[j];
    assert all[n - 1] == cs[n - 1];
    var t := EffectiveTime(cs[n - 1], parse);
    if exists j :: 0 <= j < n - 1 && EffectiveTime(pre[j], parse).Some? {
      assert EffectiveTime(cs[b], parse).Some?;
    } else {
      assert forall j :: 0 <= j < n - 1 ==> EffectiveTime(all[j], parse).None?;
      if t.Some? {
        assert EffectiveTime(all[n - 1], parse).Some?;
      }
    }
  }

  /** Only one index meets the reference choice. */
  lemma PreferredIndexUnique(cs: seq<Project>, parse: string -> Option<int>, k1: nat, k2: nat)
    requires IsPreferredIndex(cs, parse, k1) && IsPreferredIndex(cs, parse, k2)
    ensures k1 == k2
  {
  }

  /** The ID chosen for the index `k`: its own, or the first candidate's when it has none. */
  function IdOrFirst(cs: seq<Project>, k: nat): string
    requires k < |cs|
  {
    if cs[k].id != "" then cs[k].id else cs[0].id
  }

  /** The result of `selectPreferredProjectID`: "" for no candidates, otherwise the ID of the
      reference choice, or the first candidate's ID when that one has none. */
  function PreferredId(cs: seq<Project>, parse: string -> Option<int>): (r: string)
    ensures |cs| == 0 ==> r == ""
    ensures |cs| == 1 ==> r == cs[0].id
    ensures forall k :: IsPreferredIndex(cs, parse, k) ==> r == IdOrFirst(cs, k)
    ensures |cs| > 0 ==> exists k :: 0 <= k < |cs| && r == cs[k].id
  {
    if |cs| == 0 then ""
    else
      var k := BestIndex(cs, parse, |cs|);
      BestIndexIsPreferred(cs, parse, |cs|);
      assert cs[..|cs|] == cs;
      forall k' | IsPreferredIndex(cs, parse, k') ensures IdOrFirst(cs, k) == IdOrFirst(cs, k') {
        PreferredIndexUnique(cs, parse, k, k');
      }
      IdOrFirst(cs, k)
  }

  /** `selectPreferredProjectID`: walks the candidates after the first, replacing the best
      one by each candidate whose effective time beats the best time so far. */
  method SelectPreferredProjectId(cs: seq<Project>, parse: string -> Option<int>) returns (r: string)
    ensures r == PreferredId(cs, parse)
  {
    if |cs| == 0 {
      return "";
    }
    if |cs| == 1 {
      return cs[0].id;
    }
    var best := 0;
    var bestTime := EffectiveTime(cs[0], parse);
    var i := 1;
    while i < |cs|
      invariant 1 <= i <= |cs|
      invariant best == BestIndex(cs, parse, i)
      invariant bestTime == EffectiveTime(cs[best], parse)
    {
      var t := EffectiveTime(cs[i], parse);
      if t.Some? && (bestTime.None? || t.value > bestTime.value) {
        best := i;
        bestTime := t;
      }
      i := i + 1;
    }
    if cs[best].id != "" {
      return cs[best].id;
    }
    return cs[0].id;
  }

  /** Of two entries, the later one wins only when its time is strictly later. */
  lemma TwoCandidates(c1: Project, c2: Project, parse: string -> Option<int>)
    requires c1.id != "" && c2.id != ""
    requires EffectiveTime(c1, parse).Some? && EffectiveTime(c2, parse).Some?
    ensures PreferredId([c1, c2], parse) ==
      if EffectiveTime(c2, parse).value > EffectiveTime(c1, parse).value then c2.id else c1.id
  {
    assert [c1, c2][..1] == [c1];
  }

  /** When no candidate has a time, the first one is chosen. */
  lemma NoTimesChooseFirst(cs: seq<Project>, parse: string -> Option<int>)
    requires |cs| > 0
    requires forall j :: 0 <= j < |cs| ==> EffectiveTime(cs[j], parse).None?
    ensures PreferredId(cs, parse) == cs[0].id
  {
    assert IsPreferredIndex(cs, parse, 0);
  }

  /** A candidate without a time is never chosen over one that has a time. */
  lemma UntimedNeverChosen(cs: seq<Project>, parse: string -> Option<int>, j: nat)
    requires j < |cs| && EffectiveTime(cs[j], parse).Some?
    ensures EffectiveTime(cs[BestIndex(cs, parse, |cs|)], parse).Some?
  {
    BestIndexIsPreferred(cs, parse, |cs|);
    assert cs[..|cs|] == cs;
    assert cs[..|cs|][j] == cs[j];
  }
}
