/** The Arcane API client: the paginated project listing, the exact-name lookup and the
    request bodies of the mutating calls, over a remote whose replies are given. */
module Arcane {
  import opened Wrappers
  import opened Collections

  /** The fields of an Arcane project the reconciler uses. */
  datatype Project = Project(id: string, name: string, createdAt: string, updatedAt: string)

  /** The counts of the `pagination` object of a listing reply. */
  datatype Pagination = Pagination(grandTotalItems: int, totalItems: int)

  /** One decoded listing reply. */
  datatype Page = Page(data: seq<Project>, pagination: Pagination)

  /** A request body: JSON object keys mapped to string values. */
  type Body = map<string, string>

  /** The requests the client sends, in the order it sends them. */
  datatype Call =
    | ListCall(start: int, limit: int, search: string)   // GET .../projects?start=&limit=&search=
    | CreateCall(body: Body)                              // POST .../projects
    | UpdateCall(id: string, body: Body)                  // PUT .../projects/<id>
    | StartCall(id: string)                               // POST .../projects/<id>/up
    | RedeployCall(id: string)                            // POST .../projects/<id>/redeploy

  /** The reply to a mutating request: failure (transport, status or decoding), or success
      with the `data.id` of the reply (only a create reply has one; the others carry ""). */
  datatype Reply = Failed | Succeeded(id: string)

  /** `pageSize` of `listProjectsAll`. */
  const PageSize: nat := 50

  /** The total the pagination reports: the grand total if positive, else the total if
      positive, else 0 (unknown). */
  function ReportedTotal(p: Pagination): (t: int)
    ensures t >= 0
    ensures t > 0 <==> p.grandTotalItems > 0 || p.totalItems > 0
    ensures p.grandTotalItems > 0 ==> t == p.grandTotalItems
    ensures p.grandTotalItems <= 0 ==> t == if p.totalItems > 0 then p.totalItems else 0
  {
    if p.grandTotalItems > 0 then p.grandTotalItems
    else if p.totalItems > 0 then p.totalItems
    else 0
  }

  /** The loop stops after `page` when it was short, or when the pages so far hold
      `collected` projects and the reported total is known and reached. */
  predicate StopsAfter(page: Page, collected: nat)
  {
    |page.data| < PageSize ||
    (ReportedTotal(page.pagination) > 0 && collected >= ReportedTotal(page.pagination))
  }

  /** The server's replies to the listing requests for one search string, page by page.
      Past the last given reply the server answers with an empty page. */
  function PageAt(pages: seq<Result<Page>>, k: nat): (r: Result<Page>)
    ensures k >= |pages| ==> r == Ok(Page([], Pagination(0, 0)))
  {
    if k < |pages| then pages[k] else Ok(Page([], Pagination(0, 0)))
  }

  /** The listing requests `listProjectsAll(search)` sends for its first `n` pages. */
  function ListCalls(search: string, n: nat): (r: seq<Call>)
    ensures |r| == n
    ensures forall i :: 0 <= i < n ==> r[i] == ListCall(PageSize * i, PageSize, search)
  {
    if n == 0 then [] else ListCalls(search, n - 1) + [ListCall(PageSize * (n - 1), PageSize, search)]
  }

  /** The projects of the first `n` pages, in page order (a failed page contributes none). */
  function Collected(pages: seq<Result<Page>>, n: nat): seq<Project>
  {
    if n == 0 then []
    else Collected(pages, n - 1) + (match PageAt(pages, n - 1) case Ok(p) => p.data case Err(_) => [])
  }

  /** How a listing ends: how many requests it sent, and what it returned. */
  datatype Listing = Listing(requests: nat, result: Result<seq<Project>>)

  /** The listing loop from page `k` on, `acc` holding what the earlier pages returned. */
  function ListFrom(pages: seq<Result<Page>>, k: nat, acc: seq<Project>): (l: Listing)
    ensures l.requests > k
    ensures l.requests <= if k < |pages| then |pages| + 1 else k + 1
    decreases |pages| - k
  {
    match PageAt(pages, k)
    case Err(msg) => Listing(k + 1, Err(msg))
    case Ok(page) =>
      var all := acc + page.data;
      if StopsAfter(page, |all|) then Listing(k + 1, Ok(all))
      else ListFrom(pages, k + 1, all)
  }

  /** `listProjectsAll`: it sends at least one request and at most one more than the server
      has replies; it fails exactly when the last page it fetched failed, and otherwise
      returns the projects of every page it fetched, in page order. */
  function ListAll(pages: seq<Result<Page>>): (l: Listing)
    ensures 1 <= l.requests <= |pages| + 1
    ensures l.result.Err? <==> PageAt(pages, l.requests - 1).Err?
    ensures l.result.Ok? ==> l.result.value == Collected(pages, l.requests)
  {
    ListFromIsListing(pages, 0);
    ListFrom(pages, 0, [])
  }

  /** The first `n` pages were fetched successfully and none of them stopped the loop. */
  ghost predicate ContinuedThrough(pages: seq<Result<Page>>, n: nat)
  {
    forall i :: 0 <= i < n ==>
      PageAt(pages, i).Ok? && !StopsAfter(PageAt(pages, i).value, |Collected(pages, i + 1)|)
  }

  /** The page fetched last ends the listing: it failed and the listing failed, or it met a
      stop condition and the listing returned the projects of every page fetched, in order. */
  ghost predicate EndsListing(pages: seq<Result<Page>>, n: nat, result: Result<seq<Project>>)
    requires n >= 1
  {
    var last := PageAt(pages, n - 1);
    (last.Err? <==> result.Err?) &&
    (last.Ok? ==> StopsAfter(last.value, |Collected(pages, n)|) && result == Ok(Collected(pages, n)))
  }

  /** Every page before the last one fetched was a full page that did not reach the total,
      and the last one fetched ended the listing. */
  ghost predicate IsListingOf(pages: seq<Result<Page>>, l: Listing)
  {
    l.requests >= 1 && ContinuedThrough(pages, l.requests - 1) && EndsListing(pages, l.requests, l.result)
  }

  lemma ContinuedOneMore(pages: seq<Result<Page>>, k: nat)
    requires ContinuedThrough(pages, k)
    requires PageAt(pages, k).Ok? && !StopsAfter(PageAt(pages, k).value, |Collected(pages, k + 1)|)
    ensures ContinuedThrough(pages, k + 1)
  {
  }

  lemma {:induction false} ListFromIsListing(pages: seq<Result<Page>>, k: nat)
    requires ContinuedThrough(pages, k)
    ensures IsListingOf(pages, ListFrom(pages, k, Collected(pages, k)))
    decreases |pages| - k
  {
    var reply := PageAt(pages, k);
    if reply.Ok? {
      var all := Collected(pages, k) + reply.value.data;
      assert all == Collected(pages, k + 1);
      if !StopsAfter(reply.value, |all|) {
        ContinuedOneMore(pages, k);
        ListFromIsListing(pages, k + 1);
      } else {
        assert ListFrom(pages, k, Collected(pages, k)) == Listing(k + 1, Ok(all));
      }
    } else {
      assert ListFrom(pages, k, Collected(pages, k)) == Listing(k + 1, Err(reply.msg));
    }
  }

  /** `listProjectsAll` as specified: the in-order concatenation of the pages fetched. */
  lemma ListAllIsListing(pages: seq<Result<Page>>)
    ensures IsListingOf(pages, ListAll(pages))
  {
    ListFromIsListing(pages, 0);
  }

  /** A full page with no reported total never stops the loop. */
  lemma UnknownTotalNeverStops(page: Page, collected: nat)
    requires |page.data| == PageSize
    requires page.pagination.grandTotalItems <= 0 && page.pagination.totalItems <= 0
    ensures !StopsAfter(page, collected)
  {
  }

  /** The test `FindProjectsByNameExact` applies to each listed project. */
  function NamedExactly(name: string): Project -> bool
  {
    (p: Project) => p.name == name
  }

  /** The projects named exactly `name`, in listing order. */
  function WithName(ps: seq<Project>, name: string): seq<Project>
  {
    Filter(ps, NamedExactly(name))
  }

  /** The exact-name filter keeps exactly the listed projects of that name... */
  lemma WithNameMembership(ps: seq<Project>, name: string, p: Project)
    ensures p in WithName(ps, name) <==> p in ps && p.name == name
  {
    FilterMembership(ps, NamedExactly(name), p);
  }

  /** ...in their listing order. */
  lemma WithNameKeepsOrder(ps: seq<Project>, name: string)
    ensures IsSubsequence(WithName(ps, name), ps)
  {
    FilterIsSubsequence(ps, NamedExactly(name));
  }

  lemma WithNameSnoc(ps: seq<Project>, p: Project, name: string)
    ensures WithName(ps + [p], name) == WithName(ps, name) + (if p.name == name then [p] else [])
  {
    assert (ps + [p])[..|ps|] == ps;
  }

  /** The body of a create request. */
  function CreateBody(name: string, composeContent: string, envContent: string): Body
  {
    var b := map["name" := name, "composeContent" := composeContent];
    if envContent != "" then b["envContent" := envContent] else b
  }

  /** A create body always holds the name and the compose content, and holds the env
      content exactly when it is not empty; it holds nothing else. */
  lemma CreateBodyFields(name: string, composeContent: string, envContent: string)
    ensures var b := CreateBody(name, composeContent, envContent);
      b.Keys == {"name", "composeContent"} + (if envContent != "" then {"envContent"} else {}) &&
      b["name"] == name && b["composeContent"] == composeContent &&
      (envContent != "" ==> b["envContent"] == envContent)
  {
  }

  /** The body of an update request. */
  function UpdateBody(composeContent: string, envContent: string): Body
  {
    var b: Body := map[];
    var b := if composeContent != "" then b["composeContent" := composeContent] else b;
    if envContent != "" then b["envContent" := envContent] else b
  }

  /** An update body holds exactly the non-empty ones of the two contents, under their keys. */
  lemma UpdateBodyFields(composeContent: string, envContent: string)
    ensures var b := UpdateBody(composeContent, envContent);
      ("composeContent" in b <==> composeContent != "") &&
      ("envContent" in b <==> envContent != "") &&
      b.Keys <= {"composeContent", "envContent"} &&
      (forall k :: k in b ==> b[k] != "") &&
      ("composeContent" in b ==> b["composeContent"] == composeContent) &&
      ("envContent" in b ==> b["envContent"] == envContent)
  {
  }

  /** The ID a create reply yields: the reply's ID, or the project name when it is empty. */
  function CreatedId(id: string, name: string): (r: string)
    ensures r != "" || name == ""
    ensures id != "" ==> r == id
    ensures id == "" ==> r == name
  {
    if id != "" then id else name
  }

  /** The Arcane API client of one run. The server is given: `catalog(search)` are its
      replies to the listing requests for `search`, page by page, and `respond(n)` its reply
      to the request that is `n`-th in the log. */
  class Client {
    const catalog: string -> seq<Result<Page>>
    const respond: nat -> Reply
    var log: seq<Call>

    constructor (catalog: string -> seq<Result<Page>>, respond: nat -> Reply)
      ensures this.catalog == catalog && this.respond == respond && log == []
    {
      this.catalog := catalog;
      this.respond := respond;
      log := [];
    }

    /** `listProjectsAll`: requests page after page, 50 projects from `start` at a time,
        until a page is short or the reported total is reached. */
    method ListProjectsAll(search: string) returns (r: Result<seq<Project>>)
      modifies this
      ensures var l := ListAll(catalog(search));
        log == old(log) + ListCalls(search, l.requests) && r == l.result
    {
      ghost var pages := catalog(search);
      ghost var spec := ListAll(pages);
      var start := 0;
      ghost var k: nat := 0;
      var all: seq<Project> := [];
      while true
        invariant start == PageSize * k
        invariant k <= |pages|
        invariant ListFrom(pages, k, all) == spec
        invariant log == old(log) + ListCalls(search, k)
        decreases |pages| - k
      {
        log := log + [ListCall(start, PageSize, search)];
        var reply := PageAt(catalog(search), start / PageSize);
        assert start / PageSize == k;
        if reply.Err? {
          return Err(reply.msg);
        }
        var page := reply.value;
        all := all + page.data;
        if |page.data| < PageSize {
          break;
        }
        var total := 0;
        if page.pagination.grandTotalItems > 0 {
          total := page.pagination.grandTotalItems;
        } else if page.pagination.totalItems > 0 {
          total := page.pagination.totalItems;
        }
        if total > 0 && |all| >= total {
          break;
        }
        start := start + PageSize;
        k := k + 1;
      }
      return Ok(all);
    }

    /** `ListProjects`: the listing without a search string. */
    method ListProjects() returns (r: Result<seq<Project>>)
      modifies this
      ensures var l := ListAll(catalog(""));
        log == old(log) + ListCalls("", l.requests) && r == l.result
    {
      r := ListProjectsAll("");
    }

    /** `FindProjectsByNameExact`: the listing searched by `name`, keeping only the
        projects named exactly `name`; a failed listing is an error. */
    method FindProjectsByNameExact(name: string) returns (r: Result<seq<Project>>)
      modifies this
      ensures var l := ListAll(catalog(name));
        log == old(log) + ListCalls(name, l.requests) &&
        r == match l.result case Ok(ps) => Ok(WithName(ps, name)) case Err(msg) => Err(msg)
    {
      var listed := ListProjectsAll(name);
      if listed.Err? {
        return Err(listed.msg);
      }
      var projects := listed.value;
      ghost var listedLog := log;
      var exact: seq<Project> := [];
      var i := 0;
      while i < |projects|
        invariant 0 <= i <= |projects|
        invariant exact == Filter(projects[..i], NamedExactly(name))
        invariant log == listedLog
      {
        FilterStep(projects, i, NamedExactly(name));
        if projects[i].name == name {
          exact := exact + [projects[i]];
        }
        i := i + 1;
      }
      assert projects[..i] == projects;
      assert exact == WithName(projects, name);
      return Ok(exact);
    }

    /** `CreateProject`: sends the create body; on success yields the new project's ID,
        falling back to the name when the reply has none. */
    method CreateProject(name: string, composeContent: string, envContent: string)
      returns (r: Result<string>)
      modifies this
      ensures log == old(log) + [CreateCall(CreateBody(name, composeContent, envContent))]
      ensures match respond(|old(log)|)
        case Failed => r.Err?
        case Succeeded(id) => r == Ok(CreatedId(id, name))
    {
      var reply := respond(|log|);
      log := log + [CreateCall(CreateBody(name, composeContent, envContent))];
      if reply.Failed? {
        return Err("failed to create project " + name);
      }
      if reply.id != "" {
        return Ok(reply.id);
      }
      return Ok(name);
    }

    /** `UpdateProject`: sends the non-empty contents; reports whether it succeeded. */
    method UpdateProject(id: string, composeContent: string, envContent: string) returns (ok: bool)
      modifies this
      ensures log == old(log) + [UpdateCall(id, UpdateBody(composeContent, envContent))]
      ensures ok <==> respond(|old(log)|).Succeeded?
    {
      ok := respond(|log|).Succeeded?;
      log := log + [UpdateCall(id, UpdateBody(composeContent, envContent))];
    }

    /** `StartProject`: brings the project up; reports whether it succeeded. */
    method StartProject(id: string) returns (ok: bool)
      modifies this
      ensures log == old(log) + [StartCall(id)]
      ensures ok <==> respond(|old(log)|).Succeeded?
    {
      ok := respond(|log|).Succeeded?;
      log := log + [StartCall(id)];
    }

    /** `RedeployProject`: redeploys the project; reports whether it succeeded. */
    method RedeployProject(id: string) returns (ok: bool)
      modifies this
      ensures log == old(log) + [RedeployCall(id)]
      ensures ok <==> respond(|old(log)|).Succeeded?
    {
      ok := respond(|log|).Succeeded?;
      log := log + [RedeployCall(id)];
    }
  }
}
