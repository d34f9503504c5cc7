/**
 * The API route `handler` (pages/api/analyze.js:122-278): request checks, the paginated
 * issue listing, the per-issue analysis loop, the summary, and the mapping of thrown
 * errors to HTTP statuses.
 *
 * The hosting API and the language model are inputs: `pages` holds what the issue
 * listing answers for page 1, 2, ... of the parsed repository (past its end the listing
 * is empty), and `replies` holds what the model answered to the first, second, ...
 * analysis call (a missing reply counts as a call that threw).
 */
module Handler {
  import opened Wrappers
  import opened Text
  import opened Cost
  import opened Records
  import opened GitHubUrl
  import opened Classifier
  import opened Csv
  import opened Report

  /** `perPage`. */
  const PerPage := 100

  /** The answer to one `octokit.issues.listForRepo` call: a page of entries, or a thrown error. */
  datatype PageReply = Page(records: seq<Issue>) | PageError(error: JsError)

  /** What the listing answers for page `p` (pages are numbered from 1). */
  function PageAt(pages: seq<PageReply>, p: nat): PageReply
  {
    if 1 <= p <= |pages| then pages[p - 1] else Page([])
  }

  /** A page after which the loop asks for the next one. */
  predicate IsFull(r: PageReply)
  {
    r.Page? && |r.records| >= PerPage
  }

  /** `issues.filter(issue => !issue.pull_request)`. */
  function WithoutPullRequests(records: seq<Issue>): (r: seq<Issue>)
    ensures |r| <= |records|
    decreases |records|
  {
    if records == [] then []
    else (if records[0].isPullRequest then [] else [records[0]]) + WithoutPullRequests(records[1..])
  }

  /** The filter keeps exactly the entries that are not pull requests. */
  lemma {:induction false} WithoutPullRequestsMembers(records: seq<Issue>)
    ensures forall x :: x in WithoutPullRequests(records) <==> x in records && !x.isPullRequest
    decreases |records|
  {
    if records != [] {
      WithoutPullRequestsMembers(records[1..]);
      assert records == [records[0]] + records[1..];
    }
  }

  /** The entries a page contributes to `allIssues`. */
  function Kept(r: PageReply): seq<Issue>
  {
    match r
    case Page(records) => WithoutPullRequests(records)
    case PageError(_) => []
  }

  /** The issues of pages 1 to `k`, pull requests removed, in page order. */
  function Collected(pages: seq<PageReply>, k: nat): seq<Issue>
    decreases k
  {
    if k == 0 then [] else Collected(pages, k - 1) + Kept(PageAt(pages, k))
  }

  /** The page at which the listing stops: the first page from `p` on that is not full. */
  function LastPage(pages: seq<PageReply>, p: nat): (q: nat)
    requires p >= 1
    ensures q >= p && !IsFull(PageAt(pages, q))
    ensures forall r :: p <= r < q ==> IsFull(PageAt(pages, r))
    decreases if p <= |pages| then |pages| + 1 - p else 0
  {
    if !IsFull(PageAt(pages, p)) then p else LastPage(pages, p + 1)
  }

  /** What the pagination loop ends with: the error of the last page asked for, or the issues. */
  function FetchOutcome(pages: seq<PageReply>): Result<seq<Issue>, JsError>
  {
    var last := LastPage(pages, 1);
    match PageAt(pages, last)
    case PageError(e) => Failure(e)
    case Page(_) => Success(Collected(pages, last))
  }

  /** A page the loop reaches that is not full is the last page. */
  lemma StopsAtLastPage(pages: seq<PageReply>, p: nat)
    requires 1 <= p <= LastPage(pages, 1) && !IsFull(PageAt(pages, p))
    ensures p == LastPage(pages, 1)
  {
  }

  /**
   * The `while (true)` loop of the handler (163-184). It asks for pages 1, 2, ... in
   * order, up to and including the first page that is empty, shorter than 100 or an
   * error, and accumulates each page's entries without the pull requests.
   */
  method FetchAllIssues(pages: seq<PageReply>) returns (outcome: Result<seq<Issue>, JsError>, requested: seq<nat>)
    ensures outcome == FetchOutcome(pages)
    ensures |requested| == LastPage(pages, 1)
    ensures forall k :: 0 <= k < |requested| ==> requested[k] == k + 1
  {
    var allIssues: seq<Issue> := [];
    var page := 1;
    requested := [];
    while true
      invariant 1 <= page <= LastPage(pages, 1)
      invariant |requested| == page - 1
      invariant forall k :: 0 <= k < |requested| ==> requested[k] == k + 1
      invariant allIssues == Collected(pages, page - 1)
      decreases |pages| + 1 - page
    {
      requested := requested + [page];
      var reply := PageAt(pages, page);
      if reply.PageError? {
        StopsAtLastPage(pages, page);
        return Failure(reply.error), requested;
      }
      var issues := reply.records;
      if |issues| == 0 {
        StopsAtLastPage(pages, page);
        assert allIssues == Collected(pages, page);
        break;
      }
      var actualIssues := WithoutPullRequests(issues);
      allIssues := allIssues + actualIssues;
      if |issues| < PerPage {
        StopsAtLastPage(pages, page);
        break;
      }
      page := page + 1;
    }
    outcome := Success(allIssues);
  }

  /** The entries the listing returned on a page, pull requests included. */
  function Entries(r: PageReply): seq<Issue>
  {
    match r
    case Page(records) => records
    case PageError(_) => []
  }

  /** Every entry of pages 1 to `k`, in page order. */
  function AllRecords(pages: seq<PageReply>, k: nat): seq<Issue>
    decreases k
  {
    if k == 0 then [] else AllRecords(pages, k - 1) + Entries(PageAt(pages, k))
  }

  /** Filtering out pull requests commutes with concatenation. */
  lemma {:induction false} WithoutPullRequestsAppend(a: seq<Issue>, b: seq<Issue>)
    ensures WithoutPullRequests(a + b) == WithoutPullRequests(a) + WithoutPullRequests(b)
    decreases |a|
  {
    if a == [] {
      assert a + b == b;
    } else {
      assert (a + b)[0] == a[0] && (a + b)[1..] == a[1..] + b;
      WithoutPullRequestsAppend(a[1..], b);
    }
  }

  /**
   * Filtering page by page and concatenating is filtering all the entries at once: the
   * collected issues are the entries of pages 1 to `k`, in order, without the pull requests.
   */
  lemma {:induction false} CollectedIsFiltered(pages: seq<PageReply>, k: nat)
    ensures Collected(pages, k) == WithoutPullRequests(AllRecords(pages, k))
    decreases k
  {
    if k > 0 {
      CollectedIsFiltered(pages, k - 1);
      WithoutPullRequestsAppend(AllRecords(pages, k - 1), Entries(PageAt(pages, k)));
      assert Kept(PageAt(pages, k)) == WithoutPullRequests(Entries(PageAt(pages, k)));
    }
  }

  /**
   * A successful listing returns exactly the entries of the pages it read that are not
   * pull requests.
   */
  lemma FetchedIssues(pages: seq<PageReply>)
    requires FetchOutcome(pages).Success?
    ensures forall x :: x in FetchOutcome(pages).value <==>
      x in AllRecords(pages, LastPage(pages, 1)) && !x.isPullRequest
  {
    CollectedIsFiltered(pages, LastPage(pages, 1));
    WithoutPullRequestsMembers(AllRecords(pages, LastPage(pages, 1)));
  }

  /** The model's answer to the `i`-th analysis call. */
  function ReplyAt(replies: seq<LlmReply>, i: nat): LlmReply
  {
    if i < |replies| then replies[i] else Threw
  }

  /**
   * One iteration of the analysis loop (200-230): the `try` path prices the analysis;
   * when `calculateCost` throws, the `catch` path prices the heuristic's tier instead.
   */
  function AnalyzeOne(issue: Issue, reply: LlmReply): (r: AnalyzedIssue)
    ensures r.issueNumber == issue.number && r.title == issue.title
    ensures r.labels == Join(issue.labels, "; ") && r.url == issue.htmlUrl
    ensures CalculateCost(r.complexity) == Priced(r.estimatedCost)
    ensures r.complexity in TierNames || r.complexity in ObjectPrototypeKeys
  {
    var analysis := AnalyzeIssueWithClaude(issue, reply);
    match CalculateCost(analysis.complexity)
    case Priced(estimatedCost) =>
      PricedMeansTier(analysis.complexity);
      AnalyzedIssue(issue.number, issue.title, analysis.complexity, estimatedCost,
        Join(issue.labels, "; "), issue.htmlUrl)
    case Throws =>
      var fallback := FallbackComplexityAnalysis(issue);
      PricedMeansTier(fallback.complexity);
      AnalyzedIssue(issue.number, issue.title, fallback.complexity,
        CalculateCost(fallback.complexity).amount, Join(issue.labels, "; "), issue.htmlUrl)
  }

  /**
   * Which complexity each kind of reply leads to: a failed call or an unknown tier name
   * falls back to the heuristic, a reply without JSON is medium, a tier name is kept,
   * and a name that every object inherits is kept and priced NaN.
   */
  lemma AnalyzeOneByReply(issue: Issue, reply: LlmReply)
    ensures var r := AnalyzeOne(issue, reply);
      var fallback := FallbackComplexityAnalysis(issue).complexity;
      (reply.Threw? ==> r.complexity == fallback) &&
      (reply.NoJsonObject? ==> r.complexity == "medium" && r.estimatedCost == Dollars(450)) &&
      (reply.Parsed? && reply.complexity in TierNames ==> r.complexity == reply.complexity) &&
      (reply.Parsed? && reply.complexity in ObjectPrototypeKeys ==>
        r.complexity == reply.complexity && r.estimatedCost == NaN) &&
      (reply.Parsed? && reply.complexity !in TierNames && reply.complexity !in ObjectPrototypeKeys ==>
        r.complexity == fallback)
  {
    PricedMeansTier(AnalyzeIssueWithClaude(issue, reply).complexity);
    assert CalculateCost(TierName(Medium)) == Priced(Dollars(450));
  }

  /** The results the analysis loop pushes: one per issue, in fetch order. */
  function Analyzed(issues: seq<Issue>, replies: seq<LlmReply>): (rs: seq<AnalyzedIssue>)
    ensures |rs| == |issues|
  {
    seq(|issues|, k requires 0 <= k < |issues| => AnalyzeOne(issues[k], ReplyAt(replies, k)))
  }

  /** The `for` loop of the handler (196-231): exactly one pushed result per issue, in order. */
  method AnalyzeAll(issues: seq<Issue>, replies: seq<LlmReply>) returns (results: seq<AnalyzedIssue>)
    ensures |results| == |issues|
    ensures forall k :: 0 <= k < |issues| ==>
      results[k] == AnalyzeOne(issues[k], ReplyAt(replies, k)) &&
      results[k].issueNumber == issues[k].number
    ensures results == Analyzed(issues, replies)
  {
    results := [];
    for i := 0 to |issues|
      invariant |results| == i
      invariant forall k :: 0 <= k < i ==> results[k] == AnalyzeOne(issues[k], ReplyAt(replies, k))
    {
      var issue := issues[i];
      results := results + [AnalyzeOne(issue, ReplyAt(replies, i))];
    }
  }

  /** The model answered no call with a name every object inherits. */
  ghost predicate NoInheritedName(replies: seq<LlmReply>, n: nat)
  {
    forall k :: 0 <= k < n ==>
      !(ReplyAt(replies, k).Parsed? && ReplyAt(replies, k).complexity in ObjectPrototypeKeys)
  }

  /**
   * The summary counts every issue once; unless the model named an inherited property,
   * the three counts add up to the number of issues and the total is 200 per low, 450
   * per medium and 800 per high issue.
   */
  lemma AnalyzedSummary(issues: seq<Issue>, replies: seq<LlmReply>)
    ensures Summarize(Analyzed(issues, replies)).totalIssues == |issues|
    ensures NoInheritedName(replies, |issues|) ==>
      var s := Summarize(Analyzed(issues, replies));
      s.low + s.medium + s.high == |issues| &&
      s.totalEstimatedCost == Dollars(200 * s.low + 450 * s.medium + 800 * s.high)
  {
    var results := Analyzed(issues, replies);
    if NoInheritedName(replies, |issues|) {
      forall k | 0 <= k < |results| ensures results[k].complexity in TierNames {
        AnalyzeOneByReply(issues[k], ReplyAt(replies, k));
      }
      CountsPartition(results);
      WeightedTotal(results);
    }
  }

  /** The complexity column is always a bare word the CSV reader reads back. */
  lemma ComplexityIsBare(r: AnalyzedIssue)
    requires r.complexity in TierNames || r.complexity in ObjectPrototypeKeys
    ensures PlainSafe(r.complexity) && '\n' !in r.complexity
  {
    if r.complexity in ObjectPrototypeKeys {
      PrototypeKeysHaveNoComma();
      PrototypeKeysHaveNoLineFeed();
      PrototypeKeysStartUnquoted();
    }
  }

  lemma PrototypeKeysHaveNoComma()
    ensures forall x :: x in ObjectPrototypeKeys ==> ',' !in x
  {
  }

  lemma PrototypeKeysHaveNoLineFeed()
    ensures forall x :: x in ObjectPrototypeKeys ==> '\n' !in x
  {
  }

  lemma PrototypeKeysStartUnquoted()
    ensures forall x :: x in ObjectPrototypeKeys ==> x != [] && x[0] != '"'
  {
  }

  /** The request as the handler sees it: `req.method` and `req.body.repoUrl`. */
  datatype Request = Request(httpMethod: string, repoUrl: Option<string>)

  /** `process.env.GITHUB_TOKEN` and `process.env.ANTHROPIC_API_KEY`. */
  datatype Env = Env(githubToken: Option<string>, anthropicApiKey: Option<string>)

  /** A JavaScript string value that is present and not empty (`!v` is false). */
  predicate Truthy(v: Option<string>)
  {
    v.Some? && v.value != ""
  }

  /** The JSON bodies the handler sends. */
  datatype Body =
    | CsvAndSummary(csv: string, summary: Summary)
    | CsvAndMessage(csv: string, message: string)
    | ErrorOnly(error: string)
    | ErrorWithDetails(error: string, details: string)

  datatype HttpResponse = HttpResponse(status: int, body: Body)

  /** The CSV sent for a repository without open issues: the header line, written out. */
  const EmptyCsv := "issue_number" + "," + "title" + "," + "complexity" + "," + "estimated_cost" + ","
    + "labels" + "," + "url" + "\n"

  /** The literal header of the empty answer is the header `convertToCSV` writes, ended by a line feed. */
  lemma EmptyCsvIsHeaderLine()
    ensures EmptyCsv == ConvertToCsv([]) + "\n"
  {
    HeaderSpelledOut();
    assert ConvertToCsv([]) == Header by {
      assert [Header] + Rows([]) == [Header];
    }
  }

  /** The `catch` block of the handler (253-277). */
  function ErrorResponse(e: JsError): (r: HttpResponse)
    ensures r.status in {400, 403, 404, 500}
    ensures r.body.ErrorWithDetails? <==> r.status == 500
    ensures r.status == 500 ==> r.body.details == e.message
  {
    if Contains(e.message, "Invalid GitHub URL") then HttpResponse(400, ErrorOnly(e.message))
    else if e.status == Some(404) then
      HttpResponse(404, ErrorOnly("Repository not found or you do not have access to it"))
    else if e.status == Some(403) then
      HttpResponse(403, ErrorOnly("GitHub API rate limit exceeded. Please try again later."))
    else
      HttpResponse(500, ErrorWithDetails("An error occurred while processing the repository", e.message))
  }

  /**
   * The message test comes first: any error whose message mentions an invalid URL is a
   * 400, whatever its status; then 404 and 403 pass through; everything else is a 500.
   */
  lemma ErrorPriority(e: JsError)
    ensures Contains(e.message, "Invalid GitHub URL") ==> ErrorResponse(e).status == 400
    ensures !Contains(e.message, "Invalid GitHub URL") && e.status == Some(404) ==> ErrorResponse(e).status == 404
    ensures !Contains(e.message, "Invalid GitHub URL") && e.status == Some(403) ==> ErrorResponse(e).status == 403
    ensures !Contains(e.message, "Invalid GitHub URL") && e.status != Some(404) && e.status != Some(403) ==>
      ErrorResponse(e) == HttpResponse(500, ErrorWithDetails("An error occurred while processing the repository", e.message))
  {
  }

  /** The checks before the `try` block all pass. */
  predicate Admitted(req: Request, env: Env)
  {
    req.httpMethod == "POST" && Truthy(req.repoUrl) && Truthy(env.githubToken) && Truthy(env.anthropicApiKey)
  }

  /** `handler(req, res)`: the status and JSON body it sends. */
  method Handle(req: Request, env: Env, pages: seq<PageReply>, replies: seq<LlmReply>) returns (res: HttpResponse)
    ensures res.status in {200, 400, 403, 404, 405, 500}
    ensures req.httpMethod != "POST" ==> res == HttpResponse(405, ErrorOnly("Method not allowed"))
    ensures req.httpMethod == "POST" && !Truthy(req.repoUrl) ==>
      res == HttpResponse(400, ErrorOnly("Repository URL is required"))
    ensures req.httpMethod == "POST" && Truthy(req.repoUrl) && !Truthy(env.githubToken) ==>
      res == HttpResponse(500, ErrorOnly("GitHub token not configured"))
    ensures req.httpMethod == "POST" && Truthy(req.repoUrl) && Truthy(env.githubToken) && !Truthy(env.anthropicApiKey) ==>
      res == HttpResponse(500, ErrorOnly("Anthropic API key not configured"))
    ensures Admitted(req, env) && ParseGitHubUrl(req.repoUrl.value).Failure? ==>
      res.status == 400 && res == ErrorResponse(ParseGitHubUrl(req.repoUrl.value).error)
    ensures Admitted(req, env) && ParseGitHubUrl(req.repoUrl.value).Success? && FetchOutcome(pages).Failure? ==>
      res == ErrorResponse(FetchOutcome(pages).error)
    ensures Admitted(req, env) && ParseGitHubUrl(req.repoUrl.value).Success? && FetchOutcome(pages) == Success([]) ==>
      res == HttpResponse(200, CsvAndMessage(EmptyCsv, "No open issues found in this repository"))
    ensures (Admitted(req, env) && ParseGitHubUrl(req.repoUrl.value).Success? &&
      FetchOutcome(pages).Success? && FetchOutcome(pages).value != []) ==>
      var results := Analyzed(FetchOutcome(pages).value, replies);
      res == HttpResponse(200, CsvAndSummary(ConvertToCsv(results), Summarize(results)))
  {
    if req.httpMethod != "POST" {
      return HttpResponse(405, ErrorOnly("Method not allowed"));
    }
    if !Truthy(req.repoUrl) {
      return HttpResponse(400, ErrorOnly("Repository URL is required"));
    }
    if !Truthy(env.githubToken) {
      return HttpResponse(500, ErrorOnly("GitHub token not configured"));
    }
    if !Truthy(env.anthropicApiKey) {
      return HttpResponse(500, ErrorOnly("Anthropic API key not configured"));
    }
    var parsed := ParseGitHubUrl(req.repoUrl.value);
    if parsed.Failure? {
      ParseFailureMessage(req.repoUrl.value);
      return ErrorResponse(parsed.error);
    }
    var fetched, _ := FetchAllIssues(pages);
    if fetched.Failure? {
      return ErrorResponse(fetched.error);
    }
    var allIssues := fetched.value;
    if |allIssues| == 0 {
      return HttpResponse(200, CsvAndMessage(EmptyCsv, "No open issues found in this repository"));
    }
    var results := AnalyzeAll(allIssues, replies);
    var csv := ConvertToCsv(results);
    res := HttpResponse(200, CsvAndSummary(csv, Summarize(results)));
  }

  /**
   * One listing page with two issues and a pull request: the loop stops after that page,
   * keeps the two issues in order, and the summary counts two issues.
   */
  lemma TwoIssuesAndAPullRequest(a: Issue, b: Issue, pr: Issue, replies: seq<LlmReply>)
    requires !a.isPullRequest && !b.isPullRequest && pr.isPullRequest
    ensures LastPage([Page([a, pr, b])], 1) == 1
    ensures FetchOutcome([Page([a, pr, b])]) == Success([a, b])
    ensures |Analyzed([a, b], replies)| == 2
    ensures Summarize(Analyzed([a, b], replies)).totalIssues == 2
  {
    var records := [a, pr, b];
    var pages := [Page(records)];
    assert records[1..] == [pr, b] && records[1..][1..] == [b] && [b][1..] == [];
    assert WithoutPullRequests([b]) == [b] + WithoutPullRequests([]) == [b];
    assert WithoutPullRequests([pr, b]) == WithoutPullRequests([b]);
    assert WithoutPullRequests(records) == [a] + WithoutPullRequests([pr, b]) == [a, b];
    assert PageAt(pages, 1) == Page(records) && !IsFull(Page(records));
    assert LastPage(pages, 1) == 1;
    assert Collected(pages, 1) == Collected(pages, 0) + [a, b] == [a, b];
    assert FetchOutcome(pages) == Success(Collected(pages, 1));
  }
}
