/** The records the handler reads from the hosting API and the rows it produces. */
module Records {
  import opened Wrappers
  import opened Cost

  /**
   * One entry of an issue listing page: `number`, `title`, `body` (possibly null),
   * the label names, `comments`, `html_url`, and whether the entry carries a
   * `pull_request` field (the listing includes pull requests).
   */
  datatype Issue = Issue(
    number: int,
    title: string,
    body: Option<string>,
    labels: seq<string>,
    comments: int,
    htmlUrl: string,
    isPullRequest: bool)

  /** A thrown JavaScript error: its `message` and, for hosting-API errors, its HTTP `status`. */
  datatype JsError = JsError(message: string, status: Option<int>)

  /** One element of `results`: the object the analysis loop pushes for an issue. */
  datatype AnalyzedIssue = AnalyzedIssue(
    issueNumber: int,
    title: string,
    complexity: string,
    estimatedCost: Amount,
    labels: string,
    url: string)
}
