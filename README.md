# GitHub issue cost estimator: the analysis API route, modelled in Dafny

The repository is a small web application. Given the address of a GitHub repository, its
API route `/api/analyze` does the following:

- it lists every open issue of that repository through the GitHub REST API, page by page;
- it asks a language model to classify each issue as `low`, `medium` or `high` complexity,
  and falls back to a label heuristic when that fails;
- it prices each tier at the middle of a fixed dollar band;
- it answers with a CSV report and summary statistics: the issue count, the total cost, and
  the count per tier.

This project models that route (`pages/api/analyze.js`) and proves what it does. The
route's structure is kept:

- **Pure functions.** The URL parser, the heuristic, the cost lookup, the CSV writer and the
  summary fold are functions with lemmas.
- **Imperative loops.** The two loops of the handler are methods with loop invariants: the
  pagination `while (true)` loop and the per-issue `for` loop. Each is proved equal to a
  specification function, and the properties are proved about that function.
- **Oracles for the network.** The GitHub listing is a sequence of page replies: page `p`
  is element `p - 1`, past the end the listing is empty, and a reply may be a thrown error
  with an HTTP status. The language model is a sequence of replies, one per analysis call.
  Each reply says the call threw, or the reply held no `{...}` span, or the reply parsed to
  a `complexity` string.

Modules, one per file:

| file | module | models |
|---|---|---|
| wrappers.dfy | Wrappers | `Option` and `Result` |
| text.dfy | Text | `includes`, ASCII `toLowerCase`, `join`, `split` on one character, decimal `String(n)` and its reading back |
| cost.dfy | Cost | `COST_RANGES`, `calculateCost`, JavaScript numbers as integer or NaN |
| records.dfy | Records | an issue entry of the listing, a thrown error, a result row |
| github_url.dfy | GitHubUrl | `parseGitHubUrl`: leftmost regular-expression search, `.git` stripping |
| classifier.dfy | Classifier | `fallbackComplexityAnalysis`, `analyzeIssueWithClaude` given the model's reply |
| csv.dfy | Csv | `convertToCSV`, and a CSV reader used to state the round trip |
| report.dfy | Report | the `reduce` total and the three `filter` counts |
| handler.dfy | Handler | `handler`: request checks, pagination loop, analysis loop, summary, error mapping |

### Behaviour of the code that the model keeps

- **`calculateCost` indexes a plain object with whatever string the model returned.**
  - The three own keys give 200, 450 and 800.
  - A name every object inherits (`toString`, `constructor`, `__proto__`, ...) finds a
    function or object without `min` and `max`, so the estimate is NaN and nothing throws.
  - Any other string throws a TypeError. The per-issue `catch` in the handler then prices
    the heuristic's tier instead.
  - The model keeps all three outcomes (`Cost.CalculateCost`, `Handler.AnalyzeOne`).
- **The summary can be incomplete.** A reply naming an inherited property is counted in
  none of the three tiers, and it makes the total NaN. The count and total lemmas state
  when they hold: exactly when every complexity is a tier, and when no reply named an
  inherited property.
- **The URL expression is unanchored and the error mapping tests the message.**
  - `parseGitHubUrl` matches at the leftmost position where the whole pattern matches, with
    any text before it (`notgithub.com/a/b` parses). A `github.com/` where the pattern
    fails is passed over: `github.com//github.com/a/b` gives owner `a` and repo `b`.
  - Any later error whose message contains "Invalid GitHub URL" also becomes a 400,
    whatever its status.
- **Only the literal `github.com/` is accepted** as the host.
- **A reply without a `{...}` span is `medium`.** The heuristic runs only when the call or
  `JSON.parse` throws, or when `calculateCost` throws.
- **The tier counts add up to the result count only when every complexity is a tier.**
- **Line feeds are not escaped, and `complexity` and `url` are written bare.** So line by
  line reading recovers the fields only when no field holds a line feed, and when those two
  bare text fields hold no comma and do not start with `"`.

## Model

| member | source | states |
|---|---|---|
| Cost.Midpoint | pages/api/analyze.js:99 | the rounded midpoint is within half a unit of the exact middle, rounding halves up, and lies inside the band |
| Cost.CalculateCost | pages/api/analyze.js:96-101 | each tier name is priced at its promised cost: low 200, medium 450, high 800 |
| Cost.TierNamesAreTheKeys | pages/api/analyze.js:5-9 | the keys of the cost table are exactly the three tier names |
| Cost.TierCostInBand | pages/api/analyze.js:5-9 | each tier's cost lies within the `min`/`max` of its own band |
| Cost.PricedMeansTier | pages/api/analyze.js:96-101 | a dollar estimate comes exactly from the three tiers; NaN exactly from inherited property names; a throw exactly from every other string |
| GitHubUrl.SegmentEndMaximal | pages/api/analyze.js:13 | a `[^\/]+` group takes the whole run of non-slash characters: none inside, a slash or the end after it |
| GitHubUrl.MatchAtSound | pages/api/analyze.js:13-14 | a match at a position is an occurrence of `github.com/owner/repo` there, with the repo running to a slash or the end |
| GitHubUrl.MatchAtComplete | pages/api/analyze.js:13-14 | every occurrence of `github.com/owner/repo` matches at its position, with that owner, and with that repo when it runs to a slash or the end |
| GitHubUrl.SearchLeftmost | pages/api/analyze.js:14 | the search reports the match at the first position where one exists |
| GitHubUrl.SearchNone | pages/api/analyze.js:14 | a failed search means no position matches |
| GitHubUrl.ParseSucceedsIff | pages/api/analyze.js:12-22 | the parse succeeds if and only if `github.com/` followed by two non-empty slash-free segments joined by `/` occurs in the input |
| GitHubUrl.ParseSuccessMeaning | pages/api/analyze.js:18-21 | on success, owner is the first segment of the leftmost occurrence, repo is its whole second segment with a trailing `.git` removed, and no occurrence starts earlier |
| GitHubUrl.ParseFailureMessage | pages/api/analyze.js:15-17 | a failed parse throws an error without a status whose message contains "Invalid GitHub URL" |
| GitHubUrl.StripGitSuffixExact | pages/api/analyze.js:20 | exactly one trailing `.git` is removed, and a name without it is unchanged |
| GitHubUrl.MatchAtOccurrence | pages/api/analyze.js:13-14 | an occurrence followed by a slash or the end matches at its position with its owner and repo |
| GitHubUrl.SearchSkips | pages/api/analyze.js:14 | positions without a match are passed over by the search |
| GitHubUrl.SearchPastPrefix | pages/api/analyze.js:14 | no match starts inside a prefix without a `g` |
| GitHubUrl.ParseAfterPrefix | pages/api/analyze.js:12-22 | after a prefix without a `g`, an occurrence running to the end parses to its owner and its repo without `.git` |
| GitHubUrl.ParseExampleGitSuffix | pages/api/analyze.js:12-22 | `github.com/o/r.git/tree` parses to owner `o`, repo `r` |
| GitHubUrl.ParseExampleOnlyGit | pages/api/analyze.js:20 | a repo segment that is exactly `.git` gives an empty repo |
| GitHubUrl.ParseExampleScheme | pages/api/analyze.js:12-22 | `https://github.com/vercel/next.js` parses to `vercel` and `next.js` |
| GitHubUrl.ParseExampleSkipsEmptyOwner | pages/api/analyze.js:13-14 | `github.com//github.com/a/b` parses to `a` and `b`: the first `github.com/` has an empty owner and is passed over |
| GitHubUrl.ParseExampleNoRepo | pages/api/analyze.js:15-17 | `github.com/owner` without a repo segment does not parse |
| Classifier.SomeContainsIff | pages/api/analyze.js:79-84 | the `some`/`includes` test holds exactly when some lower-cased label has one of the two words as a substring |
| Classifier.FallbackComplexityAnalysis | pages/api/analyze.js:73-93 | the heuristic is total and always answers one of the three tiers |
| Classifier.FallbackPriority | pages/api/analyze.js:73-93 | low exactly when a label mentions bug or fix; high exactly when none does, a label mentions feature or enhancement, and the body is over 500 characters; medium otherwise |
| Classifier.FallbackExampleBug | pages/api/analyze.js:79-81 | a `bug` label gives low |
| Classifier.FallbackExampleBugBeatsFeature | pages/api/analyze.js:79-81 | `Bug` with `enhancement` gives low: case is ignored and the bug test comes first |
| Classifier.FallbackExampleEnhancement | pages/api/analyze.js:84-89 | a lone `enhancement` label gives high above 500 body characters and medium otherwise |
| Classifier.FallbackExampleUnlabelled | pages/api/analyze.js:91-92 | a lone `question` label gives medium |
| Classifier.AnalyzeIssueWithClaude | pages/api/analyze.js:56-69 | unless the reply parsed, the analysis is one of the three tiers |
| Csv.HeaderSpelledOut | pages/api/analyze.js:105-116 | the header line is the six column names joined by commas |
| Csv.ConvertToCsvShape | pages/api/analyze.js:114-118 | no items give the header alone; each further item adds a line feed and its row at the end, so rows follow input order and nothing trails |
| Csv.ReadQuotedEscape | pages/api/analyze.js:108-111 | undoubling the quotes of a quoted field recovers the original text and stops at the closing quote |
| Csv.ReadRender | pages/api/analyze.js:117 | a comma-joined row of readable fields reads back as the field texts |
| Csv.ReadRow | pages/api/analyze.js:106-113 | a result row reads back as its issue number, title, complexity, `$` and cost, labels and URL |
| Csv.ReadHeader | pages/api/analyze.js:105-116 | the header reads back as the six column names |
| Csv.RowHasNoLineFeed | pages/api/analyze.js:106-113 | a row holds no line feed when no field does |
| Csv.CsvRoundTrip | pages/api/analyze.js:104-119 | splitting the text at line feeds gives one line per item plus the header, and each line reads back as that item's fields, in input order |
| Report.TotalCostIsSum | pages/api/analyze.js:237 | the total is NaN exactly when some cost is NaN, and otherwise it is the exact sum of the costs |
| Report.CountOfAppend | pages/api/analyze.js:239-241 | counting a tier over concatenated results adds the counts |
| Report.CountsPartition | pages/api/analyze.js:238-247 | the three counts never exceed the result count, and they add up to it exactly when every complexity is a tier |
| Report.TierPrice | pages/api/analyze.js:96-101 | a result priced by its tier costs 200, 450 or 800 |
| Report.WeightedTotal | pages/api/analyze.js:237-242 | when every result is priced by its tier, the total is 200 per low, 450 per medium and 800 per high result |
| Handler.LastPage | pages/api/analyze.js:176-182 | the listing stops at the first page that is not full; every page before it is full |
| Handler.FetchAllIssues | pages/api/analyze.js:163-184 | the loop asks for pages 1, 2, ... in order up to the last page, and ends with that page's error or with every page's entries without pull requests |
| Handler.WithoutPullRequestsMembers | pages/api/analyze.js:179 | the filter keeps exactly the entries that are not pull requests |
| Handler.WithoutPullRequestsAppend | pages/api/analyze.js:179-180 | filtering commutes with concatenation |
| Handler.CollectedIsFiltered | pages/api/analyze.js:179-180 | the issues gathered page by page are the in-order entries of those pages with the pull requests removed |
| Handler.FetchedIssues | pages/api/analyze.js:163-184 | a successful listing returns exactly the entries it read that are not pull requests; no pull request survives |
| Handler.AnalyzeOne | pages/api/analyze.js:200-230 | a result copies the issue's number, title, `; `-joined labels and URL; its cost is what `calculateCost` gives its complexity; the complexity is a tier or an inherited name |
| Handler.AnalyzeOneByReply | pages/api/analyze.js:200-230 | a failed call or an unknown name takes the heuristic's tier; a reply without JSON is medium at 450; a tier name is kept; an inherited name is kept at NaN |
| Handler.AnalyzeAll | pages/api/analyze.js:196-231 | exactly one result per fetched issue, in fetch order, each the try or catch path's result for that issue |
| Handler.AnalyzedSummary | pages/api/analyze.js:237-250 | the summary counts every issue; unless the model named an inherited property, the tier counts add up to the issue count and the total is the weighted tier sum |
| Handler.ComplexityIsBare | pages/api/analyze.js:109 | every complexity a result can hold is a bare CSV field without a line feed |
| Handler.EmptyCsvIsHeaderLine | pages/api/analyze.js:188-193 | the CSV sent for an empty repository is the header line followed by a line feed |
| Handler.ErrorResponse | pages/api/analyze.js:253-277 | a caught error gives 400, 403, 404 or 500; only a 500 carries `details`, and those are the error's message |
| Handler.ErrorPriority | pages/api/analyze.js:257-276 | the message test comes before the status tests; 404 and 403 pass through; anything else is a 500 with the message as details |
| Handler.Handle | pages/api/analyze.js:122-278 | non-POST gives 405, no URL 400, no token or key 500, in that order; a bad URL gives 400; a failed listing is mapped by status; no issues gives the header CSV and a message; otherwise the CSV and summary of the analysed issues |
| Handler.TwoIssuesAndAPullRequest | pages/api/analyze.js:163-193 | a single page with two issues and a pull request ends the listing after that page with the two issues in order, and a summary of two issues |
| GitHubUrl.ParseGitHubUrl | pages/api/analyze.js:12-22 | `parseGitHubUrl`, defined by its body; its meaning is proved in ParseSucceedsIff, ParseSuccessMeaning and ParseFailureMessage |
| GitHubUrl.MatchAt | pages/api/analyze.js:13-14 | the expression tried at one position, defined by its body; proved against the occurrence predicate in MatchAtSound and MatchAtComplete |
| GitHubUrl.Search | pages/api/analyze.js:14 | `url.match` as a left-to-right search, defined by its body; properties in SearchLeftmost, SearchNone and SearchSkips |
| GitHubUrl.StripGitSuffix | pages/api/analyze.js:20 | `.replace(/\.git$/, '')`, defined by its body; properties in StripGitSuffixExact |
| Classifier.BodyLength | pages/api/analyze.js:75 | `(issue.body \|\| '').length`, defined by its body; used in FallbackPriority |
| Classifier.LowerCased | pages/api/analyze.js:74 | the lower-cased labels, one per label, each lower-cased as `ToLower` does |
| Classifier.SomeContains | pages/api/analyze.js:79-84 | `labels.some(l => l.includes(w1) \|\| l.includes(w2))`, defined by its body; proved against substring occurrence in SomeContainsIff |
| Csv.Escape | pages/api/analyze.js:108-111 | `replace(/"/g, '""')`, defined by its body; inverted by the reader in ReadQuotedEscape |
| Csv.Cells | pages/api/analyze.js:106-113 | the six fields of a row in header order, defined by its body; read back in ReadRow |
| Csv.Row | pages/api/analyze.js:106-117 | `row.join(',')` over the encoded fields, defined by its body; properties in ReadRow and RowHasNoLineFeed |
| Csv.ConvertToCsv | pages/api/analyze.js:104-119 | `convertToCSV`, defined by its body; properties in ConvertToCsvShape and CsvRoundTrip |
| Report.TotalCost | pages/api/analyze.js:237 | the `reduce` from 0, NaN-absorbing, defined by its body; properties in TotalCostIsSum and WeightedTotal |
| Report.CountOf | pages/api/analyze.js:239-241 | one `filter(...).length`, defined by its body; properties in CountOfAppend and CountsPartition |
| Report.Summarize | pages/api/analyze.js:244-250 | the `summary` object, defined by its body; properties in CountsPartition, WeightedTotal and AnalyzedSummary |
| Handler.WithoutPullRequests | pages/api/analyze.js:179 | the filter never lengthens the page; its members are fixed by WithoutPullRequestsMembers |
| Handler.Collected | pages/api/analyze.js:179-180 | the issues gathered from pages 1 to k, defined by its body; characterised in CollectedIsFiltered |
| Handler.FetchOutcome | pages/api/analyze.js:163-184 | what the pagination loop ends with, defined by its body; FetchAllIssues is proved equal to it, and FetchedIssues states its content |
| Handler.Analyzed | pages/api/analyze.js:196-231 | one result per issue, in order; AnalyzeAll is proved equal to it |
| Text.Contains | pages/api/analyze.js:79-84 | `includes`, defined by its body; proved against substring occurrence in ContainsIff |
| Text.ToLower | pages/api/analyze.js:74 | `toLowerCase` keeps the length and lower-cases each ASCII letter in place |
| Text.Join | pages/api/analyze.js:116-117 | `join`, defined by its body; properties in JoinSnoc and SplitJoin |
| Text.ContainsIff | pages/api/analyze.js:79-84 | `includes` holds exactly when the needle occurs somewhere |
| Text.SplitJoin | pages/api/analyze.js:118 | splitting at a separator undoes joining with it when no part holds the separator |
| Text.JoinSnoc | pages/api/analyze.js:115-118 | joining one more part adds the separator and that part at the end |
| Text.ParseShowInt | pages/api/analyze.js:107-110 | the decimal text of an integer reads back as that integer |

## Left out

- The Octokit and Anthropic SDK calls and the prompt text are not modelled; the listing and the model's replies are inputs (`pages`, `replies`). The octokit and Anthropic client construction is not modelled either.
- Scanning the model's reply with a regular expression and `JSON.parse` is not modelled as text processing. Its outcome is an input: threw, no `{...}` span, or a parsed complexity string.
- A parsed reply whose `complexity` is not a string (a number, null, absent) is not modelled; in the code it reaches `calculateCost` as a key.
- The 500 ms `setTimeout` pause between calls, all `console` logging and the `maxDuration` export have no effect on the data and are left out.
- The JSON encoding of the response is left out; a NaN total would be sent as `null`.
- `req.body` being absent (a TypeError before the `try`) and a non-string `repoUrl` are not modelled; the URL is an optional string, and the empty string counts as missing, as `!repoUrl` does.
- `toLowerCase` is modelled on ASCII letters only, and lengths count characters, not UTF-16 code units.
- `String(n)` is modelled for integers as plain decimal digits; the exponent notation JavaScript uses from 1e21 on is not modelled.
- Csv.CsvRoundTrip: holds only when no field holds a line feed and the complexity and URL hold no comma and do not start with `"`, because the code writes them bare and does not escape line feeds.
- Report.WeightedTotal, Handler.AnalyzedSummary: state the tier arithmetic only when no reply named an inherited property, because such a result costs NaN and is counted in no tier.
- pages/index.js (the user interface) and tailwind.config.js (styling) are not part of this model.
