/**
 * The complexity classification of one issue: `fallbackComplexityAnalysis`
 * (pages/api/analyze.js:73-93) and the outcome of `analyzeIssueWithClaude`
 * (pages/api/analyze.js:25-70), whose model call is an input here.
 */
module Classifier {
  import opened Wrappers
  import opened Text
  import opened Cost
  import opened Records

  /** The `{ complexity, reasoning }` object an analysis returns. */
  datatype Analysis = Analysis(complexity: string, reasoning: string)

  /** `(issue.body || '').length`: a missing body counts as empty. */
  function BodyLength(issue: Issue): nat
  {
    match issue.body
    case None => 0
    case Some(b) => |b|
  }

  /** `issue.labels.map(l => l.name.toLowerCase())`. */
  function LowerCased(labels: seq<string>): (r: seq<string>)
    ensures |r| == |labels|
    ensures forall k :: 0 <= k < |labels| ==> r[k] == ToLower(labels[k])
  {
    seq(|labels|, k requires 0 <= k < |labels| => ToLower(labels[k]))
  }

  /** `labels.some(l => l.includes(w1) || l.includes(w2))`. */
  function SomeContains(labels: seq<string>, w1: string, w2: string): bool
    decreases |labels|
  {
    if labels == [] then false
    else Contains(labels[0], w1) || Contains(labels[0], w2) || SomeContains(labels[1..], w1, w2)
  }

  /** Some label, lower-cased, has `word` as a substring. */
  ghost predicate LabelMentions(labels: seq<string>, word: string)
  {
    exists k, i :: 0 <= k < |labels| && OccursAt(ToLower(labels[k]), word, i)
  }

  lemma {:induction false} SomeContainsIff(labels: seq<string>, w1: string, w2: string)
    ensures SomeContains(LowerCased(labels), w1, w2)
        <==> LabelMentions(labels, w1) || LabelMentions(labels, w2)
    decreases |labels|
  {
    if labels != [] {
      var lowered := LowerCased(labels);
      assert lowered[1..] == LowerCased(labels[1..]);
      SomeContainsIff(labels[1..], w1, w2);
      ContainsIff(lowered[0], w1);
      ContainsIff(lowered[0], w2);
      forall w | LabelMentions(labels, w)
        ensures (exists i :: OccursAt(ToLower(labels[0]), w, i)) || LabelMentions(labels[1..], w)
      {
        var k, i :| 0 <= k < |labels| && OccursAt(ToLower(labels[k]), w, i);
        if k > 0 {
          assert labels[1..][k - 1] == labels[k];
        }
      }
      forall w | LabelMentions(labels[1..], w) ensures LabelMentions(labels, w) {
        var k, i :| 0 <= k < |labels[1..]| && OccursAt(ToLower(labels[1..][k]), w, i);
        assert OccursAt(ToLower(labels[k + 1]), w, i);
      }
      forall w, i | OccursAt(ToLower(labels[0]), w, i) ensures LabelMentions(labels, w) {
      }
    }
  }

  /** `fallbackComplexityAnalysis(issue)`. */
  function FallbackComplexityAnalysis(issue: Issue): (a: Analysis)
    ensures a.complexity in TierNames
  {
    var labels := LowerCased(issue.labels);
    var hasDetailedDescription := BodyLength(issue) > 500;
    if SomeContains(labels, "bug", "fix") then
      Analysis("low", "Bug fix with standard complexity")
    else if SomeContains(labels, "feature", "enhancement") then
      if hasDetailedDescription then Analysis("high", "Feature request with detailed requirements")
      else Analysis("medium", "Feature request with moderate scope")
    else
      Analysis("medium", "Standard complexity based on heuristics")
  }

  /** A bug or fix label. */
  ghost predicate BugLabelled(issue: Issue)
  {
    LabelMentions(issue.labels, "bug") || LabelMentions(issue.labels, "fix")
  }

  /** A feature or enhancement label. */
  ghost predicate FeatureLabelled(issue: Issue)
  {
    LabelMentions(issue.labels, "feature") || LabelMentions(issue.labels, "enhancement")
  }

  /**
   * The heuristic's decision table: a bug or fix label wins over everything; a feature or
   * enhancement label gives high when the body is longer than 500 characters; all else
   * is medium.
   */
  lemma FallbackPriority(issue: Issue)
    ensures var c := FallbackComplexityAnalysis(issue).complexity;
      (c == "low" <==> BugLabelled(issue)) &&
      (c == "high" <==> !BugLabelled(issue) && FeatureLabelled(issue) && BodyLength(issue) > 500) &&
      (c == "medium" <==> !BugLabelled(issue) && !(FeatureLabelled(issue) && BodyLength(issue) > 500))
  {
    SomeContainsIff(issue.labels, "bug", "fix");
    SomeContainsIff(issue.labels, "feature", "enhancement");
  }

  /** A first label that mentions `w1` once lower-cased satisfies the label test. */
  lemma FirstLabelMentions(labels: seq<string>, w1: string, w2: string)
    requires |labels| > 0 && Contains(ToLower(labels[0]), w1)
    ensures SomeContains(LowerCased(labels), w1, w2)
  {
    assert LowerCased(labels)[0] == ToLower(labels[0]);
  }

  /** A `bug` label makes the issue low. */
  lemma FallbackExampleBug(issue: Issue)
    requires issue.labels == ["bug"]
    ensures FallbackComplexityAnalysis(issue).complexity == "low"
  {
    ToLowerUnchanged("bug");
    ContainsPrefix("bug", "bug");
    FirstLabelMentions(issue.labels, "bug", "fix");
  }

  /** A `Bug` label wins over an `enhancement` label: the test ignores case and comes first. */
  lemma FallbackExampleBugBeatsFeature(issue: Issue)
    requires issue.labels == ["Bug", "enhancement"]
    ensures FallbackComplexityAnalysis(issue).complexity == "low"
  {
    assert ToLower("Bug") == "bug" by {
      assert LowerChar('B') == 'b';
    }
    ContainsPrefix("bug", "bug");
    FirstLabelMentions(issue.labels, "bug", "fix");
  }

  /** With a single label, the label test is a test on that label alone. */
  lemma SingleLabel(issue: Issue, x: string, w1: string, w2: string)
    requires issue.labels == [x]
    requires forall k :: 0 <= k < |x| ==> !('A' <= x[k] <= 'Z')
    ensures SomeContains(LowerCased(issue.labels), w1, w2) == (Contains(x, w1) || Contains(x, w2))
  {
    ToLowerUnchanged(x);
    assert LowerCased(issue.labels) == [x];
    assert [x][1..] == [];
  }

  /** A single label lacking a character of each word mentions neither word. */
  lemma SingleLabelMisses(issue: Issue, x: string, w1: string, w2: string, c1: char, c2: char)
    requires issue.labels == [x]
    requires forall k :: 0 <= k < |x| ==> !('A' <= x[k] <= 'Z')
    requires c1 in w1 && c1 !in x && c2 in w2 && c2 !in x
    ensures !SomeContains(LowerCased(issue.labels), w1, w2)
  {
    SingleLabel(issue, x, w1, w2);
    AbsentChar(x, w1, c1);
    AbsentChar(x, w2, c2);
  }

  /** A single label that is one of the words mentions it. */
  lemma SingleLabelHits(issue: Issue, x: string, w1: string)
    requires issue.labels == [x]
    requires forall k :: 0 <= k < |x| ==> !('A' <= x[k] <= 'Z')
    ensures SomeContains(LowerCased(issue.labels), w1, x)
  {
    SingleLabel(issue, x, w1, x);
    ContainsPrefix(x, x);
  }

  /** A lone `enhancement` label is a feature label and no bug label. */
  lemma EnhancementLabelOnly(issue: Issue)
    requires issue.labels == ["enhancement"]
    ensures !SomeContains(LowerCased(issue.labels), "bug", "fix")
    ensures SomeContains(LowerCased(issue.labels), "feature", "enhancement")
  {
    SingleLabelMisses(issue, "enhancement", "bug", "fix", 'b', 'f');
    SingleLabelHits(issue, "enhancement", "feature");
  }

  lemma FallbackExampleEnhancement(issue: Issue)
    requires issue.labels == ["enhancement"]
    ensures BodyLength(issue) > 500 ==> FallbackComplexityAnalysis(issue).complexity == "high"
    ensures BodyLength(issue) <= 500 ==> FallbackComplexityAnalysis(issue).complexity == "medium"
  {
    EnhancementLabelOnly(issue);
  }

  /** A lone `question` label is neither a bug nor a feature label. */
  lemma QuestionLabelOnly(issue: Issue)
    requires issue.labels == ["question"]
    ensures !SomeContains(LowerCased(issue.labels), "bug", "fix")
    ensures !SomeContains(LowerCased(issue.labels), "feature", "enhancement")
  {
    SingleLabelMisses(issue, "question", "bug", "fix", 'b', 'f');
    SingleLabelMisses(issue, "question", "feature", "enhancement", 'f', 'h');
  }

  lemma FallbackExampleUnlabelled(issue: Issue)
    requires issue.labels == ["question"]
    ensures FallbackComplexityAnalysis(issue).complexity == "medium"
  {
    QuestionLabelOnly(issue);
  }

  /**
   * What the language model returned for one issue: the call (or `JSON.parse`) threw, the
   * reply held no `{...}` span, or it parsed to an object with these two fields.
   */
  datatype LlmReply = Threw | NoJsonObject | Parsed(complexity: string, reasoning: string)

  /** `analyzeIssueWithClaude(issue, anthropic)`, given what the model returned. */
  function AnalyzeIssueWithClaude(issue: Issue, reply: LlmReply): (a: Analysis)
    ensures reply.Parsed? || a.complexity in TierNames
  {
    match reply
    case Threw => FallbackComplexityAnalysis(issue)
    case NoJsonObject => Analysis("medium", "Unable to parse AI response")
    case Parsed(complexity, reasoning) => Analysis(complexity, reasoning)
  }
}
