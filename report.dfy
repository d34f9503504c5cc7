/**
 * The summary statistics of a run (pages/api/analyze.js:237-250): the `reduce` that totals
 * the estimated costs and the three `filter` counts per complexity.
 */
module Report {
  import opened Cost
  import opened Records

  /** `{ totalIssues, totalEstimatedCost, complexityBreakdown: { low, medium, high } }`. */
  datatype Summary = Summary(totalIssues: nat, totalEstimatedCost: Amount, low: nat, medium: nat, high: nat)

  /** `sum + cost` on JavaScript numbers: NaN on either side gives NaN. */
  function Add(a: Amount, b: Amount): Amount
  {
    match (a, b)
    case (Dollars(x), Dollars(y)) => Dollars(x + y)
    case _ => NaN
  }

  /** `results.reduce((sum, item) => sum + item.estimated_cost, 0)`: a left fold from 0. */
  function TotalCost(results: seq<AnalyzedIssue>): Amount
    decreases |results|
  {
    if results == [] then Dollars(0)
    else Add(TotalCost(results[..|results| - 1]), results[|results| - 1].estimatedCost)
  }

  /** `results.filter(r => r.complexity === name).length`. */
  function CountOf(results: seq<AnalyzedIssue>, name: string): nat
    decreases |results|
  {
    if results == [] then 0
    else (if results[0].complexity == name then 1 else 0) + CountOf(results[1..], name)
  }

  /** The `summary` object of a successful response. */
  function Summarize(results: seq<AnalyzedIssue>): Summary
  {
    Summary(|results|, TotalCost(results),
      CountOf(results, "low"), CountOf(results, "medium"), CountOf(results, "high"))
  }

  /** The plain sum of the dollar costs, added from the front. */
  ghost function SumOfDollars(results: seq<AnalyzedIssue>): int
    decreases |results|
  {
    if results == [] then 0
    else
      var cost := results[0].estimatedCost;
      (if cost.Dollars? then cost.value else 0) + SumOfDollars(results[1..])
  }

  lemma {:induction false} SumOfDollarsAppend(a: seq<AnalyzedIssue>, b: seq<AnalyzedIssue>)
    ensures SumOfDollars(a + b) == SumOfDollars(a) + SumOfDollars(b)
    decreases |a|
  {
    if a != [] {
      assert (a + b)[0] == a[0] && (a + b)[1..] == a[1..] + b;
      SumOfDollarsAppend(a[1..], b);
    } else {
      assert a + b == b;
    }
  }

  /**
   * The total is NaN exactly when some cost is NaN; otherwise it is the exact sum of the
   * costs.
   */
  lemma {:induction false} TotalCostIsSum(results: seq<AnalyzedIssue>)
    ensures TotalCost(results).NaN? <==> exists k :: 0 <= k < |results| && results[k].estimatedCost.NaN?
    ensures TotalCost(results).Dollars? ==> TotalCost(results).value == SumOfDollars(results)
    decreases |results|
  {
    if results != [] {
      var init, last := results[..|results| - 1], results[|results| - 1];
      assert results == init + [last];
      TotalCostIsSum(init);
      SumOfDollarsAppend(init, [last]);
      if exists k :: 0 <= k < |results| && results[k].estimatedCost.NaN? {
        var k :| 0 <= k < |results| && results[k].estimatedCost.NaN?;
        if k < |init| {
          assert init[k] == results[k];
        }
      }
      forall k | 0 <= k < |init| && init[k].estimatedCost.NaN?
        ensures results[k].estimatedCost.NaN?
      {
        assert init[k] == results[k];
      }
    }
  }

  /** Counting over a concatenation adds the counts. */
  lemma {:induction false} CountOfAppend(a: seq<AnalyzedIssue>, b: seq<AnalyzedIssue>, name: string)
    ensures CountOf(a + b, name) == CountOf(a, name) + CountOf(b, name)
    decreases |a|
  {
    if a != [] {
      assert (a + b)[0] == a[0] && (a + b)[1..] == a[1..] + b;
      CountOfAppend(a[1..], b, name);
    } else {
      assert a + b == b;
    }
  }

  /**
   * The three counts add up to the number of results exactly when every result's
   * complexity is one of the three tiers.
   */
  lemma {:induction false} CountsPartition(results: seq<AnalyzedIssue>)
    ensures var s := Summarize(results);
      (s.low + s.medium + s.high == s.totalIssues) <==>
      (forall k :: 0 <= k < |results| ==> results[k].complexity in TierNames)
    ensures var s := Summarize(results);
      s.low + s.medium + s.high <= s.totalIssues
    decreases |results|
  {
    if results != [] {
      CountsPartition(results[1..]);
      assert forall k :: 1 <= k < |results| ==> results[k] == results[1..][k - 1];
      forall k | 0 <= k < |results| - 1 ensures results[1..][k] == results[k + 1] {
      }
    }
  }

  /** Every result priced as `calculateCost` prices its complexity, which is a tier. */
  ghost predicate PricedByTier(results: seq<AnalyzedIssue>)
  {
    forall k :: 0 <= k < |results| ==>
      results[k].complexity in TierNames &&
      CalculateCost(results[k].complexity) == Priced(results[k].estimatedCost)
  }

  /** A result priced by its tier costs 200, 450 or 800 by that tier. */
  lemma TierPrice(item: AnalyzedIssue)
    requires item.complexity in TierNames
    requires CalculateCost(item.complexity) == Priced(item.estimatedCost)
    ensures item.estimatedCost == Dollars(
      if item.complexity == "low" then 200 else if item.complexity == "medium" then 450 else 800)
  {
    var c := item.complexity;
    if c == "low" {
      assert CalculateCost(TierName(Low)) == Priced(Dollars(200));
    } else if c == "medium" {
      assert CalculateCost(TierName(Medium)) == Priced(Dollars(450));
    } else {
      assert CalculateCost(TierName(High)) == Priced(Dollars(800));
    }
  }

  /**
   * When every result is priced by its tier, the total is 200 per low, 450 per medium
   * and 800 per high result.
   */
  lemma {:induction false} WeightedTotal(results: seq<AnalyzedIssue>)
    requires PricedByTier(results)
    ensures var s := Summarize(results);
      s.totalEstimatedCost == Dollars(200 * s.low + 450 * s.medium + 800 * s.high)
    decreases |results|
  {
    if results != [] {
      var init, last := results[..|results| - 1], results[|results| - 1];
      assert results == init + [last];
      assert PricedByTier(init) by {
        forall k | 0 <= k < |init| ensures init[k] == results[k] { }
      }
      WeightedTotal(init);
      CountOfAppend(init, [last], "low");
      CountOfAppend(init, [last], "medium");
      CountOfAppend(init, [last], "high");
      TierPrice(last);
    }
  }
}
