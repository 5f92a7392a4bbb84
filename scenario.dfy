/**
 * A worked example of the three stages on a small market: three priced symbols, two
 * of them with ESG scores, one unit held of each of those two.
 */
module Scenario {
  import opened Wrappers
  import opened Rating
  import opened Merge
  import opened Portfolio
  import opened Insights

  const PRICES: seq<PriceRow> := [
    PriceRow("BTCUSDT", Some(50000.0)),
    PriceRow("ETHUSDT", Some(3000.0)),
    PriceRow("XRPUSDT", Some(1.0))]

  const ESG: seq<EsgRow> := [
    EsgRow("BTCUSDT", "Bitcoin", 40.0, 40.0, 40.0),
    EsgRow("ETHUSDT", "Ethereum", 70.0, 70.0, 70.0)]

  const HOLDINGS: map<Symbol, real> := map["BTCUSDT" := 1.0, "ETHUSDT" := 1.0]

  /** The merged rows of the example. */
  const BTC: Asset := Asset("BTCUSDT", Some(50000.0), "Bitcoin", 40.0, 40.0, 40.0, 40.0, CPlus)
  const ETH: Asset := Asset("ETHUSDT", Some(3000.0), "Ethereum", 70.0, 70.0, 70.0, 70.0, A)

  /**
   * XRPUSDT has no ESG entry and is dropped; a score of exactly 40 is rated
   * "C+ (Below Average)" and one of exactly 70 "A (Very Good)".
   */
  lemma SampleMerge()
    ensures MergePriceAndEsg(PRICES, ESG) == [BTC, ETH]
    ensures Label(BTC.rating) == "C+ (Below Average)" && Label(ETH.rating) == "A (Very Good)"
  {
    assert Combine(PRICES[0], ESG[0]) == BTC;
    assert Combine(PRICES[1], ESG[1]) == ETH;
    assert JoinRow(PRICES[0], ESG) == [BTC];
    assert JoinRow(PRICES[1], ESG) == [ETH];
    assert JoinRow(PRICES[2], ESG) == [];
    assert MergePriceAndEsg(PRICES[2..], ESG) == [];
    assert MergePriceAndEsg(PRICES[1..], ESG) == [ETH];
  }

  /** The Holding and Value (USD) columns of the two merged rows. */
  lemma SampleValued()
    ensures ApplyHoldings([BTC, ETH], HOLDINGS) == [Valued(BTC, 1.0, Some(50000.0)), Valued(ETH, 1.0, Some(3000.0))]
  {
  }

  lemma TwoRowSums(v0: Valued, v1: Valued, m: Metric)
    ensures TotalValue([v0, v1]) == Contribution(v0) + Contribution(v1)
    ensures WeightedSum([v0, v1], m) == MetricOf(v0.asset, m) * Contribution(v0) + MetricOf(v1.asset, m) * Contribution(v1)
    ensures v0.holding > 0.0 && v1.holding > 0.0 ==> PositiveHoldings([v0, v1]) == [v0, v1]
  {
    assert [v0, v1][1..] == [v1] && [v1][1..] == [];
    assert TotalValue([v1]) == Contribution(v1) + TotalValue([]);
    assert WeightedSum([v1], m) == MetricOf(v1.asset, m) * Contribution(v1) + WeightedSum([], m);
  }

  /**
   * The portfolio of the merged rows is worth 53000 with a weighted ESG score
   * of (40 × 50000 + 70 × 3000) / 53000, and both rows are holdings.
   */
  lemma SampleMetrics()
    ensures var r := CalculatePortfolioMetrics([BTC, ETH], Some(HOLDINGS));
      && r.1.totalValue == 53000.0
      && r.1.weightedEsg == (40.0 * 50000.0 + 70.0 * 3000.0) / 53000.0
      && r.1.numHoldings == 2
  {
    SampleValued();
    var v0 := Valued(BTC, 1.0, Some(50000.0));
    var v1 := Valued(ETH, 1.0, Some(3000.0));
    TwoRowSums(v0, v1, Score);
  }

  /** Ethereum leads on the score and on the environmental pillar; one of the two rows scores at least 70. */
  lemma SampleInsights()
    ensures GetEsgInsights(ApplyHoldings([BTC, ETH], HOLDINGS)) == Ok([
      HighestScore("Ethereum", 70.0),
      LowestScore("Bitcoin", 40.0),
      HighScoreCount(1, 2),
      EnvironmentalLeader("Ethereum", 70.0)])
  {
    SampleValued();
    var valued := [Valued(BTC, 1.0, Some(50000.0)), Valued(ETH, 1.0, Some(3000.0))];
    var scores := Column(valued, Score);
    assert scores == [40.0, 70.0];
    assert scores[..1] == [40.0];
    assert IdxMax(scores) == 1 && IdxMin(scores) == 0;
    assert scores[1..] == [70.0] && scores[1..][1..] == [];
    assert CountAtLeast(scores, HIGH_SCORE) == 1;
    assert Column(valued, Environmental) == [40.0, 70.0];
  }
}
