/**
 * The valuation stage (`calculate_portfolio_metrics`): each merged row gets its
 * Holding from a holdings map and its Value (USD) = Holding × last_price; the
 * portfolio total, the four value-weighted ESG averages and the number of
 * positive holdings are computed from those columns.
 */
module Portfolio {
  import opened Wrappers
  import opened Merge

  /** A merged row with the Holding and Value (USD) columns; the value is missing when the price is. */
  datatype Valued = Valued(asset: Asset, holding: real, value: Option<real>)

  /** The metrics dictionary returned next to the valued table. */
  datatype PortfolioMetrics = PortfolioMetrics(
    totalValue: real,
    weightedEsg: real,
    weightedEnvironmental: real,
    weightedSocial: real,
    weightedGovernance: real,
    numHoldings: nat)

  /** The four per-row scores that are averaged by value. */
  datatype Metric = Score | Environmental | Social | Governance

  function MetricOf(a: Asset, m: Metric): real
  {
    match m
    case Score => a.score
    case Environmental => a.e
    case Social => a.s
    case Governance => a.g
  }

  /** The sample portfolio used when the caller passes no holdings map at all. */
  const DEFAULT_HOLDINGS: map<Symbol, real> := map[
    "BTCUSDT" := 0.5,
    "ETHUSDT" := 1.2,
    "ADAUSDT" := 100.0,
    "MATICUSDT" := 500.0,
    "SOLUSDT" := 10.0]

  /** The holdings map in effect: the caller's map if one is given (even an empty one), else the default. */
  function HoldingsInEffect(holdings: Option<map<Symbol, real>>): map<Symbol, real>
  {
    match holdings
    case None => DEFAULT_HOLDINGS
    case Some(m) => m
  }

  /** The Holding of a symbol: its quantity in the map, or 0 when the map does not list it. */
  function HoldingOf(m: map<Symbol, real>, k: Symbol): real
  {
    if k in m then m[k] else 0.0
  }

  /** Holding × last_price; a missing price gives a missing value whatever the holding. */
  function ValueOf(holding: real, price: Option<real>): Option<real>
  {
    match price
    case None => None
    case Some(p) => Some(holding * p)
  }

  /**
   * The Holding and Value (USD) columns added to every row. No row is dropped,
   * reordered or changed: rows without a holding stay, with holding 0.
   */
  function ApplyHoldings(assets: seq<Asset>, m: map<Symbol, real>): (valued: seq<Valued>)
    ensures |valued| == |assets|
    ensures forall i :: 0 <= i < |assets| ==>
      && valued[i].asset == assets[i]
      && valued[i].holding == HoldingOf(m, assets[i].market)
      && valued[i].value == ValueOf(valued[i].holding, assets[i].lastPrice)
  {
    seq(|assets|, i requires 0 <= i < |assets| =>
      var h := HoldingOf(m, assets[i].market);
      Valued(assets[i], h, ValueOf(h, assets[i].lastPrice)))
  }

  /** What a row adds to a column sum: a missing value is skipped, i.e. adds nothing. */
  function Contribution(v: Valued): real
  {
    match v.value
    case None => 0.0
    case Some(x) => x
  }

  /** total_value: the sum of the Value (USD) column, missing values skipped. */
  function TotalValue(vs: seq<Valued>): real
  {
    if vs == [] then 0.0 else Contribution(vs[0]) + TotalValue(vs[1..])
  }

  /** The sum of metric × Value (USD) over the rows, missing values skipped. */
  function WeightedSum(vs: seq<Valued>, m: Metric): real
  {
    if vs == [] then 0.0 else MetricOf(vs[0].asset, m) * Contribution(vs[0]) + WeightedSum(vs[1..], m)
  }

  /**
   * A value-weighted average: the weighted sum over the total when the total is
   * positive, and exactly 0 otherwise (the guard against dividing by a zero total).
   */
  function WeightedAverage(vs: seq<Valued>, m: Metric): (w: real)
    ensures TotalValue(vs) > 0.0 ==> w * TotalValue(vs) == WeightedSum(vs, m)
    ensures !(TotalValue(vs) > 0.0) ==> w == 0.0
  {
    var total := TotalValue(vs);
    if total > 0.0 then WeightedSum(vs, m) / total else 0.0
  }

  /** The rows with a positive Holding, in table order (the filter behind num_holdings). */
  function PositiveHoldings(vs: seq<Valued>): (held: seq<Valued>)
    ensures |held| <= |vs|
    ensures forall v :: v in held <==> v in vs && v.holding > 0.0
  {
    if vs == [] then []
    else (if vs[0].holding > 0.0 then [vs[0]] else []) + PositiveHoldings(vs[1..])
  }

  /**
   * The filter keeps each positive row exactly as often as the table has it and
   * drops every other row, so its length is the number of positive rows.
   */
  lemma {:induction false} PositiveHoldingsMultiset(vs: seq<Valued>)
    ensures forall v :: multiset(PositiveHoldings(vs))[v] == if v.holding > 0.0 then multiset(vs)[v] else 0
  {
    if vs != [] {
      PositiveHoldingsMultiset(vs[1..]);
      assert vs == [vs[0]] + vs[1..];
    }
  }

  /**
   * `calculate_portfolio_metrics`: the valued table and its metrics. The valued
   * table has the input's rows in the input's order; the metrics are the total
   * value, the four weighted averages (all 0 when the total is not positive)
   * and the number of rows with a positive holding.
   */
  function CalculatePortfolioMetrics(assets: seq<Asset>, holdings: Option<map<Symbol, real>>)
    : (r: (seq<Valued>, PortfolioMetrics))
    ensures r.0 == ApplyHoldings(assets, HoldingsInEffect(holdings))
    ensures r.1.totalValue == TotalValue(r.0)
    ensures r.1.weightedEsg == WeightedAverage(r.0, Score)
    ensures r.1.weightedEnvironmental == WeightedAverage(r.0, Environmental)
    ensures r.1.weightedSocial == WeightedAverage(r.0, Social)
    ensures r.1.weightedGovernance == WeightedAverage(r.0, Governance)
    ensures !(r.1.totalValue > 0.0) ==>
      r.1.weightedEsg == r.1.weightedEnvironmental == r.1.weightedSocial == r.1.weightedGovernance == 0.0
    ensures r.1.numHoldings == |PositiveHoldings(r.0)| <= |assets|
  {
    var valued := ApplyHoldings(assets, HoldingsInEffect(holdings));
    var metrics := PortfolioMetrics(
      TotalValue(valued),
      WeightedAverage(valued, Score),
      WeightedAverage(valued, Environmental),
      WeightedAverage(valued, Social),
      WeightedAverage(valued, Governance),
      |PositiveHoldings(valued)|);
    (valued, metrics)
  }

  /** A row whose value adds a positive amount to the total. */
  predicate Positive(v: Valued)
  {
    Contribution(v) > 0.0
  }

  /** The symbols a holdings map gives a positive quantity. */
  function PositiveKeys(m: map<Symbol, real>): set<Symbol>
  {
    set k | k in m && m[k] > 0.0
  }

  /** Every value in the table is 0 or missing: then the total is exactly 0. */
  lemma {:induction false} NoValueZeroTotal(vs: seq<Valued>)
    requires forall i :: 0 <= i < |vs| ==> Contribution(vs[i]) == 0.0
    ensures TotalValue(vs) == 0.0
  {
    if vs != [] {
      NoValueZeroTotal(vs[1..]);
    }
  }

  /**
   * When no row has a value (every holding is 0 or every price missing), the
   * total is 0 and all four weighted metrics are 0 rather than a division by zero.
   */
  lemma NoValueNoWeightedMetrics(assets: seq<Asset>, holdings: Option<map<Symbol, real>>)
    requires forall i :: 0 <= i < |assets| ==>
      HoldingOf(HoldingsInEffect(holdings), assets[i].market) == 0.0 || assets[i].lastPrice.None?
    ensures var r := CalculatePortfolioMetrics(assets, holdings);
      && r.1.totalValue == 0.0
      && r.1.weightedEsg == r.1.weightedEnvironmental == r.1.weightedSocial == r.1.weightedGovernance == 0.0
  {
    var valued := ApplyHoldings(assets, HoldingsInEffect(holdings));
    NoValueZeroTotal(valued);
  }

  /** With no negative value, a positive total has a row of positive value. */
  lemma PositiveTotalHasPositiveRow(vs: seq<Valued>)
    requires forall i :: 0 <= i < |vs| ==> Contribution(vs[i]) >= 0.0
    requires TotalValue(vs) > 0.0
    ensures exists i :: 0 <= i < |vs| && Positive(vs[i])
  {
    if forall i :: 0 <= i < |vs| ==> !Positive(vs[i]) {
      NoValueZeroTotal(vs);
    }
  }

  /** A quotient ws / total of a positive total lies in [lo, hi] when ws lies in [lo × total, hi × total]. */
  lemma QuotientBetween(lo: real, hi: real, total: real, ws: real)
    requires total > 0.0
    requires lo * total <= ws <= hi * total
    ensures lo <= ws / total <= hi
  {
  }

  lemma MulNonneg(a: real, b: real)
    requires a >= 0.0 && b >= 0.0
    ensures a * b >= 0.0
  {
  }

  /** Scaling by a non-negative factor keeps order; a zero factor needs no order. */
  lemma ScaleLe(a: real, b: real, c: real)
    requires c >= 0.0 && (c > 0.0 ==> a <= b)
    ensures a * c <= b * c
  {
    if c > 0.0 {
      MulNonneg(b - a, c);
      assert (b - a) * c == b * c - a * c;
    }
  }

  lemma Distrib(k: real, a: real, b: real)
    ensures k * (a + b) == k * a + k * b
  {
  }

  /** One induction step of WeightedSumAtLeast, on plain numbers. */
  lemma StepAtLeast(lo: real, x: real, c: real, t: real, ws: real, total: real, sum: real)
    requires c >= 0.0 && (c > 0.0 ==> lo <= x)
    requires lo * t <= ws
    requires total == c + t && sum == x * c + ws
    ensures lo * total <= sum
  {
    ScaleLe(lo, x, c);
    Distrib(lo, c, t);
  }

  /** One induction step of WeightedSumAtMost, on plain numbers. */
  lemma StepAtMost(hi: real, x: real, c: real, t: real, ws: real, total: real, sum: real)
    requires c >= 0.0 && (c > 0.0 ==> x <= hi)
    requires ws <= hi * t
    requires total == c + t && sum == x * c + ws
    ensures sum <= hi * total
  {
    ScaleLe(x, hi, c);
    Distrib(hi, c, t);
  }

  /**
   * With no negative value, the weighted sum of a metric is at least lo × total
   * when every positively valued row has a metric of at least lo.
   */
  lemma {:induction false} WeightedSumAtLeast(vs: seq<Valued>, m: Metric, lo: real)
    requires forall i :: 0 <= i < |vs| ==> Contribution(vs[i]) >= 0.0
    requires forall i :: 0 <= i < |vs| && Positive(vs[i]) ==> lo <= MetricOf(vs[i].asset, m)
    ensures lo * TotalValue(vs) <= WeightedSum(vs, m)
  {
    if vs != [] {
      var tail := vs[1..];
      forall i | 0 <= i < |tail|
        ensures Contribution(tail[i]) >= 0.0
        ensures Positive(tail[i]) ==> lo <= MetricOf(tail[i].asset, m)
      {
        assert tail[i] == vs[i + 1];
      }
      WeightedSumAtLeast(tail, m, lo);
      StepAtLeast(lo, MetricOf(vs[0].asset, m), Contribution(vs[0]), TotalValue(tail), WeightedSum(tail, m),
        TotalValue(vs), WeightedSum(vs, m));
    }
  }

  /**
   * With no negative value, the weighted sum of a metric is at most hi × total
   * when every positively valued row has a metric of at most hi.
   */
  lemma {:induction false} WeightedSumAtMost(vs: seq<Valued>, m: Metric, hi: real)
    requires forall i :: 0 <= i < |vs| ==> Contribution(vs[i]) >= 0.0
    requires forall i :: 0 <= i < |vs| && Positive(vs[i]) ==> MetricOf(vs[i].asset, m) <= hi
    ensures WeightedSum(vs, m) <= hi * TotalValue(vs)
  {
    if vs != [] {
      var tail := vs[1..];
      forall i | 0 <= i < |tail|
        ensures Contribution(tail[i]) >= 0.0
        ensures Positive(tail[i]) ==> MetricOf(tail[i].asset, m) <= hi
      {
        assert tail[i] == vs[i + 1];
      }
      WeightedSumAtMost(tail, m, hi);
      StepAtMost(hi, MetricOf(vs[0].asset, m), Contribution(vs[0]), TotalValue(tail), WeightedSum(tail, m),
        TotalValue(vs), WeightedSum(vs, m));
    }
  }

  /**
   * Weighted-average bound: with no negative value and a positive total, a
   * weighted metric lies in any interval that holds the metric of every
   * positively valued row.
   */
  lemma WeightedAverageBounds(vs: seq<Valued>, m: Metric, lo: real, hi: real)
    requires forall i :: 0 <= i < |vs| ==> Contribution(vs[i]) >= 0.0
    requires forall i :: 0 <= i < |vs| && Positive(vs[i]) ==> lo <= MetricOf(vs[i].asset, m) <= hi
    requires TotalValue(vs) > 0.0
    ensures lo <= WeightedAverage(vs, m) <= hi
  {
    var total, sum := TotalValue(vs), WeightedSum(vs, m);
    WeightedSumAtLeast(vs, m, lo);
    WeightedSumAtMost(vs, m, hi);
    QuotientBetween(lo, hi, total, sum);
    assert WeightedAverage(vs, m) == sum / total;
  }

  /** Row i has the least metric among the positively valued rows. */
  ghost predicate LeastPositive(vs: seq<Valued>, m: Metric, i: int)
  {
    && 0 <= i < |vs| && Positive(vs[i])
    && forall k :: 0 <= k < |vs| && Positive(vs[k]) ==> MetricOf(vs[i].asset, m) <= MetricOf(vs[k].asset, m)
  }

  /** Row j has the greatest metric among the positively valued rows. */
  ghost predicate GreatestPositive(vs: seq<Valued>, m: Metric, j: int)
  {
    && 0 <= j < |vs| && Positive(vs[j])
    && forall k :: 0 <= k < |vs| && Positive(vs[k]) ==> MetricOf(vs[k].asset, m) <= MetricOf(vs[j].asset, m)
  }

  lemma {:induction false} LeastPositiveExists(vs: seq<Valued>, m: Metric)
    requires exists k :: 0 <= k < |vs| && Positive(vs[k])
    ensures exists i :: LeastPositive(vs, m, i)
  {
    var tail := vs[1..];
    if exists k :: 0 <= k < |tail| && Positive(tail[k]) {
      LeastPositiveExists(tail, m);
      var i :| LeastPositive(tail, m, i);
      var best := if Positive(vs[0]) && MetricOf(vs[0].asset, m) <= MetricOf(tail[i].asset, m) then 0 else i + 1;
      forall k | 0 <= k < |vs| && Positive(vs[k])
        ensures MetricOf(vs[best].asset, m) <= MetricOf(vs[k].asset, m)
      {
        if k > 0 { assert vs[k] == tail[k - 1]; }
      }
      assert LeastPositive(vs, m, best);
    } else {
      forall k | 0 < k < |vs| ensures !Positive(vs[k]) {
        assert vs[k] == tail[k - 1];
      }
      assert LeastPositive(vs, m, 0);
    }
  }

  lemma {:induction false} GreatestPositiveExists(vs: seq<Valued>, m: Metric)
    requires exists k :: 0 <= k < |vs| && Positive(vs[k])
    ensures exists j :: GreatestPositive(vs, m, j)
  {
    var tail := vs[1..];
    if exists k :: 0 <= k < |tail| && Positive(tail[k]) {
      GreatestPositiveExists(tail, m);
      var j :| GreatestPositive(tail, m, j);
      var best := if Positive(vs[0]) && MetricOf(vs[0].asset, m) >= MetricOf(tail[j].asset, m) then 0 else j + 1;
      forall k | 0 <= k < |vs| && Positive(vs[k])
        ensures MetricOf(vs[k].asset, m) <= MetricOf(vs[best].asset, m)
      {
        if k > 0 { assert vs[k] == tail[k - 1]; }
      }
      assert GreatestPositive(vs, m, best);
    } else {
      forall k | 0 < k < |vs| ensures !Positive(vs[k]) {
        assert vs[k] == tail[k - 1];
      }
      assert GreatestPositive(vs, m, 0);
    }
  }

  /**
   * Weighted-average bound: with no negative value and
   * a positive total, each weighted metric lies between the least and the
   * greatest metric of the positively valued rows.
   */
  lemma WeightedAverageWithinPositiveRows(vs: seq<Valued>, m: Metric)
    requires forall i :: 0 <= i < |vs| ==> Contribution(vs[i]) >= 0.0
    requires TotalValue(vs) > 0.0
    ensures exists i, j ::
      && LeastPositive(vs, m, i) && GreatestPositive(vs, m, j)
      && MetricOf(vs[i].asset, m) <= WeightedAverage(vs, m) <= MetricOf(vs[j].asset, m)
  {
    PositiveTotalHasPositiveRow(vs);
    LeastPositiveExists(vs, m);
    GreatestPositiveExists(vs, m);
    var i :| LeastPositive(vs, m, i);
    var j :| GreatestPositive(vs, m, j);
    WeightedAverageBounds(vs, m, MetricOf(vs[i].asset, m), MetricOf(vs[j].asset, m));
  }

  /** Zero-holding rows add nothing: a row valued from a holding of 0 contributes 0 to every sum. */
  lemma {:induction false} ZeroHoldingsAddNothing(vs: seq<Valued>, m: Metric)
    requires forall i :: 0 <= i < |vs| ==>
      vs[i].holding >= 0.0 && vs[i].value == ValueOf(vs[i].holding, vs[i].asset.lastPrice)
    ensures TotalValue(PositiveHoldings(vs)) == TotalValue(vs)
    ensures WeightedSum(PositiveHoldings(vs), m) == WeightedSum(vs, m)
  {
    if vs != [] {
      var v, tail := vs[0], vs[1..];
      forall i | 0 <= i < |tail|
        ensures tail[i].holding >= 0.0 && tail[i].value == ValueOf(tail[i].holding, tail[i].asset.lastPrice)
      {
        assert tail[i] == vs[i + 1];
      }
      ZeroHoldingsAddNothing(tail, m);
      var held := PositiveHoldings(tail);
      if v.holding > 0.0 {
        assert PositiveHoldings(vs) == [v] + held;
        assert ([v] + held)[1..] == held;
      } else {
        assert v.holding == 0.0;
        assert Contribution(v) == 0.0;
        assert PositiveHoldings(vs) == held;
      }
    }
  }

  /**
   * The metrics are an aggregate over the positive holdings only: when no
   * quantity in the holdings map is negative, the total and the four weighted
   * averages are the same computed over the rows with a positive Holding.
   */
  lemma MetricsOverPositiveHoldings(assets: seq<Asset>, holdings: Option<map<Symbol, real>>)
    requires forall k :: k in HoldingsInEffect(holdings) ==> HoldingsInEffect(holdings)[k] >= 0.0
    ensures var r := CalculatePortfolioMetrics(assets, holdings);
      var held := PositiveHoldings(r.0);
      && r.1.totalValue == TotalValue(held)
      && r.1.weightedEsg == WeightedAverage(held, Score)
      && r.1.weightedEnvironmental == WeightedAverage(held, Environmental)
      && r.1.weightedSocial == WeightedAverage(held, Social)
      && r.1.weightedGovernance == WeightedAverage(held, Governance)
  {
    var valued := ApplyHoldings(assets, HoldingsInEffect(holdings));
    ZeroHoldingsAddNothing(valued, Score);
    ZeroHoldingsAddNothing(valued, Environmental);
    ZeroHoldingsAddNothing(valued, Social);
    ZeroHoldingsAddNothing(valued, Governance);
  }

  /** The default sample portfolio has no negative quantity. */
  lemma DefaultHoldingsPositive()
    ensures forall k :: k in DEFAULT_HOLDINGS ==> DEFAULT_HOLDINGS[k] > 0.0
    ensures PositiveKeys(DEFAULT_HOLDINGS) == DEFAULT_HOLDINGS.Keys
  {
  }

  /** One induction step of ScoreSumIsMeanOfPillarSums, on plain numbers. */
  lemma MeanStep(e: real, s: real, g: real, c: real, ws: real, we: real, wso: real, wg: real)
    requires ws == (we + wso + wg) / 3.0
    ensures EsgScore(e, s, g) * c + ws == ((e * c + we) + (s * c + wso) + (g * c + wg)) / 3.0
  {
    assert EsgScore(e, s, g) * c == (e * c + s * c + g * c) / 3.0;
  }

  /** Weighted sums are linear: the score's weighted sum is the mean of the pillars' weighted sums. */
  lemma {:induction false} ScoreSumIsMeanOfPillarSums(vs: seq<Valued>)
    requires forall i :: 0 <= i < |vs| ==> Derived(vs[i].asset)
    ensures WeightedSum(vs, Score) ==
      (WeightedSum(vs, Environmental) + WeightedSum(vs, Social) + WeightedSum(vs, Governance)) / 3.0
  {
    if vs != [] {
      var tail := vs[1..];
      forall i | 0 <= i < |tail| ensures Derived(tail[i].asset) {
        assert tail[i] == vs[i + 1];
      }
      ScoreSumIsMeanOfPillarSums(tail);
      var a, c := vs[0].asset, Contribution(vs[0]);
      MeanStep(a.e, a.s, a.g, c, WeightedSum(tail, Score),
        WeightedSum(tail, Environmental), WeightedSum(tail, Social), WeightedSum(tail, Governance));
    }
  }

  lemma MeanOfQuotients(x: real, y: real, z: real, t: real)
    requires t > 0.0
    ensures ((x + y + z) / 3.0) / t == (x / t + y / t + z / t) / 3.0
  {
  }

  /**
   * For merged rows, the weighted ESG score is the mean of the weighted
   * environmental, social and governance scores (also when all are 0).
   */
  lemma WeightedEsgIsMeanOfPillars(vs: seq<Valued>)
    requires forall i :: 0 <= i < |vs| ==> Derived(vs[i].asset)
    ensures WeightedAverage(vs, Score) ==
      (WeightedAverage(vs, Environmental) + WeightedAverage(vs, Social) + WeightedAverage(vs, Governance)) / 3.0
  {
    ScoreSumIsMeanOfPillarSums(vs);
    var t := TotalValue(vs);
    if t > 0.0 {
      MeanOfQuotients(WeightedSum(vs, Environmental), WeightedSum(vs, Social), WeightedSum(vs, Governance), t);
    }
  }

  lemma ApplyHoldingsCons(assets: seq<Asset>, m: map<Symbol, real>)
    requires assets != []
    ensures ApplyHoldings(assets, m)[0].holding == HoldingOf(m, assets[0].market)
    ensures ApplyHoldings(assets, m)[1..] == ApplyHoldings(assets[1..], m)
  {
    var whole, tail := ApplyHoldings(assets, m), ApplyHoldings(assets[1..], m);
    forall i | 0 <= i < |tail| ensures whole[1..][i] == tail[i] {
      assert assets[1..][i] == assets[i + 1];
    }
  }

  /**
   * With unique symbols, num_holdings counts the symbols of the table that the
   * holdings map gives a positive quantity.
   */
  lemma {:induction false} PositiveHoldingsSymbols(assets: seq<Asset>, m: map<Symbol, real>)
    requires UniqueAssets(assets)
    ensures |PositiveHoldings(ApplyHoldings(assets, m))| == |AssetMarkets(assets) * PositiveKeys(m)|
  {
    if assets != [] {
      var a, tail := assets[0], assets[1..];
      UniqueAssetsTail(assets);
      AssetMarketsCons(assets);
      ApplyHoldingsCons(assets, m);
      PositiveHoldingsSymbols(tail, m);
      var valued := ApplyHoldings(assets, m);
      assert |PositiveHoldings(valued)| == (if valued[0].holding > 0.0 then 1 else 0) + |PositiveHoldings(valued[1..])|;
      assert valued[0].holding > 0.0 <==> a.market in PositiveKeys(m);
      SharedCount(a.market, AssetMarkets(tail), PositiveKeys(m));
    }
  }

  /**
   * With no holdings map, num_holdings is the number of the table's symbols
   * that the default sample portfolio lists.
   */
  lemma DefaultNumHoldings(assets: seq<Asset>)
    requires UniqueAssets(assets)
    ensures CalculatePortfolioMetrics(assets, None).1.numHoldings == |AssetMarkets(assets) * DEFAULT_HOLDINGS.Keys|
  {
    DefaultHoldingsPositive();
    PositiveHoldingsSymbols(assets, DEFAULT_HOLDINGS);
  }
}
