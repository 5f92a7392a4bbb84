/**
 * The insight stage (`get_esg_insights`): from the valued table, the rows with
 * the highest and the lowest ESG Score, the number of rows scoring at least 70,
 * and the row with the highest environmental score, in that order.
 */
module Insights {
  import opened Wrappers
  import opened Rating
  import opened Merge
  import opened Portfolio

  /** One observation, as the facts it reports (the dashboard formats each as a line of text). */
  datatype Insight =
    | HighestScore(name: string, score: real)
    | LowestScore(name: string, score: real)
    | HighScoreCount(count: nat, total: nat)
    | EnvironmentalLeader(name: string, environmental: real)

  /** Insights of an empty table do not exist: the maximum lookup fails. */
  datatype InsightError = EmptyTable

  /** The score from which a row counts as a high scorer. */
  const HIGH_SCORE: real := 70.0

  /** i is the first position holding the greatest element of xs. */
  ghost predicate IsFirstMax(xs: seq<real>, i: int)
  {
    && 0 <= i < |xs|
    && (forall j :: 0 <= j < |xs| ==> xs[j] <= xs[i])
    && (forall j :: 0 <= j < i ==> xs[j] < xs[i])
  }

  /** i is the first position holding the least element of xs. */
  ghost predicate IsFirstMin(xs: seq<real>, i: int)
  {
    && 0 <= i < |xs|
    && (forall j :: 0 <= j < |xs| ==> xs[i] <= xs[j])
    && (forall j :: 0 <= j < i ==> xs[i] < xs[j])
  }

  /** `idxmax` on a column: the position of its first maximum. */
  function IdxMax(xs: seq<real>): (i: nat)
    requires xs != []
    ensures IsFirstMax(xs, i)
  {
    if |xs| == 1 then 0
    else
      var k := IdxMax(xs[..|xs| - 1]);
      if xs[|xs| - 1] > xs[k] then |xs| - 1 else k
  }

  /** `idxmin` on a column: the position of its first minimum. */
  function IdxMin(xs: seq<real>): (i: nat)
    requires xs != []
    ensures IsFirstMin(xs, i)
  {
    if |xs| == 1 then 0
    else
      var k := IdxMin(xs[..|xs| - 1]);
      if xs[|xs| - 1] < xs[k] then |xs| - 1 else k
  }

  /** The first maximum is unique: there is one position it can be. */
  lemma FirstMaxUnique(xs: seq<real>, i: int, j: int)
    requires IsFirstMax(xs, i) && IsFirstMax(xs, j)
    ensures i == j
  {
    assert xs[i] == xs[j];
  }

  /** One score column of the table (ESG Score, esg_e, esg_s or esg_g). */
  function Column(vs: seq<Valued>, m: Metric): (col: seq<real>)
    ensures |col| == |vs|
    ensures forall i :: 0 <= i < |vs| ==> col[i] == MetricOf(vs[i].asset, m)
  {
    seq(|vs|, i requires 0 <= i < |vs| => MetricOf(vs[i].asset, m))
  }

  /** The number of entries of xs that are at least t. */
  function CountAtLeast(xs: seq<real>, t: real): (n: nat)
    ensures n <= |xs|
  {
    if xs == [] then 0 else (if xs[0] >= t then 1 else 0) + CountAtLeast(xs[1..], t)
  }

  /** The number of rows whose ESG Rating ranks at least as high as r. */
  function CountRatedAtLeast(vs: seq<Valued>, r: Rating): nat
  {
    if vs == [] then 0
    else (if Rank(vs[0].asset.rating) >= Rank(r) then 1 else 0) + CountRatedAtLeast(vs[1..], r)
  }

  /**
   * `get_esg_insights`: an error on an empty table; otherwise exactly four
   * insights in this order: the first row with the highest ESG Score, the first
   * row with the lowest, how many of all rows score at least 70, and the first
   * row with the highest environmental score.
   */
  function GetEsgInsights(vs: seq<Valued>): (r: Result<seq<Insight>, InsightError>)
    ensures r.Err? <==> vs == []
    ensures r.Ok? ==> |r.value| == 4
    ensures r.Ok? ==> (exists i :: IsFirstMax(Column(vs, Score), i)
                         && r.value[0] == HighestScore(vs[i].asset.name, vs[i].asset.score))
    ensures r.Ok? ==> (exists i :: IsFirstMin(Column(vs, Score), i)
                         && r.value[1] == LowestScore(vs[i].asset.name, vs[i].asset.score))
    ensures r.Ok? ==> (&& r.value[2].HighScoreCount? && r.value[2].total == |vs|
                       && r.value[2].count == CountAtLeast(Column(vs, Score), HIGH_SCORE) <= |vs|)
    ensures r.Ok? ==> (exists i :: IsFirstMax(Column(vs, Environmental), i)
                         && r.value[3] == EnvironmentalLeader(vs[i].asset.name, vs[i].asset.e))
  {
    if vs == [] then Err(EmptyTable)
    else
      var scores := Column(vs, Score);
      var best := vs[IdxMax(scores)].asset;
      var worst := vs[IdxMin(scores)].asset;
      var leader := vs[IdxMax(Column(vs, Environmental))].asset;
      Ok([
        HighestScore(best.name, best.score),
        LowestScore(worst.name, worst.score),
        HighScoreCount(CountAtLeast(scores, HIGH_SCORE), |vs|),
        EnvironmentalLeader(leader.name, leader.e)])
  }

  /**
   * On merged rows the high-score count is the number of rows rated
   * "A (Very Good)" or "A+ (Excellent)".
   */
  lemma {:induction false} HighScoreCountIsRatedA(vs: seq<Valued>)
    requires forall i :: 0 <= i < |vs| ==> Derived(vs[i].asset)
    ensures CountAtLeast(Column(vs, Score), HIGH_SCORE) == CountRatedAtLeast(vs, A)
  {
    if vs != [] {
      var tail := vs[1..];
      forall i | 0 <= i < |tail| ensures Derived(tail[i].asset) {
        assert tail[i] == vs[i + 1];
      }
      HighScoreCountIsRatedA(tail);
      assert Column(vs, Score)[1..] == Column(tail, Score);
      HighScoreIffRatedA(vs[0].asset.score);
    }
  }
}
