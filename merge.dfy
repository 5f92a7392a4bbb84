/**
 * The merge stage (`compute_weighted_esg`, `merge_price_and_esg`): the price
 * table is inner-joined with the ESG reference table on the `market` symbol,
 * and every joined row gets its composite ESG Score and its ESG Rating.
 */
module Merge {
  import opened Wrappers
  import opened Rating

  /** A trading-pair symbol such as "BTCUSDT" (the `market` column). */
  type Symbol = string

  /**
   * One row of the price table after `last_price` has been coerced to a number;
   * None stands for the missing value a price that does not parse becomes.
   */
  datatype PriceRow = PriceRow(market: Symbol, lastPrice: Option<real>)

  /** One row of the ESG reference table: a name and the three pillar scores. */
  datatype EsgRow = EsgRow(market: Symbol, name: string, e: real, s: real, g: real)

  /** A merged row: the price and ESG columns plus the ESG Score and ESG Rating columns. */
  datatype Asset = Asset(
    market: Symbol, lastPrice: Option<real>, name: string,
    e: real, s: real, g: real, score: real, rating: Rating)

  function Min3(x: real, y: real, z: real): real
  {
    if x <= y && x <= z then x else if y <= z then y else z
  }

  function Max3(x: real, y: real, z: real): real
  {
    if x >= y && x >= z then x else if y >= z then y else z
  }

  /** The ESG Score of a row: the unweighted mean of its environmental, social and governance scores. */
  function EsgScore(e: real, s: real, g: real): (score: real)
    ensures Min3(e, s, g) <= score <= Max3(e, s, g)
    ensures 0.0 <= e <= 100.0 && 0.0 <= s <= 100.0 && 0.0 <= g <= 100.0 ==> 0.0 <= score <= 100.0
    ensures e == s == g ==> score == e
  {
    (e + s + g) / 3.0
  }

  /** The two derived columns agree with the pillar scores: the score is their mean, the rating its category. */
  ghost predicate Derived(a: Asset)
  {
    a.score == EsgScore(a.e, a.s, a.g) && a.rating == Categorize(a.score)
  }

  /** The merged row built from one price row and one ESG row with the same symbol. */
  function Combine(p: PriceRow, q: EsgRow): (a: Asset)
    requires p.market == q.market
    ensures Derived(a)
  {
    var score := EsgScore(q.e, q.s, q.g);
    Asset(p.market, p.lastPrice, q.name, q.e, q.s, q.g, score, Categorize(score))
  }

  /** One price row joined with every ESG row of its symbol, in ESG-table order. */
  function JoinRow(p: PriceRow, esg: seq<EsgRow>): (rows: seq<Asset>)
    ensures forall a :: a in rows ==> a.market == p.market && Derived(a)
  {
    if esg == [] then []
    else (if esg[0].market == p.market then [Combine(p, esg[0])] else []) + JoinRow(p, esg[1..])
  }

  /**
   * `merge_price_and_esg`: the inner join of the price table with the ESG table
   * on `market`, in price-table order, with the ESG Score and ESG Rating columns.
   * Rows whose price did not parse are kept, with their missing price.
   */
  function MergePriceAndEsg(prices: seq<PriceRow>, esg: seq<EsgRow>): (merged: seq<Asset>)
    ensures prices == [] || esg == [] ==> merged == []
    ensures forall a :: a in merged ==> Derived(a)
  {
    if prices == [] then [] else JoinRow(prices[0], esg) + MergePriceAndEsg(prices[1..], esg)
  }

  function PriceMarkets(prices: seq<PriceRow>): set<Symbol>
  {
    set i | 0 <= i < |prices| :: prices[i].market
  }

  function EsgMarkets(esg: seq<EsgRow>): set<Symbol>
  {
    set j | 0 <= j < |esg| :: esg[j].market
  }

  function AssetMarkets(assets: seq<Asset>): set<Symbol>
  {
    set i | 0 <= i < |assets| :: assets[i].market
  }

  /** No symbol occurs twice in the price table. */
  ghost predicate UniquePrices(prices: seq<PriceRow>)
  {
    forall i, j :: 0 <= i < j < |prices| ==> prices[i].market != prices[j].market
  }

  /** No symbol occurs twice in the ESG table. */
  ghost predicate UniqueEsg(esg: seq<EsgRow>)
  {
    forall i, j :: 0 <= i < j < |esg| ==> esg[i].market != esg[j].market
  }

  /** No symbol occurs twice among the merged rows. */
  ghost predicate UniqueAssets(assets: seq<Asset>)
  {
    forall i, j :: 0 <= i < j < |assets| ==> assets[i].market != assets[j].market
  }

  lemma {:induction false} JoinRowMembership(p: PriceRow, esg: seq<EsgRow>, a: Asset)
    ensures a in JoinRow(p, esg) <==> exists j :: 0 <= j < |esg| && esg[j].market == p.market && a == Combine(p, esg[j])
  {
    if esg != [] {
      JoinRowMembership(p, esg[1..], a);
      if a in JoinRow(p, esg[1..]) {
        var j :| 0 <= j < |esg[1..]| && esg[1..][j].market == p.market && a == Combine(p, esg[1..][j]);
        assert esg[j + 1] == esg[1..][j];
      }
      if exists j :: 0 <= j < |esg| && esg[j].market == p.market && a == Combine(p, esg[j]) {
        var j :| 0 <= j < |esg| && esg[j].market == p.market && a == Combine(p, esg[j]);
        if j > 0 {
          assert esg[1..][j - 1] == esg[j];
        }
      }
    }
  }

  /** Row a combines a price row and an ESG row of prices and esg that share their symbol. */
  ghost predicate JoinedFrom(prices: seq<PriceRow>, esg: seq<EsgRow>, a: Asset)
  {
    exists i, j :: 0 <= i < |prices| && 0 <= j < |esg| && prices[i].market == esg[j].market
                   && a == Combine(prices[i], esg[j])
  }

  lemma {:induction false} MergeSound(prices: seq<PriceRow>, esg: seq<EsgRow>, a: Asset)
    requires a in MergePriceAndEsg(prices, esg)
    ensures JoinedFrom(prices, esg, a)
  {
    var p := prices[0];
    if a in JoinRow(p, esg) {
      JoinRowMembership(p, esg, a);
      var j :| 0 <= j < |esg| && esg[j].market == p.market && a == Combine(p, esg[j]);
      assert prices[0].market == esg[j].market && a == Combine(prices[0], esg[j]);
    } else {
      MergeSound(prices[1..], esg, a);
      var i, j :| 0 <= i < |prices[1..]| && 0 <= j < |esg| && prices[1..][i].market == esg[j].market
                   && a == Combine(prices[1..][i], esg[j]);
      assert prices[i + 1] == prices[1..][i];
    }
  }

  lemma {:induction false} MergeComplete(prices: seq<PriceRow>, esg: seq<EsgRow>, i: int, j: int)
    requires 0 <= i < |prices| && 0 <= j < |esg| && prices[i].market == esg[j].market
    ensures Combine(prices[i], esg[j]) in MergePriceAndEsg(prices, esg)
  {
    if i == 0 {
      JoinRowMembership(prices[0], esg, Combine(prices[i], esg[j]));
    } else {
      assert prices[1..][i - 1] == prices[i];
      MergeComplete(prices[1..], esg, i - 1, j);
    }
  }

  /**
   * Inner-join membership: a row is in the merge exactly when it combines a
   * price row and an ESG row that share their symbol.
   */
  lemma MergeMembership(prices: seq<PriceRow>, esg: seq<EsgRow>, a: Asset)
    ensures a in MergePriceAndEsg(prices, esg) <==> JoinedFrom(prices, esg, a)
  {
    if a in MergePriceAndEsg(prices, esg) {
      MergeSound(prices, esg, a);
    }
    if JoinedFrom(prices, esg, a) {
      var i, j :| 0 <= i < |prices| && 0 <= j < |esg| && prices[i].market == esg[j].market
                   && a == Combine(prices[i], esg[j]);
      MergeComplete(prices, esg, i, j);
    }
  }

  /** A symbol appears in the merge exactly when it appears in both tables. */
  lemma MergeSymbols(prices: seq<PriceRow>, esg: seq<EsgRow>)
    ensures AssetMarkets(MergePriceAndEsg(prices, esg)) == PriceMarkets(prices) * EsgMarkets(esg)
  {
    var merged := MergePriceAndEsg(prices, esg);
    forall k | k in AssetMarkets(merged)
      ensures k in PriceMarkets(prices) * EsgMarkets(esg)
    {
      var n :| 0 <= n < |merged| && merged[n].market == k;
      MergeSound(prices, esg, merged[n]);
      var i, j :| 0 <= i < |prices| && 0 <= j < |esg| && prices[i].market == esg[j].market
                   && merged[n] == Combine(prices[i], esg[j]);
    }
    forall k | k in PriceMarkets(prices) * EsgMarkets(esg)
      ensures k in AssetMarkets(merged)
    {
      var i :| 0 <= i < |prices| && prices[i].market == k;
      var j :| 0 <= j < |esg| && esg[j].market == k;
      var a := Combine(prices[i], esg[j]);
      MergeComplete(prices, esg, i, j);
      var n :| 0 <= n < |merged| && merged[n] == a;
    }
  }

  lemma PriceMarketsCons(prices: seq<PriceRow>)
    requires prices != []
    ensures PriceMarkets(prices) == {prices[0].market} + PriceMarkets(prices[1..])
  {
    var tail := prices[1..];
    forall k | k in PriceMarkets(prices) ensures k in {prices[0].market} + PriceMarkets(tail) {
      var j :| 0 <= j < |prices| && prices[j].market == k;
      if j > 0 { assert tail[j - 1] == prices[j]; }
    }
    forall k | k in PriceMarkets(tail) ensures k in PriceMarkets(prices) {
      var j :| 0 <= j < |tail| && tail[j].market == k;
      assert prices[j + 1] == tail[j];
    }
  }

  lemma EsgMarketsCons(esg: seq<EsgRow>)
    requires esg != []
    ensures EsgMarkets(esg) == {esg[0].market} + EsgMarkets(esg[1..])
  {
    var tail := esg[1..];
    forall k | k in EsgMarkets(esg) ensures k in {esg[0].market} + EsgMarkets(tail) {
      var j :| 0 <= j < |esg| && esg[j].market == k;
      if j > 0 { assert tail[j - 1] == esg[j]; }
    }
    forall k | k in EsgMarkets(tail) ensures k in EsgMarkets(esg) {
      var j :| 0 <= j < |tail| && tail[j].market == k;
      assert esg[j + 1] == tail[j];
    }
  }

  /** The rest of a table without duplicate symbols has none either, and lacks the first symbol. */
  lemma UniquePricesTail(prices: seq<PriceRow>)
    requires prices != [] && UniquePrices(prices)
    ensures UniquePrices(prices[1..]) && prices[0].market !in PriceMarkets(prices[1..])
  {
    var tail := prices[1..];
    forall i, j | 0 <= i < j < |tail| ensures tail[i].market != tail[j].market {
      assert tail[i] == prices[i + 1] && tail[j] == prices[j + 1];
    }
    forall j | 0 <= j < |tail| ensures tail[j].market != prices[0].market {
      assert tail[j] == prices[j + 1];
    }
  }

  lemma UniqueEsgTail(esg: seq<EsgRow>)
    requires esg != [] && UniqueEsg(esg)
    ensures UniqueEsg(esg[1..]) && esg[0].market !in EsgMarkets(esg[1..])
  {
    var tail := esg[1..];
    forall i, j | 0 <= i < j < |tail| ensures tail[i].market != tail[j].market {
      assert tail[i] == esg[i + 1] && tail[j] == esg[j + 1];
    }
    forall j | 0 <= j < |tail| ensures tail[j].market != esg[0].market {
      assert tail[j] == esg[j + 1];
    }
  }

  /** With unique ESG symbols a price row joins with at most one ESG row: the one of its symbol. */
  lemma {:induction false} JoinRowCount(p: PriceRow, esg: seq<EsgRow>)
    requires UniqueEsg(esg)
    ensures |JoinRow(p, esg)| == if p.market in EsgMarkets(esg) then 1 else 0
  {
    if esg != [] {
      UniqueEsgTail(esg);
      EsgMarketsCons(esg);
      JoinRowCount(p, esg[1..]);
    }
  }

  /** No row merged from the rest of the price table carries a symbol missing from it. */
  lemma MergeAvoids(tail: seq<PriceRow>, esg: seq<EsgRow>, k: Symbol)
    requires k !in PriceMarkets(tail)
    ensures forall n :: 0 <= n < |MergePriceAndEsg(tail, esg)| ==> MergePriceAndEsg(tail, esg)[n].market != k
  {
    MergeSymbols(tail, esg);
    var rest := MergePriceAndEsg(tail, esg);
    forall n | 0 <= n < |rest| ensures rest[n].market != k {
      assert rest[n].market in AssetMarkets(rest);
    }
  }

  /** With unique symbols in the price table the merge never repeats a symbol. */
  lemma {:induction false} MergeUniqueSymbols(prices: seq<PriceRow>, esg: seq<EsgRow>)
    requires UniquePrices(prices) && UniqueEsg(esg)
    ensures UniqueAssets(MergePriceAndEsg(prices, esg))
  {
    if prices != [] {
      var p, tail := prices[0], prices[1..];
      UniquePricesTail(prices);
      MergeUniqueSymbols(tail, esg);
      JoinRowCount(p, esg);
      MergeAvoids(tail, esg, p.market);
      var head, rest := JoinRow(p, esg), MergePriceAndEsg(tail, esg);
      var merged := head + rest;
      assert MergePriceAndEsg(prices, esg) == merged;
      forall i, j | 0 <= i < j < |merged| ensures merged[i].market != merged[j].market {
        assert merged[j] == rest[j - |head|];
        if i >= |head| {
          assert merged[i] == rest[i - |head|];
        } else {
          assert merged[i] == head[i] && head[i] in head;
        }
      }
    }
  }

  /** Adding a fresh symbol to a set raises its size by one. */
  lemma SharedCount(k: Symbol, tailKeys: set<Symbol>, esgKeys: set<Symbol>)
    requires k !in tailKeys
    ensures |({k} + tailKeys) * esgKeys| == |tailKeys * esgKeys| + (if k in esgKeys then 1 else 0)
  {
    if k in esgKeys {
      assert ({k} + tailKeys) * esgKeys == {k} + tailKeys * esgKeys;
    } else {
      assert ({k} + tailKeys) * esgKeys == tailKeys * esgKeys;
    }
  }

  /** With unique symbols in both tables the merge has as many rows as the tables share symbols. */
  lemma {:induction false} MergeRowCount(prices: seq<PriceRow>, esg: seq<EsgRow>)
    requires UniquePrices(prices) && UniqueEsg(esg)
    ensures |MergePriceAndEsg(prices, esg)| == |PriceMarkets(prices) * EsgMarkets(esg)|
  {
    if prices != [] {
      var p, tail := prices[0], prices[1..];
      UniquePricesTail(prices);
      PriceMarketsCons(prices);
      MergeRowCount(tail, esg);
      JoinRowCount(p, esg);
      SharedCount(p.market, PriceMarkets(tail), EsgMarkets(esg));
      assert |MergePriceAndEsg(prices, esg)| == |JoinRow(p, esg)| + |MergePriceAndEsg(tail, esg)|;
    }
  }

  lemma AssetMarketsCons(assets: seq<Asset>)
    requires assets != []
    ensures AssetMarkets(assets) == {assets[0].market} + AssetMarkets(assets[1..])
  {
    var tail := assets[1..];
    forall k | k in AssetMarkets(assets) ensures k in {assets[0].market} + AssetMarkets(tail) {
      var j :| 0 <= j < |assets| && assets[j].market == k;
      if j > 0 { assert tail[j - 1] == assets[j]; }
    }
    forall k | k in AssetMarkets(tail) ensures k in AssetMarkets(assets) {
      var j :| 0 <= j < |tail| && tail[j].market == k;
      assert assets[j + 1] == tail[j];
    }
  }

  lemma UniqueAssetsTail(assets: seq<Asset>)
    requires assets != [] && UniqueAssets(assets)
    ensures UniqueAssets(assets[1..]) && assets[0].market !in AssetMarkets(assets[1..])
  {
    var tail := assets[1..];
    forall i, j | 0 <= i < j < |tail| ensures tail[i].market != tail[j].market {
      assert tail[i] == assets[i + 1] && tail[j] == assets[j + 1];
    }
    forall j | 0 <= j < |tail| ensures tail[j].market != assets[0].market {
      assert tail[j] == assets[j + 1];
    }
  }
}
