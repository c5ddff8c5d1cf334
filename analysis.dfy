/**
 * `analyze_market_data`: six ranked views of one snapshot's frame, each at most five
 * rows long. Five views rank the whole frame by one column; the strong-trends view
 * ranks, by market cap, only the coins whose 1h, 24h and 7d changes share a strict sign.
 *
 * The columns the source adds to the frame in place (`volatility`,
 * `trend_consistency`, `market_dominance`) are modelled as functions of each row.
 */
module Analysis {
  import opened Market
  import opened Ranking

  /** Every view keeps at most this many rows (`nlargest(5, …)`, `nsmallest(5, …)`). */
  const VIEW_SIZE: nat := 5

  datatype View = TopGainers | TopLosers | HighLiquidity | HighVolatility | StrongTrends | MarketDominance

  const ALL_VIEWS: set<View> :=
    {TopGainers, TopLosers, HighLiquidity, HighVolatility, StrongTrends, MarketDominance}

  /** One record of a view: the symbol and the column(s) the view keeps. */
  datatype Entry =
    | Metric(symbol: string, value: real)
    | Trend(symbol: string, change24h: real, change7d: real)

  /** Distance between the hourly change and the hourly share of the daily change. */
  function Volatility(r: Record): real
  {
    Abs(r.quote.change1h - r.quote.change24h / 24.0)
  }

  /** All three changes strictly positive, or all three strictly negative; a zero breaks the trend. */
  predicate TrendConsistent(r: Record)
  {
    (r.quote.change1h > 0.0 && r.quote.change24h > 0.0 && r.quote.change7d > 0.0) ||
    (r.quote.change1h < 0.0 && r.quote.change24h < 0.0 && r.quote.change7d < 0.0)
  }

  /** A market cap as a percentage of the total, 0 when the total is not positive. */
  function Dominance(cap: real, total: real): (d: real)
    ensures total > 0.0 ==> d * total == cap * 100.0
    ensures total <= 0.0 ==> d == 0.0
  {
    if total > 0.0 then cap / total * 100.0 else 0.0
  }

  function DominanceOver(rows: Frame, total: real): seq<real>
  {
    seq(|rows|, i requires 0 <= i < |rows| => Dominance(rows[i].quote.marketCap, total))
  }

  /** The `market_dominance` column: each coin's share of the frame's total market cap. */
  function DominanceColumn(rows: Frame): seq<real>
  {
    DominanceOver(rows, Sum(Column(rows, MarketCap)))
  }

  predicate Selection(n: nat, sel: seq<nat>)
  {
    forall a :: 0 <= a < |sel| ==> sel[a] < n
  }

  /** The selected rows projected to `[['symbol', key]]`. */
  function MetricEntries(rows: Frame, keys: seq<real>, sel: seq<nat>): seq<Entry>
    requires |keys| == |rows| && Selection(|rows|, sel)
  {
    seq(|sel|, a requires 0 <= a < |sel| => Metric(rows[sel[a]].quote.symbol, keys[sel[a]]))
  }

  function TrendEntry(r: Record): Entry
  {
    Trend(r.quote.symbol, r.quote.change24h, r.quote.change7d)
  }

  /** The selected rows projected to `[['symbol', 'percent_change_24h', 'percent_change_7d']]`. */
  function TrendEntries(rows: Frame, sel: seq<nat>): seq<Entry>
    requires Selection(|rows|, sel)
  {
    seq(|sel|, a requires 0 <= a < |sel| => TrendEntry(rows[sel[a]]))
  }

  /** The coins that pass the `trend_consistency == 1` mask, in frame order. */
  function Trending(rows: Frame): Frame
  {
    Where(rows, TrendConsistent)
  }

  /** `nlargest(5, key)` projected to `[['symbol', key]]`. */
  function TopByColumn(rows: Frame, keys: seq<real>): seq<Entry>
    requires |keys| == |rows|
  {
    MetricEntries(rows, keys, Largest(keys, VIEW_SIZE))
  }

  /** `nsmallest(5, key)` projected to `[['symbol', key]]`. */
  function BottomByColumn(rows: Frame, keys: seq<real>): seq<Entry>
    requires |keys| == |rows|
  {
    MetricEntries(rows, keys, Smallest(keys, VIEW_SIZE))
  }

  /** The trend-consistent coins, `nlargest(5, 'market_cap')` among them, with their changes. */
  function StrongTrendsOf(rows: Frame): seq<Entry>
  {
    var trending := Trending(rows);
    TrendEntries(trending, Largest(Column(trending, MarketCap), VIEW_SIZE))
  }

  /** One view of a frame: the rows `analyze_market_data` keeps for it, projected to its columns. */
  function ViewOf(rows: Frame, view: View): seq<Entry>
  {
    match view
    case TopGainers => TopByColumn(rows, Column(rows, Change24h))
    case TopLosers => BottomByColumn(rows, Column(rows, Change24h))
    case HighLiquidity => TopByColumn(rows, Column(rows, VolumeToMarketCap))
    case HighVolatility => TopByColumn(rows, Column(rows, Volatility))
    case StrongTrends => StrongTrendsOf(rows)
    case MarketDominance => TopByColumn(rows, DominanceColumn(rows))
  }

  /**
   * `analyze_market_data`: the empty mapping when there is no frame or it has no rows,
   * otherwise all six views.
   */
  function Analyze(df: Option<Frame>): (result: map<View, seq<Entry>>)
    ensures result == map[] <==> (df.None? || df.value == [])
    ensures result != map[] ==> result.Keys == ALL_VIEWS
  {
    match df
    case None => map[]
    case Some(rows) =>
      if rows == [] then map[]
      else
        var views := map view | view in ALL_VIEWS :: ViewOf(rows, view);
        assert TopGainers in views;
        views
  }

  lemma AnalyzeView(rows: Frame, view: View)
    requires rows != []
    ensures view in Analyze(Some(rows)) && Analyze(Some(rows))[view] == ViewOf(rows, view)
  {
  }

  /**
   * v is `nlargest(5, key)` projected to (symbol, key): min(5, n) entries, keys never
   * increasing, and the entries are the rows of the one selection that meets IsTopK.
   */
  ghost predicate TopView(rows: Frame, keys: seq<real>, v: seq<Entry>)
    requires |keys| == |rows|
  {
    |v| == Min(VIEW_SIZE, |rows|) &&
    (forall a :: 0 <= a < |v| ==> v[a].Metric?) &&
    (forall a, b :: 0 <= a < b < |v| ==> v[a].value >= v[b].value) &&
    exists sel :: IsTopK(keys, VIEW_SIZE, sel) && Selection(|rows|, sel) &&
      v == MetricEntries(rows, keys, sel)
  }

  /** v is `nsmallest(5, key)` projected to (symbol, key): keys never decreasing. */
  ghost predicate BottomView(rows: Frame, keys: seq<real>, v: seq<Entry>)
    requires |keys| == |rows|
  {
    |v| == Min(VIEW_SIZE, |rows|) &&
    (forall a :: 0 <= a < |v| ==> v[a].Metric?) &&
    (forall a, b :: 0 <= a < b < |v| ==> v[a].value <= v[b].value) &&
    exists sel :: IsBottomK(keys, VIEW_SIZE, sel) && Selection(|rows|, sel) &&
      v == MetricEntries(rows, keys, sel)
  }

  lemma TopSelectionView(rows: Frame, keys: seq<real>, sel: seq<nat>)
    requires |keys| == |rows| && IsTopK(keys, VIEW_SIZE, sel)
    ensures Selection(|rows|, sel)
    ensures TopView(rows, keys, MetricEntries(rows, keys, sel))
  {
    var v := MetricEntries(rows, keys, sel);
    forall a, b | 0 <= a < b < |v|
      ensures v[a].value >= v[b].value
    {
      assert Ahead(keys, sel[a], sel[b]);
    }
  }

  lemma BottomSelectionView(rows: Frame, keys: seq<real>, sel: seq<nat>)
    requires |keys| == |rows| && IsBottomK(keys, VIEW_SIZE, sel)
    ensures Selection(|rows|, sel)
    ensures BottomView(rows, keys, MetricEntries(rows, keys, sel))
  {
    var v := MetricEntries(rows, keys, sel);
    forall a, b | 0 <= a < b < |v|
      ensures v[a].value <= v[b].value
    {
      assert AheadAscending(keys, sel[a], sel[b]);
    }
  }

  /** `top_gainers`: the five largest 24h changes. */
  lemma TopGainersView(rows: Frame)
    requires rows != []
    ensures TopView(rows, Column(rows, Change24h), Analyze(Some(rows))[TopGainers])
  {
    AnalyzeView(rows, TopGainers);
    var keys := Column(rows, Change24h);
    TopSelectionView(rows, keys, Largest(keys, VIEW_SIZE));
  }

  /** `top_losers`: the five smallest 24h changes, smallest first. */
  lemma TopLosersView(rows: Frame)
    requires rows != []
    ensures BottomView(rows, Column(rows, Change24h), Analyze(Some(rows))[TopLosers])
  {
    AnalyzeView(rows, TopLosers);
    var keys := Column(rows, Change24h);
    BottomSelectionView(rows, keys, Smallest(keys, VIEW_SIZE));
  }

  /** `high_liquidity`: the five largest volume-to-market-cap ratios. */
  lemma HighLiquidityView(rows: Frame)
    requires rows != []
    ensures TopView(rows, Column(rows, VolumeToMarketCap), Analyze(Some(rows))[HighLiquidity])
  {
    AnalyzeView(rows, HighLiquidity);
    var keys := Column(rows, VolumeToMarketCap);
    TopSelectionView(rows, keys, Largest(keys, VIEW_SIZE));
  }

  /** `high_volatility`: the five largest values of |change_1h - change_24h / 24|. */
  lemma HighVolatilityView(rows: Frame)
    requires rows != []
    ensures TopView(rows, Column(rows, Volatility), Analyze(Some(rows))[HighVolatility])
    ensures forall e :: e in Analyze(Some(rows))[HighVolatility] ==> e.Metric? && e.value >= 0.0
  {
    AnalyzeView(rows, HighVolatility);
    var keys := Column(rows, Volatility);
    TopSelectionView(rows, keys, Largest(keys, VIEW_SIZE));
  }

  /** `market_dominance`: the five largest shares of the total market cap. */
  lemma MarketDominanceView(rows: Frame)
    requires rows != []
    ensures TopView(rows, DominanceColumn(rows), Analyze(Some(rows))[MarketDominance])
  {
    AnalyzeView(rows, MarketDominance);
    var keys := DominanceColumn(rows);
    TopSelectionView(rows, keys, Largest(keys, VIEW_SIZE));
  }

  /**
   * `strong_trends`: only trend-consistent coins, at most five of them, and exactly the
   * top five by market cap among the trend-consistent coins.
   */
  lemma StrongTrendsView(rows: Frame)
    requires rows != []
    ensures var v := Analyze(Some(rows))[StrongTrends];
      var trending := Trending(rows);
      |v| == Min(VIEW_SIZE, |trending|) &&
      (forall a :: 0 <= a < |v| ==> OfTrendingCoin(rows, v[a])) &&
      exists sel :: IsTopK(Column(trending, MarketCap), VIEW_SIZE, sel) && Selection(|trending|, sel) &&
        v == TrendEntries(trending, sel)
  {
    var trending := Trending(rows);
    var keys := Column(trending, MarketCap);
    var sel := Largest(keys, VIEW_SIZE);
    assert IsTopK(keys, VIEW_SIZE, sel);
    assert Selection(|trending|, sel);
    AnalyzeView(rows, StrongTrends);
    assert Analyze(Some(rows))[StrongTrends] == StrongTrendsOf(rows) == TrendEntries(trending, sel);
    TrendEntriesFromRows(rows, sel);
  }

  /** e is the strong-trends entry of some trend-consistent coin of the frame. */
  predicate OfTrendingCoin(rows: Frame, e: Entry)
  {
    exists i :: 0 <= i < |rows| && TrendConsistent(rows[i]) && e == TrendEntry(rows[i])
  }

  /** Every entry picked from the trending coins is the entry of a trend-consistent coin of the frame. */
  lemma TrendEntriesFromRows(rows: Frame, sel: seq<nat>)
    requires Selection(|Trending(rows)|, sel)
    ensures forall a :: 0 <= a < |sel| ==> OfTrendingCoin(rows, TrendEntries(Trending(rows), sel)[a])
  {
    var trending := Trending(rows);
    var v := TrendEntries(trending, sel);
    WhereMembers(rows, TrendConsistent);
    forall a | 0 <= a < |sel|
      ensures OfTrendingCoin(rows, v[a])
    {
      var r := trending[sel[a]];
      assert r in trending;
      assert r in rows && TrendConsistent(r);
      var i :| 0 <= i < |rows| && rows[i] == r;
      assert v[a] == TrendEntry(rows[i]);
    }
  }

  /**
   * When every coin is trend-consistent and there are at most five, the strong-trends
   * view lists every coin, ranked by market cap.
   */
  lemma AllTrendingListed(rows: Frame)
    requires 0 < |rows| <= VIEW_SIZE
    requires forall i :: 0 <= i < |rows| ==> TrendConsistent(rows[i])
    ensures var v := Analyze(Some(rows))[StrongTrends];
      |v| == |rows| &&
      (forall i :: 0 <= i < |rows| ==> TrendEntry(rows[i]) in v) &&
      exists sel :: IsTopK(Column(rows, MarketCap), VIEW_SIZE, sel) && Selection(|rows|, sel) &&
        v == TrendEntries(rows, sel)
  {
    WhereAll(rows, TrendConsistent);
    AnalyzeView(rows, StrongTrends);
    var keys := Column(rows, MarketCap);
    var sel := Largest(keys, VIEW_SIZE);
    assert Trending(rows) == rows;
    assert Selection(|rows|, sel);
    assert ViewOf(rows, StrongTrends) == StrongTrendsOf(rows) == TrendEntries(rows, sel);
    assert |sel| == |rows|;
    LargestTakesAll(keys, VIEW_SIZE);
    EveryRowEntered(rows, sel);
  }

  /** A selection that takes every row gives every row's entry. */
  lemma EveryRowEntered(rows: Frame, sel: seq<nat>)
    requires Selection(|rows|, sel)
    requires forall i :: 0 <= i < |rows| ==> i in sel
    ensures forall i :: 0 <= i < |rows| ==> TrendEntry(rows[i]) in TrendEntries(rows, sel)
  {
    var v := TrendEntries(rows, sel);
    forall i | 0 <= i < |rows|
      ensures TrendEntry(rows[i]) in v
    {
      assert i in sel;
      var a :| 0 <= a < |sel| && sel[a] == i;
      assert v[a] == TrendEntry(rows[i]);
    }
  }

  lemma {:induction false} DominanceOverSum(rows: Frame, total: real)
    requires total > 0.0
    ensures Sum(DominanceOver(rows, total)) * total == Sum(Column(rows, MarketCap)) * 100.0
  {
    if rows != [] {
      var n := |rows|;
      var init := rows[..n - 1];
      DominanceOverSum(init, total);
      var d := Dominance(rows[n - 1].quote.marketCap, total);
      assert DominanceOver(rows, total) == DominanceOver(init, total) + [d];
      assert rows[..n] == rows;
      ColumnSnoc(rows, MarketCap, n - 1);
      SumSnoc(DominanceOver(init, total), d);
      SumSnoc(Column(init, MarketCap), rows[n - 1].quote.marketCap);
      assert (Sum(DominanceOver(init, total)) + d) * total
          == Sum(DominanceOver(init, total)) * total + d * total;
    }
  }

  /** With a positive total, the dominances of all coins add up to exactly 100. */
  lemma DominanceSumsToHundred(rows: Frame)
    requires Sum(Column(rows, MarketCap)) > 0.0
    ensures Sum(DominanceColumn(rows)) == 100.0
  {
    var total := Sum(Column(rows, MarketCap));
    DominanceOverSum(rows, total);
    CancelPositive(Sum(DominanceOver(rows, total)), 100.0, total);
  }

  lemma CancelPositive(x: real, y: real, t: real)
    requires t > 0.0 && x * t == y * t
    ensures x == y
  {
    assert (x - y) * t == 0.0;
  }

  lemma DominanceKeepsOrder(a: real, b: real, total: real)
    requires total > 0.0
    ensures Dominance(a, total) > Dominance(b, total) <==> a > b
    ensures Dominance(a, total) == Dominance(b, total) <==> a == b
  {
    assert Dominance(a, total) * total == a * 100.0;
    assert Dominance(b, total) * total == b * 100.0;
    if a > b {
      assert a * 100.0 > b * 100.0;
    }
  }

  /**
   * With a positive total, the dominance view picks the same coins, in the same order,
   * as a top five by market cap would.
   */
  lemma DominanceRanksByMarketCap(rows: Frame)
    requires rows != [] && Sum(Column(rows, MarketCap)) > 0.0
    ensures var caps := Column(rows, MarketCap);
      var sel := Largest(caps, VIEW_SIZE);
      Selection(|rows|, sel) &&
      Analyze(Some(rows))[MarketDominance] == MetricEntries(rows, DominanceColumn(rows), sel)
  {
    AnalyzeView(rows, MarketDominance);
    var caps := Column(rows, MarketCap);
    var dominance := DominanceColumn(rows);
    DominanceRanksAlike(rows);
    LargestDependsOnlyOnRanking(dominance, caps, VIEW_SIZE);
    assert ViewOf(rows, MarketDominance) == TopByColumn(rows, dominance);
  }

  /** With a positive total, the dominance column ranks the rows exactly as market cap does. */
  lemma DominanceRanksAlike(rows: Frame)
    requires Sum(Column(rows, MarketCap)) > 0.0
    ensures |DominanceColumn(rows)| == |Column(rows, MarketCap)|
    ensures forall i, j :: Ahead(DominanceColumn(rows), i, j) <==> Ahead(Column(rows, MarketCap), i, j)
  {
    var caps := Column(rows, MarketCap);
    var dominance := DominanceColumn(rows);
    var total := Sum(caps);
    forall i, j
      ensures Ahead(dominance, i, j) <==> Ahead(caps, i, j)
    {
      if 0 <= i < |rows| && 0 <= j < |rows| {
        DominanceAt(rows, i);
        DominanceAt(rows, j);
        DominanceKeepsOrder(caps[i], caps[j], total);
      }
    }
  }

  lemma DominanceAt(rows: Frame, i: nat)
    requires i < |rows|
    ensures Column(rows, MarketCap)[i] == rows[i].quote.marketCap
    ensures DominanceColumn(rows)[i] == Dominance(rows[i].quote.marketCap, Sum(Column(rows, MarketCap)))
  {
    assert |Column(rows, MarketCap)| == |rows|;
    assert Column(rows, MarketCap)[i] == MarketCap(rows[i]);
  }

  /**
   * With no positive total every dominance is 0, all rows tie, and the view is the
   * first five coins of the frame with dominance 0.
   */
  lemma DominanceWithoutTotal(rows: Frame)
    requires rows != [] && Sum(Column(rows, MarketCap)) <= 0.0
    ensures var v := Analyze(Some(rows))[MarketDominance];
      |v| == Min(VIEW_SIZE, |rows|) &&
      forall a :: 0 <= a < |v| ==> v[a] == Metric(rows[a].quote.symbol, 0.0)
  {
    AnalyzeView(rows, MarketDominance);
    var dominance := DominanceColumn(rows);
    assert forall i :: 0 <= i < |rows| ==> dominance[i] == 0.0;
    LargestOfTies(dominance, VIEW_SIZE);
    var sel := Largest(dominance, VIEW_SIZE);
    var v := ViewOf(rows, MarketDominance);
    assert v == TopByColumn(rows, dominance) == MetricEntries(rows, dominance, sel);
    forall a | 0 <= a < |v|
      ensures v[a] == Metric(rows[a].quote.symbol, 0.0)
    {
      assert sel[a] == a;
    }
  }

  /**
   * Gainers and losers need not be disjoint: when every 24h change is the same, both
   * views list the first five coins of the frame, in frame order.
   */
  lemma TiedChangesGiveSameGainersAndLosers(rows: Frame)
    requires rows != []
    requires forall i, j :: 0 <= i < |rows| && 0 <= j < |rows| ==> rows[i].quote.change24h == rows[j].quote.change24h
    ensures Analyze(Some(rows))[TopGainers] == Analyze(Some(rows))[TopLosers]
  {
    AnalyzeView(rows, TopGainers);
    AnalyzeView(rows, TopLosers);
    var keys := Column(rows, Change24h);
    LargestOfTies(keys, VIEW_SIZE);
    LargestOfTies(Negated(keys), VIEW_SIZE);
  }
}
