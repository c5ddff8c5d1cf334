/**
 * The figures behind the text reports: the market overview's totals, means and mover
 * counts (`format_market_overview`), the coins of the top-by-market-cap block with
 * their up/down marker (`format_top_coins`), and the one-hour big-mover alerts
 * (`check_for_alerts`). The exact wording, emoji and number formatting are not modelled.
 */
module Report {
  import opened Market
  import opened Ranking
  import opened Analysis

  /** Totals are reported in billions of dollars. */
  const BILLION: real := 1000000000.0

  /** A coin whose one-hour change exceeds this many percent, either way, raises an alert. */
  const BIG_MOVE_THRESHOLD: real := 10.0

  datatype Overview = Overview(
    totalMarketCap: real,
    totalVolume: real,
    meanChange24h: real,
    meanChange7d: real,
    positive: nat,
    negative: nat)

  predicate Gaining(r: Record) { r.quote.change24h > 0.0 }

  predicate NotGaining(r: Record) { r.quote.change24h <= 0.0 }

  /**
   * `format_market_overview`'s figures: none without data (the "no data" message);
   * otherwise the figures of OverviewOf.
   */
  function MarketOverview(df: Option<Frame>): (overview: Option<Overview>)
    ensures overview.None? <==> (df.None? || df.value == [])
    ensures overview.Some? ==> overview.value == OverviewOf(df.value)
    ensures overview.Some? ==> overview.value.positive + overview.value.negative == |df.value|
  {
    if df.None? || df.value == [] then None else Some(OverviewOf(df.value))
  }

  /**
   * The figures of a non-empty frame: the totals in billions, the means of the 24h and
   * 7d changes, and the counts of coins up and not up over 24h, which together cover
   * every coin.
   */
  function OverviewOf(rows: Frame): (o: Overview)
    requires rows != []
    ensures o.positive == |Where(rows, Gaining)| && o.negative == |Where(rows, NotGaining)|
    ensures o.positive + o.negative == |rows|
    ensures o.totalMarketCap == InBillions(Sum(Column(rows, MarketCap)))
    ensures o.totalVolume == InBillions(Sum(Column(rows, Volume24h)))
    ensures o.meanChange24h == Mean(Column(rows, Change24h))
    ensures o.meanChange7d == Mean(Column(rows, Change7d))
  {
    WhereComplement(rows, Gaining, NotGaining);
    Overview(
      InBillions(Sum(Column(rows, MarketCap))),
      InBillions(Sum(Column(rows, Volume24h))),
      Mean(Column(rows, Change24h)),
      Mean(Column(rows, Change7d)),
      |Where(rows, Gaining)|, |Where(rows, NotGaining)|)
  }

  /** An amount of dollars in billions (`/ 1e9`). */
  function InBillions(x: real): (b: real)
    ensures b * BILLION == x
  {
    x / BILLION
  }

  /** `.mean()` of a non-empty column: the value that, times the count, gives the sum. */
  function Mean(xs: seq<real>): (m: real)
    requires xs != []
    ensures m * (|xs| as real) == Sum(xs)
  {
    Sum(xs) / (|xs| as real)
  }

  /** The up and not-up masks split every frame: each coin is counted exactly once. */
  lemma MoverCountsCoverFrame(rows: Frame)
    ensures |Where(rows, Gaining)| + |Where(rows, NotGaining)| == |rows|
    ensures forall r :: r in rows ==> (r in Where(rows, Gaining) <==> r !in Where(rows, NotGaining))
  {
    WhereComplement(rows, Gaining, NotGaining);
    WhereMembers(rows, Gaining);
    WhereMembers(rows, NotGaining);
  }

  /**
   * The overview reports every coin as up exactly when all 24h changes are positive,
   * and every coin as not up exactly when none is.
   */
  lemma OverviewExtremes(rows: Frame)
    requires rows != []
    ensures var o := MarketOverview(Some(rows)).value;
      (o.positive == |rows| <==> forall i :: 0 <= i < |rows| ==> rows[i].quote.change24h > 0.0) &&
      (o.negative == |rows| <==> forall i :: 0 <= i < |rows| ==> rows[i].quote.change24h <= 0.0)
  {
    var o := MarketOverview(Some(rows)).value;
    assert o.positive == |Where(rows, Gaining)| && o.negative == |Where(rows, NotGaining)|;
    MoverCountsCoverFrame(rows);
    WhereMembers(rows, Gaining);
    WhereMembers(rows, NotGaining);
    if forall i :: 0 <= i < |rows| ==> rows[i].quote.change24h > 0.0 {
      WhereAll(rows, Gaining);
    }
    if forall i :: 0 <= i < |rows| ==> rows[i].quote.change24h <= 0.0 {
      WhereAll(rows, NotGaining);
    }
    if o.positive == |rows| {
      forall i | 0 <= i < |rows|
        ensures rows[i].quote.change24h > 0.0
      {
        assert rows[i] in rows;
      }
    }
    if o.negative == |rows| {
      forall i | 0 <= i < |rows|
        ensures rows[i].quote.change24h <= 0.0
      {
        assert rows[i] in rows;
      }
    }
  }

  /** One coin of the top-coins block; the marker is green (Up) only for a positive 24h change. */
  datatype CoinLine = CoinLine(
    name: string,
    symbol: string,
    marker: Direction,
    price: real,
    marketCap: real,
    change24h: real,
    volume24h: real)

  function CoinLineOf(r: Record): CoinLine
  {
    CoinLine(r.quote.name, r.quote.symbol, Marker(r.quote.change24h), r.quote.price,
             r.quote.marketCap, r.quote.change24h, r.quote.volume24h)
  }

  /**
   * `format_top_coins`: none without data (the "no data" message); otherwise the
   * `nlargest(top_n, 'market_cap')` coins, each with its marker.
   */
  function TopCoins(df: Option<Frame>, topN: nat): (lines: Option<seq<CoinLine>>)
    ensures lines.None? <==> (df.None? || df.value == [])
    ensures lines.Some? ==> |lines.value| == Min(topN, |df.value|)
    ensures lines.Some? ==> forall a :: 0 <= a < |lines.value| ==>
      (lines.value[a].marker == Up <==> lines.value[a].change24h > 0.0)
  {
    if df.None? || df.value == [] then None
    else
      var rows := df.value;
      var sel := Largest(Column(rows, MarketCap), topN);
      Some(seq(|sel|, a requires 0 <= a < |sel| => CoinLineOf(rows[sel[a]])))
  }

  /** The top-coins block lists the largest coins by market cap, largest first. */
  lemma TopCoinsRanked(rows: Frame, topN: nat)
    requires rows != []
    ensures var lines := TopCoins(Some(rows), topN).value;
      (forall a, b :: 0 <= a < b < |lines| ==> lines[a].marketCap >= lines[b].marketCap) &&
      exists sel :: IsTopK(Column(rows, MarketCap), topN, sel) && |sel| == |lines| &&
        forall a :: 0 <= a < |sel| ==> sel[a] < |rows| && lines[a] == CoinLineOf(rows[sel[a]])
  {
    var keys := Column(rows, MarketCap);
    var sel := Largest(keys, topN);
    var lines := TopCoins(Some(rows), topN).value;
    assert forall a :: 0 <= a < |lines| ==> lines[a] == CoinLineOf(rows[sel[a]]);
    forall a, b | 0 <= a < b < |lines|
      ensures lines[a].marketCap >= lines[b].marketCap
    {
      assert Ahead(keys, sel[a], sel[b]);
      assert lines[a].marketCap == keys[sel[a]] && lines[b].marketCap == keys[sel[b]];
    }
  }

  /** One alert: the coin, whether it went up ("subido") or down ("bajado"), and by how much. */
  datatype Alert = Alert(name: string, symbol: string, direction: Direction, magnitude: real)

  predicate BigMover(r: Record)
  {
    Abs(r.quote.change1h) > BIG_MOVE_THRESHOLD
  }

  function AlertFor(r: Record): (alert: Alert)
    ensures alert.name == r.quote.name && alert.symbol == r.quote.symbol
    ensures alert.magnitude == r.quote.change1h || alert.magnitude == -r.quote.change1h
    ensures alert.direction == Up <==> r.quote.change1h > 0.0
    ensures alert.magnitude >= 0.0
    ensures BigMover(r) ==> alert.magnitude > BIG_MOVE_THRESHOLD
  {
    Alert(r.quote.name, r.quote.symbol, Marker(r.quote.change1h), Abs(r.quote.change1h))
  }

  /**
   * `check_for_alerts`: no alerts without data; otherwise one alert per coin of the
   * big-mover mask, in frame order.
   */
  method CheckForAlerts(df: Option<Frame>) returns (alerts: seq<Alert>)
    ensures (df.None? || df.value == []) ==> alerts == []
    ensures df.Some? ==> |alerts| == |Where(df.value, BigMover)|
    ensures df.Some? ==> forall a :: 0 <= a < |alerts| ==> alerts[a] == AlertFor(Where(df.value, BigMover)[a])
  {
    if df.None? || df.value == [] {
      return [];
    }
    var bigMovers := Where(df.value, BigMover);
    alerts := [];
    for i := 0 to |bigMovers|
      invariant |alerts| == i
      invariant forall a :: 0 <= a < i ==> alerts[a] == AlertFor(bigMovers[a])
    {
      alerts := alerts + [AlertFor(bigMovers[i])];
    }
  }

  /**
   * The big-mover mask keeps exactly the coins whose one-hour change is above +10% or
   * below -10%, and each of their alerts reports a move of more than 10% in the
   * direction of the change's sign.
   */
  lemma BigMoversAlerted(rows: Frame)
    ensures forall r :: r in Where(rows, BigMover) <==>
      r in rows && (r.quote.change1h > BIG_MOVE_THRESHOLD || r.quote.change1h < -BIG_MOVE_THRESHOLD)
    ensures forall r :: r in Where(rows, BigMover) ==>
      AlertFor(r).magnitude > BIG_MOVE_THRESHOLD && (AlertFor(r).direction == Up <==> r.quote.change1h > 0.0)
  {
    WhereMembers(rows, BigMover);
  }

  /** A calm hour raises no alert. */
  lemma {:induction false} CalmMarketNoAlerts(rows: Frame)
    requires forall i :: 0 <= i < |rows| ==> -BIG_MOVE_THRESHOLD <= rows[i].quote.change1h <= BIG_MOVE_THRESHOLD
    ensures Where(rows, BigMover) == []
  {
    if rows != [] {
      CalmMarketNoAlerts(rows[..|rows| - 1]);
      assert !BigMover(rows[|rows| - 1]);
    }
  }

  /**
   * The arrow `format_detailed_analysis` puts before each strong-trends entry: up for a
   * positive 24h change, down otherwise, and down for an entry without a 24h change
   * (the `.get(..., 0)` default).
   */
  function TrendArrow(e: Entry): (d: Direction)
    ensures d == Up <==> e.Trend? && e.change24h > 0.0
  {
    if e.Trend? then Marker(e.change24h) else Down
  }

  /** The arrows of the strong-trends block: one per entry, none when the view is absent. */
  function TrendArrows(results: map<View, seq<Entry>>): (arrows: seq<Direction>)
    ensures StrongTrends !in results ==> arrows == []
    ensures StrongTrends in results ==> |arrows| == |results[StrongTrends]|
    ensures StrongTrends in results ==> forall a :: 0 <= a < |arrows| ==>
      (arrows[a] == Up <==> results[StrongTrends][a].Trend? && results[StrongTrends][a].change24h > 0.0)
  {
    if StrongTrends !in results then []
    else
      var v := results[StrongTrends];
      seq(|v|, a requires 0 <= a < |v| => TrendArrow(v[a]))
  }

  predicate Rising(r: Record)
  {
    r.quote.change1h > 0.0 && r.quote.change24h > 0.0 && r.quote.change7d > 0.0
  }

  predicate Falling(r: Record)
  {
    r.quote.change1h < 0.0 && r.quote.change24h < 0.0 && r.quote.change7d < 0.0
  }

  /** d is the arrow of a trend-consistent coin whose entry is e, and follows all three of its changes. */
  predicate ArrowOfCoin(rows: Frame, e: Entry, d: Direction)
  {
    exists i :: 0 <= i < |rows| && TrendConsistent(rows[i]) && e == TrendEntry(rows[i]) &&
      (d == Up <==> Rising(rows[i])) && (d == Down <==> Falling(rows[i]))
  }

  /**
   * In the detailed analysis, every strong-trends arrow points up exactly when the
   * coin's 1h, 24h and 7d changes are all positive, and down exactly when all three
   * are negative: the 24h sign alone decides it because the coin is trend-consistent.
   */
  lemma StrongTrendArrowsFollowTrend(rows: Frame)
    requires rows != []
    ensures var v := Analyze(Some(rows))[StrongTrends];
      var arrows := TrendArrows(Analyze(Some(rows)));
      |arrows| == |v| && forall a :: 0 <= a < |v| ==> ArrowOfCoin(rows, v[a], arrows[a])
  {
    var results := Analyze(Some(rows));
    AnalyzeView(rows, StrongTrends);
    StrongTrendsView(rows);
    var v := results[StrongTrends];
    var arrows := TrendArrows(results);
    forall a | 0 <= a < |v|
      ensures ArrowOfCoin(rows, v[a], arrows[a])
    {
      assert OfTrendingCoin(rows, v[a]);
      var i :| 0 <= i < |rows| && TrendConsistent(rows[i]) && v[a] == TrendEntry(rows[i]);
      assert arrows[a] == Up <==> rows[i].quote.change24h > 0.0;
    }
  }
}
