# Crypto market bot: verified model of its analysis and message splitting

The bot polls CoinMarketCap listings, keeps a frame of coin records, ranks them into
six short views, builds text reports and posts them to a Telegram chat. This project
models the deterministic core of `cryptoBot1.py` in Dafny:

- **Market** (`market.dfy`): the coin records and `convert_to_dataframe`. Each row gets a
  liquidity ratio (volume / market cap) that is 0 when the market cap is not positive.
  The module also holds the frame helpers the other modules share: a column, its sum, and
  a boolean mask (`df[mask]`).
- **Ranking** (`ranking.dfy`): pandas' `nlargest` / `nsmallest` with `keep='first'`. Each
  is a stable selection of row indices. `IsTopK` specifies the selection, `Largest`
  computes it by stable insertion sort, and `TopKUnique` shows the specification fixes
  exactly one answer.
- **Analysis** (`analysis.dfy`): `analyze_market_data`. It returns the empty mapping
  without data; otherwise it returns six views of at most five rows each:
  - gainers and losers by 24h change;
  - liquidity;
  - volatility, `|change_1h - change_24h / 24|`;
  - strong trends: coins whose three changes share a strict sign, ranked by market cap;
  - market dominance.
- **Report** (`report.dfy`): the figures behind `format_market_overview` (totals, means,
  and the up / not-up counts), the coins and up/down markers of `format_top_coins`, and
  the one-hour big-mover alerts of `check_for_alerts`.
- **Notifier** (`notifier.dfy`): the splitting rule of `send_message_to_telegram`. A
  message becomes the sequence of payloads that would be posted:
  - a photo caption of at most 1024 characters, with the rest re-sent as text;
  - a text longer than 4000 characters cut into 4000-character chunks.

Numbers are Dafny `real`s (exact). A missing frame (`None`) and an empty frame are both
represented, as `Option<Frame>`, and handled the way the source handles them. The
conversion loop of `convert_to_dataframe` and the alert loop of `check_for_alerts` are
methods with loop invariants. The vectorised pandas steps (rankings, masks, sums, means)
and the splitter are functions with lemmas.

## Model

| member | source | states |
|---|---|---|
| `Market.LiquidityRatio` | cryptoBot1.py:166 | the ratio times the market cap is the 24h volume when the cap is positive; it is 0 otherwise, so there is no division by zero |
| `Market.ConvertToFrame` | cryptoBot1.py:148-171 | no frame for an empty listing; otherwise one row per coin, in listing order, with the coin's fields and its liquidity ratio |
| `Market.Marker` | cryptoBot1.py:385 | a change is marked Up exactly when it is strictly positive |
| `Market.WhereMembers` | cryptoBot1.py:452 | a boolean mask keeps a row exactly when it is in the frame and passes the mask |
| `Market.WhereAppend` | cryptoBot1.py:452-453 | masking keeps frame order: the mask of two blocks is the mask of the first followed by the mask of the second |
| `Market.WhereComplement` | cryptoBot1.py:314-315 | a mask and its negation partition the frame: their sizes add up to the frame's |
| `Market.WhereAll` | cryptoBot1.py:197 | a mask every row passes keeps the whole frame |
| `Ranking.Largest` | cryptoBot1.py:181 | `nlargest(k)`: min(k, n) distinct rows, ordered by key descending with ties to the earlier row, and every row left out ranks behind every row taken |
| `Ranking.Smallest` | cryptoBot1.py:182 | `nsmallest(k)`: the same, ascending |
| `Ranking.TopKUnique` | cryptoBot1.py:181 | at most one selection meets the `nlargest` specification, so the specification determines `Largest` completely |
| `Ranking.InsertOrdered` | cryptoBot1.py:181 | inserting a new row into a ranked list keeps it ranked (the step of the stable sort behind `nlargest`) |
| `Ranking.LargestDependsOnlyOnRanking` | cryptoBot1.py:202 | two columns that order the rows alike give the same `nlargest` answer |
| `Ranking.LargestOfTies` | cryptoBot1.py:201-202 | when all keys are equal, `nlargest(k)` is the first min(k, n) rows in frame order |
| `Ranking.LargestTakesAll` | cryptoBot1.py:197 | with at most k rows, `nlargest(k)` keeps every row |
| `Analysis.Analyze` | cryptoBot1.py:173-216 | the result is the empty mapping exactly when there is no frame or it has no rows; otherwise it has all six views |
| `Analysis.Dominance` | cryptoBot1.py:201 | the dominance times the total is 100 times the cap when the total is positive; it is 0 otherwise |
| `Analysis.TopGainersView` | cryptoBot1.py:181 | `top_gainers` has min(5, n) entries with non-increasing 24h change, and they are the `nlargest` selection projected to (symbol, change) |
| `Analysis.TopLosersView` | cryptoBot1.py:182 | `top_losers` has min(5, n) entries with non-decreasing 24h change, and they are the `nsmallest` selection |
| `Analysis.HighLiquidityView` | cryptoBot1.py:185 | `high_liquidity` is the top 5 by volume-to-market-cap ratio, in descending order |
| `Analysis.HighVolatilityView` | cryptoBot1.py:188-189 | `high_volatility` is the top 5 by `|change_1h - change_24h / 24|`, in descending order, with every value non-negative |
| `Analysis.MarketDominanceView` | cryptoBot1.py:200-202 | `market_dominance` is the top 5 by dominance, in descending order |
| `Analysis.StrongTrendsView` | cryptoBot1.py:192-197 | every `strong_trends` entry is a coin whose three changes are all > 0 or all < 0; there are min(5, #qualifying) entries; they are the top 5 by market cap among the qualifying coins |
| `Analysis.AllTrendingListed` | cryptoBot1.py:192-197 | with at most five coins, all trend-consistent, every coin is listed, ranked by market cap |
| `Analysis.DominanceSumsToHundred` | cryptoBot1.py:200-201 | with a positive total market cap, the dominances of all coins add up to exactly 100 |
| `Analysis.DominanceRanksAlike` | cryptoBot1.py:200-201 | with a positive total, the dominance column ranks any two coins exactly as the market-cap column does |
| `Analysis.DominanceKeepsOrder` | cryptoBot1.py:201 | with a positive total, dominance orders and ties coins exactly as market cap does |
| `Analysis.DominanceRanksByMarketCap` | cryptoBot1.py:200-202 | with a positive total, the dominance view selects the same coins, in the same order, as a top 5 by market cap |
| `Analysis.DominanceWithoutTotal` | cryptoBot1.py:200-202 | without a positive total, every dominance is 0 and the view is the first min(5, n) coins with value 0 |
| `Analysis.TiedChangesGiveSameGainersAndLosers` | cryptoBot1.py:181-182 | when all 24h changes are equal, `top_gainers` and `top_losers` are the same list |
| `Report.MarketOverview` | cryptoBot1.py:294-315 | no figures when there is no frame or it is empty (the "no data" reply); otherwise exactly the figures of `OverviewOf`, whose up and not-up counts add up to the number of coins |
| `Report.OverviewOf` | cryptoBot1.py:301-315 | a non-empty frame's totals of market cap and volume in billions, and the means of the 24h and 7d changes; the up count is the size of the `change_24h > 0` mask, the not-up count the size of the `change_24h <= 0` mask, and together they cover every coin |
| `Report.InBillions` | cryptoBot1.py:302 | a total in billions, multiplied back by 10^9, gives the dollar total |
| `Report.Mean` | cryptoBot1.py:308-311 | a column's mean, times the number of coins, gives the column's sum |
| `Report.OverviewExtremes` | cryptoBot1.py:314-315 | the up count equals the number of coins exactly when every 24h change is positive; the not-up count equals it exactly when none is |
| `Report.MoverCountsCoverFrame` | cryptoBot1.py:314-315 | every coin is in exactly one of the up and not-up masks, and their sizes add up to the frame's |
| `Report.TopCoins` | cryptoBot1.py:374-395 | no block without data; otherwise min(top_n, n) lines, each marked Up exactly when its 24h change is positive |
| `Report.TopCoinsRanked` | cryptoBot1.py:379 | the top-coins lines are the `nlargest(top_n, 'market_cap')` coins, largest cap first |
| `Report.AlertFor` | cryptoBot1.py:454-456 | an alert names the coin's name and symbol; it says "up" exactly when the 1h change is positive; its magnitude is the 1h change or its negation, never negative, so it is the change's absolute value, and it is above 10 for a big mover |
| `Report.CheckForAlerts` | cryptoBot1.py:444-464 | no alerts without data; otherwise exactly one alert per coin of the big-mover mask, in frame order |
| `Report.BigMoversAlerted` | cryptoBot1.py:452-456 | the big-mover mask keeps exactly the coins whose 1h change is above +10 or below -10, and each alert reports more than 10 in the change's direction |
| `Report.CalmMarketNoAlerts` | cryptoBot1.py:452 | if every 1h change is within [-10, 10], there are no big movers |
| `Report.TrendArrow` | cryptoBot1.py:363 | the strong-trends arrow points up exactly when the entry has a 24h change and it is positive (a missing change counts as 0) |
| `Report.TrendArrows` | cryptoBot1.py:361-364 | one arrow per `strong_trends` entry, in order, each up exactly for a positive 24h change; none when the view is absent |
| `Report.StrongTrendArrowsFollowTrend` | cryptoBot1.py:361-364 | each strong-trends arrow belongs to a trend-consistent coin (the filter of lines 192-197), and it points up exactly when the coin's 1h, 24h and 7d changes are all positive, and down exactly when all three are negative |
| `Notifier.ChunkCountIsCeiling` | cryptoBot1.py:422 | the number of chunks is the ceiling of length / 4000 |
| `Notifier.ChunksStep` | cryptoBot1.py:422 | the chunks of a message longer than 4000 characters are its first 4000 characters followed by the chunks of the rest |
| `Notifier.ChunksRebuild` | cryptoBot1.py:422 | the chunks concatenated in order are the message |
| `Notifier.ChunkSizes` | cryptoBot1.py:422 | every chunk is non-empty and at most 4000 characters long, and every chunk but the last is exactly 4000 |
| `Notifier.ShortTextSentWhole` | cryptoBot1.py:430-436 | a text of at most 4000 characters is posted once, unchanged |
| `Notifier.LongTextSplit` | cryptoBot1.py:421-429 | a longer text is posted as ⌈n/4000⌉ ≥ 2 text payloads; each is within 4000 characters; all but the last are exactly 4000; together they spell the message |
| `Notifier.TextPathSound` | cryptoBot1.py:419-436 | the text path posts at least one text payload, each within the limit, and reading them in order gives back the message |
| `Notifier.PhotoCaptionSplit` | cryptoBot1.py:400-417 | with a photo, the caption is the first min(n, 1024) characters; nothing follows if n ≤ 1024; otherwise the rest goes through the text path; caption and follow-ups spell the message |
| `Notifier.SendKeepsMessage` | cryptoBot1.py:397-442 | with or without a photo, at least one payload is posted; every payload fits its limit (caption 1024, text 4000); reading them in order gives back the message |
| `Notifier.NineThousandCharacters` | cryptoBot1.py:421-429 | a 9000-character text goes out as three texts of 4000, 4000 and 1000 characters that spell the message |
| `Notifier.FifteenHundredCharacterCaption` | cryptoBot1.py:405-417 | a 1500-character message with a photo posts the photo with the first 1024 characters, then one text with the remaining 476 |

## Left out

- Network I/O: the CoinMarketCap request (`get_crypto_data`) and the Telegram `requests.post` calls. The notifier gives only the payloads that would be posted. Transport exceptions and the True/False result of `send_message_to_telegram` are not modelled.
- Whether the chart file exists (`photo_path and os.path.exists(photo_path)`): this is the `withPhoto` parameter.
- Storage: the SQLite schema and inserts (`initialize_database`, `save_data_to_db`, `save_analysis_results`, which `analyze_market_data` calls) and the raw JSON archive (`save_raw_data`).
- `generate_charts`: it is matplotlib rendering.
- The exact text of `format_market_overview`, `format_top_coins`, `format_detailed_analysis` and the alert strings: f-string number formatting, emoji and Markdown. What is kept: the figures, the counts, the selections, the up/down choices of the top-coins markers and the alerts, and the ↗️/↘️ arrow of each strong-trends entry (`Report.TrendArrows`). Otherwise `format_detailed_analysis` only prints the six views' entries as `analyze_market_data` returns them.
- `process_crypto_data` and `main`: the scheduling loop, `time.sleep`, interrupt handling, logging, environment configuration and `datetime.now()` timestamps.
- Floating point: pandas works on IEEE doubles, and the model on exact reals. So the dominance sum is exactly 100 here, where floats only come close.
- JSON decoding: the input is a sequence of already-decoded quotes. In the source, a coin missing a `quote.USD` field raises out of `convert_to_dataframe`. The code has no per-coin skip, so a malformed coin is not skipped.
- The in-place frame updates: the `volatility`, `trend_consistency` and `market_dominance` columns that `analyze_market_data` adds to `df` are functions of each row here. `process_crypto_data` passes the mutated frame on to `generate_charts`, `format_market_overview`, `format_top_coins` and `check_for_alerts`. None of them reads the added columns, so modelling the columns as row functions changes no result.
- `check_for_alerts`'s `previous_df` branch: the source leaves it empty (`pass`).
- String length: a Dafny `string` is a sequence of Unicode scalar values, which matches Python's `len`. Telegram's own way of counting characters, and Markdown entities cut at a chunk boundary, are not modelled.
- Disjointness of `top_gainers` and `top_losers`: one might expect the two views never to share a coin on a snapshot of more than ten coins, but the code does not guarantee it. `Analysis.TiedChangesGiveSameGainersAndLosers` shows both views coincide when all 24h changes tie.
