/**
 * The coin records of one listings snapshot and the analysis frame built from them
 * (`convert_to_dataframe`), with the column operations the analysis and the reports
 * share: a column of one key, its sum, and the rows that pass a boolean mask.
 *
 * Numbers are exact reals; the listing's floating-point values are not modelled.
 */
module Market {

  datatype Option<T> = None | Some(value: T)

  /** One coin of the listings response: its identity and the `quote.USD` fields read from it. */
  datatype Quote = Quote(
    id: int,
    name: string,
    symbol: string,
    price: real,
    marketCap: real,
    volume24h: real,
    change1h: real,
    change24h: real,
    change7d: real)

  /** A row of the analysis frame: the coin's fields plus the derived `volume_to_market_cap`. */
  datatype Record = Record(quote: Quote, volumeToMarketCap: real)

  type Frame = seq<Record>

  /** Which way a coin moved: "subido" / green marker, or "bajado" / red marker. */
  datatype Direction = Up | Down

  /** The sign choice every report makes: only a strictly positive change counts as up. */
  function Marker(change: real): (d: Direction)
    ensures d == Up <==> change > 0.0
  {
    if change > 0.0 then Up else Down
  }

  function Abs(x: real): real { if x < 0.0 then -x else x }

  function Min(a: nat, b: nat): nat { if a <= b then a else b }

  /**
   * Trading volume over market capitalisation, guarded so that a zero (or negative)
   * market cap gives 0 instead of a division by zero.
   */
  function LiquidityRatio(q: Quote): (ratio: real)
    ensures q.marketCap > 0.0 ==> ratio * q.marketCap == q.volume24h
    ensures q.marketCap <= 0.0 ==> ratio == 0.0
  {
    if q.marketCap > 0.0 then q.volume24h / q.marketCap else 0.0
  }

  /**
   * `convert_to_dataframe`: no frame for an empty listing; otherwise one row per coin,
   * in listing order, each carrying its liquidity ratio.
   */
  method ConvertToFrame(data: seq<Quote>) returns (df: Option<Frame>)
    ensures df.None? <==> data == []
    ensures df.Some? ==> |df.value| == |data|
    ensures df.Some? ==> forall i :: 0 <= i < |data| ==>
      df.value[i].quote == data[i] && df.value[i].volumeToMarketCap == LiquidityRatio(data[i])
  {
    if data == [] {
      return None;
    }
    var processed: Frame := [];
    for i := 0 to |data|
      invariant |processed| == i
      invariant forall j :: 0 <= j < i ==>
        processed[j].quote == data[j] && processed[j].volumeToMarketCap == LiquidityRatio(data[j])
    {
      processed := processed + [Record(data[i], LiquidityRatio(data[i]))];
    }
    return Some(processed);
  }

  // The frame's columns, as key functions on a row.

  function MarketCap(r: Record): real { r.quote.marketCap }
  function Volume24h(r: Record): real { r.quote.volume24h }
  function Change1h(r: Record): real { r.quote.change1h }
  function Change24h(r: Record): real { r.quote.change24h }
  function Change7d(r: Record): real { r.quote.change7d }
  function VolumeToMarketCap(r: Record): real { r.volumeToMarketCap }

  /** The column `df[key]`. */
  function Column(rows: Frame, key: Record -> real): seq<real>
  {
    seq(|rows|, i requires 0 <= i < |rows| => key(rows[i]))
  }

  lemma ColumnSnoc(rows: Frame, key: Record -> real, i: nat)
    requires i < |rows|
    ensures Column(rows[..i + 1], key) == Column(rows[..i], key) + [key(rows[i])]
  {
  }

  /** `.sum()` of a column. */
  function Sum(xs: seq<real>): real
  {
    if xs == [] then 0.0 else Sum(xs[..|xs| - 1]) + xs[|xs| - 1]
  }

  lemma SumSnoc(xs: seq<real>, x: real)
    ensures Sum(xs + [x]) == Sum(xs) + x
  {
    assert (xs + [x])[..|xs|] == xs;
  }

  /** `df[mask]`: the rows that satisfy keep, in frame order. */
  function Where(rows: Frame, keep: Record -> bool): (kept: Frame)
    ensures |kept| <= |rows|
  {
    if rows == [] then []
    else
      var last := rows[|rows| - 1];
      Where(rows[..|rows| - 1], keep) + (if keep(last) then [last] else [])
  }

  /** A row is kept exactly when it is in the frame and passes the mask. */
  lemma {:induction false} WhereMembers(rows: Frame, keep: Record -> bool)
    ensures forall x :: x in Where(rows, keep) <==> x in rows && keep(x)
  {
    if rows != [] {
      var init := rows[..|rows| - 1];
      WhereMembers(init, keep);
      assert rows == init + [rows[|rows| - 1]];
    }
  }

  /** Masking keeps frame order: the rows of an earlier block come before those of a later one. */
  lemma {:induction false} WhereAppend(rows1: Frame, rows2: Frame, keep: Record -> bool)
    ensures Where(rows1 + rows2, keep) == Where(rows1, keep) + Where(rows2, keep)
  {
    if rows2 == [] {
      assert rows1 + rows2 == rows1;
    } else {
      var init := rows2[..|rows2| - 1];
      WhereAppend(rows1, init, keep);
      assert (rows1 + rows2)[..|rows1 + rows2| - 1] == rows1 + init;
    }
  }

  /** A mask and its negation split the frame: the two masked frames' sizes add up to the whole. */
  lemma {:induction false} WhereComplement(rows: Frame, keep: Record -> bool, drop: Record -> bool)
    requires forall x :: drop(x) == !keep(x)
    ensures |Where(rows, keep)| + |Where(rows, drop)| == |rows|
  {
    if rows != [] {
      WhereComplement(rows[..|rows| - 1], keep, drop);
      assert drop(rows[|rows| - 1]) == !keep(rows[|rows| - 1]);
    }
  }

  /** A mask every row passes keeps the whole frame. */
  lemma {:induction false} WhereAll(rows: Frame, keep: Record -> bool)
    requires forall i :: 0 <= i < |rows| ==> keep(rows[i])
    ensures Where(rows, keep) == rows
  {
    if rows != [] {
      WhereAll(rows[..|rows| - 1], keep);
    }
  }
}
