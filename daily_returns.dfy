/**
 * `stock_data.groupby('Ticker')['Adj Close'].pct_change()` on the pivoted long
 * table: each row's return is its price over the previous price of the SAME
 * ticker, minus one; a ticker's first row has no return.
 */
module DailyReturns {
  import opened Wrappers
  import opened TickerOrder
  import opened Pivot

  /** The column the returns are computed from. */
  const AdjClose: string := "Adj Close"

  /** One row of the long table reduced to what the scans read. */
  datatype Quote = Quote(ticker: string, price: real)

  /** The (Ticker, Adj Close) column pair of the long table. */
  function Quotes(rows: seq<LongRow>): (q: seq<Quote>)
    requires HasPrices(rows)
    ensures |q| == |rows|
    ensures forall i :: 0 <= i < |rows| ==> q[i] == Quote(rows[i].ticker, rows[i].attrs[AdjClose])
  {
    seq(|rows|, i requires 0 <= i < |rows| => Quote(rows[i].ticker, rows[i].attrs[AdjClose]))
  }

  /** `ticker_data = stock_data[stock_data['Ticker'] == t]['Adj Close']`: ticker t's prices, in row order. */
  function PricesOf(rows: seq<Quote>, t: string): seq<real>
  {
    if rows == [] then []
    else PricesOf(rows[..|rows| - 1], t) + (if rows[|rows| - 1].ticker == t then [rows[|rows| - 1].price] else [])
  }

  /** The entries of `values` on the rows of ticker t, in row order. */
  function OnTicker<T>(values: seq<T>, rows: seq<Quote>, t: string): seq<T>
    requires |values| == |rows|
  {
    if rows == [] then []
    else
      var n := |rows| - 1;
      OnTicker(values[..n], rows[..n], t) + (if rows[n].ticker == t then [values[n]] else [])
  }

  /** One step of `pct_change`: `x / prev - 1`; a zero previous price has no finite change. */
  function Change(prev: real, x: real): Option<real>
  {
    if prev == 0.0 then None else Some(x / prev - 1.0)
  }

  /** `Series.pct_change()` on one ticker's series: undefined first, then step by step. */
  function PctChange(xs: seq<real>): (r: seq<Option<real>>)
    ensures |r| == |xs|
  {
    seq(|xs|, i requires 0 <= i < |xs| => if i == 0 then None else Change(xs[i - 1], xs[i]))
  }

  /** The price of the last row of ticker t. */
  function LastPrice(rows: seq<Quote>, t: string): Option<real>
  {
    if rows == [] then None
    else if rows[|rows| - 1].ticker == t then Some(rows[|rows| - 1].price)
    else LastPrice(rows[..|rows| - 1], t)
  }

  /**
   * The grouped `pct_change` as one pass over the frame: each row is compared
   * with the last price seen for its own ticker.
   */
  function GroupedPctChange(rows: seq<Quote>): (r: seq<Option<real>>)
    ensures |r| == |rows|
  {
    if rows == [] then []
    else
      var n := |rows| - 1;
      var ret := match LastPrice(rows[..n], rows[n].ticker)
        case None => None
        case Some(prev) => Change(prev, rows[n].price);
      GroupedPctChange(rows[..n]) + [ret]
  }

  /** The last price of a ticker is the last entry of its price series. */
  lemma {:induction false} LastPriceIsLastOfSeries(rows: seq<Quote>, t: string)
    ensures LastPrice(rows, t) ==
      if PricesOf(rows, t) == [] then None else Some(PricesOf(rows, t)[|PricesOf(rows, t)| - 1])
  {
    if rows != [] {
      LastPriceIsLastOfSeries(rows[..|rows| - 1], t);
    }
  }

  /** Appending one price extends `pct_change` by exactly one entry. */
  lemma PctChangeSnoc(xs: seq<real>, x: real)
    ensures PctChange(xs + [x]) == PctChange(xs) + [if xs == [] then None else Change(xs[|xs| - 1], x)]
  {
    var l, r := PctChange(xs + [x]), PctChange(xs) + [if xs == [] then None else Change(xs[|xs| - 1], x)];
    forall i | 0 <= i < |l| ensures l[i] == r[i] {
      if i < |xs| { assert (xs + [x])[i] == xs[i]; if i > 0 { assert (xs + [x])[i - 1] == xs[i - 1]; } }
    }
  }

  /**
   * The per-ticker reset: restricted to the rows of any ticker t, the daily
   * returns are exactly `pct_change` of t's own price series, so a return never
   * uses another ticker's price.
   */
  lemma {:induction false} GroupwiseReturns(rows: seq<Quote>, t: string)
    ensures OnTicker(GroupedPctChange(rows), rows, t) == PctChange(PricesOf(rows, t))
  {
    if rows != [] {
      var n := |rows| - 1;
      var init := rows[..n];
      var r := GroupedPctChange(rows);
      assert r[..n] == GroupedPctChange(init);
      GroupwiseReturns(init, t);
      if rows[n].ticker == t {
        LastPriceIsLastOfSeries(init, t);
        PctChangeSnoc(PricesOf(init, t), rows[n].price);
      }
    }
  }

  /** The first row of every ticker has no return. */
  lemma {:induction false} FirstRowUndefined(rows: seq<Quote>, i: nat)
    requires i < |rows|
    requires forall j :: 0 <= j < i ==> rows[j].ticker != rows[i].ticker
    ensures GroupedPctChange(rows)[i] == None
  {
    var pre := rows[..i + 1];
    assert pre[..i] == rows[..i];
    NoEarlierRow(rows[..i], rows[i].ticker);
    GroupedPctChangePrefix(rows, i + 1);
  }

  /**
   * A later row's return is its price over the price of the closest earlier
   * row of the same ticker, minus one.
   */
  lemma {:induction false} PreviousRowOfTicker(rows: seq<Quote>, j: nat, i: nat)
    requires j < i < |rows| && rows[j].ticker == rows[i].ticker
    requires forall l :: j < l < i ==> rows[l].ticker != rows[i].ticker
    ensures GroupedPctChange(rows)[i] == Change(rows[j].price, rows[i].price)
  {
    var pre := rows[..i + 1];
    assert pre[..i] == rows[..i];
    LastRowOfTicker(rows[..i], j, rows[i].ticker);
    GroupedPctChangePrefix(rows, i + 1);
  }

  lemma {:induction false} NoEarlierRow(rows: seq<Quote>, t: string)
    requires forall j :: 0 <= j < |rows| ==> rows[j].ticker != t
    ensures LastPrice(rows, t) == None
  {
    if rows != [] { NoEarlierRow(rows[..|rows| - 1], t); }
  }

  lemma {:induction false} LastRowOfTicker(rows: seq<Quote>, j: nat, t: string)
    requires j < |rows| && rows[j].ticker == t
    requires forall l :: j < l < |rows| ==> rows[l].ticker != t
    ensures LastPrice(rows, t) == Some(rows[j].price)
  {
    if j < |rows| - 1 { LastRowOfTicker(rows[..|rows| - 1], j, t); }
  }

  /** The returns of a prefix are the prefix of the returns. */
  lemma {:induction false} GroupedPctChangePrefix(rows: seq<Quote>, k: nat)
    requires k <= |rows|
    ensures GroupedPctChange(rows[..k]) == GroupedPctChange(rows)[..k]
  {
    if k < |rows| {
      var n := |rows| - 1;
      assert rows[..n][..k] == rows[..k];
      GroupedPctChangePrefix(rows[..n], k);
    } else {
      assert rows[..k] == rows;
    }
  }

  /** Prices [100, 110, 99] give [undefined, 0.10, -0.10]. */
  lemma ReturnsExample()
    ensures PctChange([100.0, 110.0, 99.0]) == [None, Some(0.1), Some(-0.1)]
  {
    var r := PctChange([100.0, 110.0, 99.0]);
    assert r[1] == Some(110.0 / 100.0 - 1.0);
    assert r[2] == Some(99.0 / 110.0 - 1.0);
  }

  /**
   * In the pivoted table (sorted by Date, then Ticker) the rows of one ticker
   * come in strictly increasing date order, so the grouped `pct_change`
   * compares each day with the previous trading day of that ticker.
   */
  lemma TickerRowsByDate(rows: seq<LongRow>, i: nat, j: nat)
    requires Sorted(rows) && i < j < |rows| && rows[i].ticker == rows[j].ticker
    ensures rows[i].date < rows[j].date
  {
    LessIrreflexive(rows[i].ticker);
  }

  /** Every row of the long table carries an `Adj Close` price. */
  predicate HasPrices(rows: seq<LongRow>)
  {
    forall i :: 0 <= i < |rows| ==> AdjClose in rows[i].attrs
  }

  /**
   * `stock_data['Daily Return']` on the pivoted long table: when row `j` is the
   * closest earlier row of row `i`'s ticker, it is that ticker's previous
   * trading day, and row `i`'s return is its price over row `j`'s, minus one.
   */
  lemma ReturnOnPreviousDay(rows: seq<LongRow>, j: nat, i: nat)
    requires Sorted(rows) && HasPrices(rows)
    requires j < i < |rows| && rows[j].ticker == rows[i].ticker
    requires forall l :: j < l < i ==> rows[l].ticker != rows[i].ticker
    ensures rows[j].date < rows[i].date
    ensures GroupedPctChange(Quotes(rows))[i] == Change(rows[j].attrs[AdjClose], rows[i].attrs[AdjClose])
  {
    TickerRowsByDate(rows, j, i);
    PreviousRowOfTicker(Quotes(rows), j, i);
  }

  /** On the pivoted long table, the earliest row of each ticker has no return. */
  lemma FirstDayUndefined(rows: seq<LongRow>, i: nat)
    requires HasPrices(rows) && i < |rows|
    requires forall j :: 0 <= j < i ==> rows[j].ticker != rows[i].ticker
    ensures GroupedPctChange(Quotes(rows))[i] == None
  {
    FirstRowUndefined(Quotes(rows), i);
  }
}
