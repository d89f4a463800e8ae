/** The headline metrics shown above the charts: the last close, its change
    from the previous close in absolute and percentage terms, and the highest
    High and lowest Low of the whole table. */
module Snapshot {
  import opened Common

  datatype Metrics = Metrics(
    lastClose: real,
    prevClose: real,
    change: real,
    /** `None` where the previous close is 0: the float division then gives
        inf or NaN rather than a number. */
    changePct: Option<real>,
    dayHigh: real,
    dayLow: real)

  /** `data.iloc[-2]` raises IndexError on a table with fewer than two rows. */
  datatype MetricsError = TooFewRows

  /** `data['High'].max()`: the greatest value of a non-empty column. */
  method ColumnMax(xs: seq<real>) returns (m: real)
    requires |xs| > 0
    ensures forall k :: 0 <= k < |xs| ==> xs[k] <= m
    ensures exists k :: 0 <= k < |xs| && xs[k] == m
  {
    m := xs[0];
    ghost var at := 0;
    for i := 1 to |xs|
      invariant 0 <= at < i && xs[at] == m
      invariant forall k :: 0 <= k < i ==> xs[k] <= m
    {
      if xs[i] > m {
        m, at := xs[i], i;
      }
    }
  }

  /** `data['Low'].min()`: the least value of a non-empty column. */
  method ColumnMin(xs: seq<real>) returns (m: real)
    requires |xs| > 0
    ensures forall k :: 0 <= k < |xs| ==> m <= xs[k]
    ensures exists k :: 0 <= k < |xs| && xs[k] == m
  {
    m := xs[0];
    ghost var at := 0;
    for i := 1 to |xs|
      invariant 0 <= at < i && xs[at] == m
      invariant forall k :: 0 <= k < i ==> m <= xs[k]
    {
      if xs[i] < m {
        m, at := xs[i], i;
      }
    }
  }

  /** The metrics of a table given by its Close, High and Low columns. */
  method Headline(close: seq<real>, high: seq<real>, low: seq<real>)
    returns (r: Result<Metrics, MetricsError>)
    requires |high| == |close| && |low| == |close|
    ensures r.Err? <==> |close| < 2
    ensures r.Ok? ==>
      var n, m := |close|, r.value;
      && m.lastClose == close[n - 1]
      && m.prevClose == close[n - 2]
      && m.prevClose + m.change == m.lastClose
      && (m.changePct.None? <==> m.prevClose == 0.0)
      && (m.changePct.Some? ==> m.changePct.value * m.prevClose == 100.0 * m.change)
      && (forall k :: 0 <= k < n ==> high[k] <= m.dayHigh)
      && (exists k :: 0 <= k < n && high[k] == m.dayHigh)
      && (forall k :: 0 <= k < n ==> m.dayLow <= low[k])
      && (exists k :: 0 <= k < n && low[k] == m.dayLow)
  {
    if |close| < 2 {
      return Err(TooFewRows);
    }
    var n := |close|;
    var last, prev := close[n - 1], close[n - 2];
    var change := last - prev;
    var pct := if prev != 0.0 then Some(change / prev * 100.0) else None;
    var dayHigh := ColumnMax(high);
    var dayLow := ColumnMin(low);
    return Ok(Metrics(last, prev, change, pct, dayHigh, dayLow));
  }
}
