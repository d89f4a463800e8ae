/** The two technical indicators of the dashboard, computed over the Close
    column: a simple moving average (pandas `rolling(window).mean()`, whose
    `min_periods` defaults to the window) and the relative strength index
    built from rolling means of gains and losses. A missing value (NaN) is
    `None`. */
module Indicators {
  import opened Common

  /** Sum of a sequence, accumulated from the front as a rolling sum is. */
  function Sum(s: seq<real>): real
    decreases |s|
  {
    if |s| == 0 then 0.0 else Sum(s[..|s| - 1]) + s[|s| - 1]
  }

  /** Arithmetic mean of a non-empty sequence. */
  function Mean(s: seq<real>): real
    requires |s| > 0
  {
    Sum(s) / (|s| as real)
  }

  /** The `window` values ending at index `i`, inclusive. */
  function Trailing(s: seq<real>, window: nat, i: nat): (t: seq<real>)
    requires 1 <= window <= i + 1 <= |s|
    ensures |t| == window
    ensures forall k :: 0 <= k < window ==> t[k] == s[i + 1 - window + k]
  {
    s[i + 1 - window .. i + 1]
  }

  /** `data['Close'].rolling(window=window).mean()`: one entry per close; the
      entry is missing while fewer than `window` closes are available and is
      otherwise the mean of the trailing `window` closes. */
  function Sma(close: seq<real>, window: nat): (r: seq<Option<real>>)
    requires window >= 1
    ensures |r| == |close|
    ensures forall i :: 0 <= i < |r| ==> (r[i].None? <==> i + 1 < window)
    ensures window > |close| ==> forall i :: 0 <= i < |r| ==> r[i] == None
  {
    seq(|close|, i requires 0 <= i < |close| =>
      if i + 1 < window then None else Some(Mean(Trailing(close, window, i))))
  }

  /** Price movement into bar `i`: `gain` is its positive part and `loss` the
      magnitude of its negative part. `diff()` leaves bar 0 without a
      predecessor (NaN), and `where(cond, 0)` replaces that NaN by 0 as well. */
  function Gains(close: seq<real>): (r: seq<real>)
    ensures |r| == |close|
    ensures forall i :: 0 <= i < |r| ==> r[i] >= 0.0
    ensures forall i :: 0 <= i < |r| ==> (r[i] > 0.0 <==> i >= 1 && close[i] > close[i - 1])
    ensures forall i :: 1 <= i < |r| && r[i] > 0.0 ==> r[i] == close[i] - close[i - 1]
  {
    seq(|close|, i requires 0 <= i < |close| =>
      if i >= 1 && close[i] - close[i - 1] > 0.0 then close[i] - close[i - 1] else 0.0)
  }

  function Losses(close: seq<real>): (r: seq<real>)
    ensures |r| == |close|
    ensures forall i :: 0 <= i < |r| ==> r[i] >= 0.0
    ensures forall i :: 0 <= i < |r| ==> (r[i] > 0.0 <==> i >= 1 && close[i] < close[i - 1])
    ensures forall i :: 1 <= i < |r| && r[i] > 0.0 ==> r[i] == close[i - 1] - close[i]
  {
    seq(|close|, i requires 0 <= i < |close| =>
      if i >= 1 && close[i] - close[i - 1] < 0.0 then -(close[i] - close[i - 1]) else 0.0)
  }

  /** One RSI value from a mean gain `g` and a mean loss `l`, both >= 0. With
      `l > 0` it is `100 - 100 / (1 + g / l)`. With `l == 0` IEEE arithmetic
      turns `g / l` into +inf when `g > 0`, so the value saturates at 100, and
      into NaN when `g == 0`, so the value is missing. */
  function RsiPoint(g: real, l: real): (r: Option<real>)
    requires g >= 0.0 && l >= 0.0
    ensures r.None? <==> g == 0.0 && l == 0.0
    ensures r.Some? ==> r.value == 100.0 * g / (g + l)
    ensures r.Some? ==> 0.0 <= r.value <= 100.0
    ensures l > 0.0 ==> r.Some? && r.value < 100.0 && (r.value == 0.0 <==> g == 0.0)
  {
    if l > 0.0 then
      RsiClosedForm(g, l);
      Some(100.0 - 100.0 / (1.0 + g / l))
    else if g > 0.0 then Some(100.0)
    else None
  }

  /** The textbook form `100 - 100 / (1 + g / l)` equals `100 g / (g + l)`. */
  lemma RsiClosedForm(g: real, l: real)
    requires g >= 0.0 && l > 0.0
    ensures 100.0 - 100.0 / (1.0 + g / l) == 100.0 * g / (g + l)
  {
    // 1 + g/l is (g + l)/l, so 100/(1 + g/l) is 100 l/(g + l) ...
    var d := 1.0 + g / l;
    assert d * l == l + g;
    var y := 100.0 * l / (g + l);
    assert y * d == 100.0;
    assert 100.0 / d == y;
    // ... and 100 l/(g + l) + 100 g/(g + l) is 100.
    assert y + 100.0 * g / (g + l) == (100.0 * l + 100.0 * g) / (g + l) == 100.0;
  }

  /** Trailing means of the gains and of the losses. */
  function AvgGain(close: seq<real>, window: nat): seq<Option<real>>
    requires window >= 1
  {
    Sma(Gains(close), window)
  }

  function AvgLoss(close: seq<real>, window: nat): seq<Option<real>>
    requires window >= 1
  {
    Sma(Losses(close), window)
  }

  /** `calculate_rsi(data, window)`: one entry per close, missing while the
      window is not full, otherwise `RsiPoint` of the two trailing means. */
  function Rsi(close: seq<real>, window: nat): (r: seq<Option<real>>)
    requires window >= 1
    ensures |r| == |close|
    ensures forall i :: 0 <= i < |r| && i + 1 < window ==> r[i] == None
    ensures forall i :: 0 <= i < |r| && r[i].Some? ==> 0.0 <= r[i].value <= 100.0
  {
    var g := AvgGain(close, window);
    var l := AvgLoss(close, window);
    SmaNonNegative(Gains(close), window);
    SmaNonNegative(Losses(close), window);
    seq(|close|, i requires 0 <= i < |close| =>
      if i + 1 < window then None else RsiPoint(g[i].value, l[i].value))
  }

  // ---------------------------------------------------------------------
  // Sums and means

  lemma {:induction false} SumFront(s: seq<real>)
    requires |s| > 0
    ensures Sum(s) == s[0] + Sum(s[1..])
    decreases |s|
  {
    if |s| > 1 {
      SumFront(s[..|s| - 1]);
      assert s[..|s| - 1][1..] == s[1..][..|s| - 2];
    }
  }

  lemma {:induction false} SumAtLeast(s: seq<real>, lo: real)
    requires forall k :: 0 <= k < |s| ==> lo <= s[k]
    ensures Sum(s) >= lo * (|s| as real)
    decreases |s|
  {
    if |s| > 0 {
      SumAtLeast(s[..|s| - 1], lo);
    }
  }

  lemma {:induction false} SumAtMost(s: seq<real>, hi: real)
    requires forall k :: 0 <= k < |s| ==> s[k] <= hi
    ensures Sum(s) <= hi * (|s| as real)
    decreases |s|
  {
    if |s| > 0 {
      SumAtMost(s[..|s| - 1], hi);
    }
  }

  /** A sum of non-negative values is zero exactly when every value is. */
  lemma {:induction false} SumZeroIff(s: seq<real>)
    requires forall k :: 0 <= k < |s| ==> s[k] >= 0.0
    ensures Sum(s) >= 0.0
    ensures Sum(s) == 0.0 <==> forall k :: 0 <= k < |s| ==> s[k] == 0.0
    decreases |s|
  {
    if |s| > 0 {
      var init := s[..|s| - 1];
      SumZeroIff(init);
      if Sum(s) == 0.0 {
        forall k | 0 <= k < |s| ensures s[k] == 0.0 {
          if k < |s| - 1 { assert s[k] == init[k]; }
        }
      }
    }
  }

  /** A mean of non-negative values is zero exactly when every value is. */
  lemma MeanZeroIff(s: seq<real>)
    requires |s| > 0
    requires forall k :: 0 <= k < |s| ==> s[k] >= 0.0
    ensures Mean(s) >= 0.0
    ensures Mean(s) == 0.0 <==> forall k :: 0 <= k < |s| ==> s[k] == 0.0
  {
    SumZeroIff(s);
  }

  /** Every mean lies between the least and the greatest value averaged. */
  lemma MeanWithin(s: seq<real>, lo: real, hi: real)
    requires |s| > 0
    requires forall k :: 0 <= k < |s| ==> lo <= s[k] <= hi
    ensures lo <= Mean(s) <= hi
  {
    SumAtLeast(s, lo);
    SumAtMost(s, hi);
    var n := |s| as real;
    assert Sum(s) / n >= lo * n / n;
    assert Sum(s) / n <= hi * n / n;
  }

  // ---------------------------------------------------------------------
  // Simple moving average

  /** Unfolds entry `i` of `Sma` once the window is full. */
  lemma SmaAt(close: seq<real>, window: nat, i: nat)
    requires 1 <= window <= i + 1 <= |close|
    ensures Sma(close, window)[i] == Some(Mean(close[i + 1 - window .. i + 1]))
  {
  }

  /** The sum of a concatenation is the sum of its parts. */
  lemma {:induction false} SumAppend(a: seq<real>, b: seq<real>)
    ensures Sum(a + b) == Sum(a) + Sum(b)
    decreases |b|
  {
    if |b| == 0 {
      assert a + b == a;
    } else {
      assert (a + b)[..|a + b| - 1] == a + b[..|b| - 1];
      SumAppend(a, b[..|b| - 1]);
    }
  }

  /** Once the window is full, `window` times the SMA entry is the difference
      of two running sums of the closes: everything up to bar `i` minus
      everything before the window. */
  lemma SmaRollingSum(close: seq<real>, window: nat, i: nat)
    requires 1 <= window <= i + 1 <= |close|
    ensures Sma(close, window)[i].Some?
    ensures Sma(close, window)[i].value * (window as real)
         == Sum(close[..i + 1]) - Sum(close[..i + 1 - window])
  {
    var before, inside := close[..i + 1 - window], close[i + 1 - window .. i + 1];
    assert close[..i + 1] == before + inside;
    SumAppend(before, inside);
    SmaAt(close, window, i);
    DivTimes(Sum(inside), window as real);
  }

  /** An SMA value lies between the least and greatest close of its window. */
  lemma SmaWithin(close: seq<real>, window: nat, i: nat, lo: real, hi: real)
    requires 1 <= window <= i + 1 <= |close|
    requires forall j :: i + 1 - window <= j <= i ==> lo <= close[j] <= hi
    ensures Sma(close, window)[i].Some?
    ensures lo <= Sma(close, window)[i].value <= hi
  {
    var t := Trailing(close, window, i);
    MeanWithin(t, lo, hi);
  }

  lemma SmaNonNegative(s: seq<real>, window: nat)
    requires window >= 1
    requires forall k :: 0 <= k < |s| ==> s[k] >= 0.0
    ensures forall i :: 0 <= i < |s| && Sma(s, window)[i].Some? ==> Sma(s, window)[i].value >= 0.0
  {
    forall i | 0 <= i < |s| && Sma(s, window)[i].Some?
      ensures Sma(s, window)[i].value >= 0.0
    {
      var t := Trailing(s, window, i);
      SumZeroIff(t);
    }
  }

  /** Locality: entry `i` depends only on the `window` closes ending at `i`. */
  lemma SmaLocal(a: seq<real>, b: seq<real>, window: nat, i: nat)
    requires window >= 1 && |a| == |b| && i < |a|
    requires forall j :: i + 1 - window <= j <= i && 0 <= j ==> a[j] == b[j]
    ensures Sma(a, window)[i] == Sma(b, window)[i]
  {
    if i + 1 >= window {
      assert Trailing(a, window, i) == Trailing(b, window, i);
    }
  }

  /** The rolling update: moving the window one bar on adds the new close and
      drops the oldest one. */
  lemma SmaSlide(close: seq<real>, window: nat, i: nat)
    requires 1 <= window <= i < |close|
    ensures Sma(close, window)[i].value * (window as real)
         == Sma(close, window)[i - 1].value * (window as real) + close[i] - close[i - window]
  {
    var w := window as real;
    var prev := close[i - window .. i];
    var next := close[i + 1 - window .. i + 1];
    SumFront(prev);
    assert prev[1..] == next[..window - 1];
    assert Sum(next) == Sum(next[..window - 1]) + close[i];
    SmaAt(close, window, i);
    SmaAt(close, window, i - 1);
    DivTimes(Sum(next), w);
    DivTimes(Sum(prev), w);
  }

  lemma DivTimes(x: real, w: real)
    requires w > 0.0
    ensures x / w * w == x
  {
  }

  // ---------------------------------------------------------------------
  // Relative strength index

  /** Gains and losses split each price movement: both are non-negative, at
      most one is non-zero, their difference is the movement, and both are
      zero at the first bar. */
  lemma GainLossSplit(close: seq<real>, i: nat)
    requires i < |close|
    ensures Gains(close)[i] >= 0.0 && Losses(close)[i] >= 0.0
    ensures Gains(close)[i] == 0.0 || Losses(close)[i] == 0.0
    ensures i == 0 ==> Gains(close)[i] == 0.0 && Losses(close)[i] == 0.0
    ensures i >= 1 ==> Gains(close)[i] - Losses(close)[i] == close[i] - close[i - 1]
  {
  }

  /** Once the window is full, the RSI entry is `RsiPoint` of the trailing
      mean gain and mean loss, so it is defined and below 100 whenever the
      mean loss is positive, and 0 exactly when the mean gain is 0. */
  lemma RsiCases(close: seq<real>, window: nat, i: nat)
    requires 1 <= window <= i + 1 <= |close|
    ensures AvgGain(close, window)[i].Some? && AvgLoss(close, window)[i].Some?
    ensures var g, l := AvgGain(close, window)[i].value, AvgLoss(close, window)[i].value;
      && g >= 0.0 && l >= 0.0
      && Rsi(close, window)[i] == RsiPoint(g, l)
      && (l > 0.0 ==> Rsi(close, window)[i].Some?
                      && 0.0 <= Rsi(close, window)[i].value < 100.0
                      && (Rsi(close, window)[i].value == 0.0 <==> g == 0.0))
      && (l == 0.0 && g > 0.0 ==> Rsi(close, window)[i] == Some(100.0))
      && (l == 0.0 && g == 0.0 ==> Rsi(close, window)[i] == None)
  {
    SmaNonNegative(Gains(close), window);
    SmaNonNegative(Losses(close), window);
  }

  /** The mean gain over the window ending at `i` is zero exactly when the
      close never rose within that window. */
  lemma {:induction false} AvgGainZeroIff(close: seq<real>, window: nat, i: nat)
    requires 1 <= window <= i + 1 <= |close|
    ensures AvgGain(close, window)[i].Some?
    ensures AvgGain(close, window)[i].value == 0.0
        <==> forall j :: i + 1 - window <= j <= i && 1 <= j ==> close[j] <= close[j - 1]
  {
    var gs, lo := Gains(close), i + 1 - window;
    var t := Trailing(gs, window, i);
    MeanZeroIff(t);
    assert AvgGain(close, window)[i] == Some(Mean(t));
    if forall k :: 0 <= k < window ==> t[k] == 0.0 {
      forall j | lo <= j <= i && 1 <= j ensures close[j] <= close[j - 1] {
        assert t[j - lo] == gs[j];
      }
    } else {
      var k :| 0 <= k < window && t[k] != 0.0;
      assert gs[lo + k] > 0.0;
    }
  }

  /** The mean loss over the window ending at `i` is zero exactly when the
      close never fell within that window. */
  lemma {:induction false} AvgLossZeroIff(close: seq<real>, window: nat, i: nat)
    requires 1 <= window <= i + 1 <= |close|
    ensures AvgLoss(close, window)[i].Some?
    ensures AvgLoss(close, window)[i].value == 0.0
        <==> forall j :: i + 1 - window <= j <= i && 1 <= j ==> close[j] >= close[j - 1]
  {
    var ls, lo := Losses(close), i + 1 - window;
    var t := Trailing(ls, window, i);
    MeanZeroIff(t);
    assert AvgLoss(close, window)[i] == Some(Mean(t));
    if forall k :: 0 <= k < window ==> t[k] == 0.0 {
      forall j | lo <= j <= i && 1 <= j ensures close[j] >= close[j - 1] {
        assert t[j - lo] == ls[j];
      }
    } else {
      var k :| 0 <= k < window && t[k] != 0.0;
      assert ls[lo + k] > 0.0;
    }
  }

  /** Once the window is full, the RSI is missing exactly when the close did
      not move at all within the window (NaN from 0/0). */
  lemma RsiMissingIffFlat(close: seq<real>, window: nat, i: nat)
    requires 1 <= window <= i + 1 <= |close|
    ensures Rsi(close, window)[i] == None
        <==> forall j :: i + 1 - window <= j <= i && 1 <= j ==> close[j] == close[j - 1]
  {
    RsiCases(close, window, i);
    AvgGainZeroIff(close, window, i);
    AvgLossZeroIff(close, window, i);
  }

  /** Once the window is full, the RSI is 100 exactly when the close never
      fell within the window but rose at least once. */
  lemma RsiHundredIff(close: seq<real>, window: nat, i: nat)
    requires 1 <= window <= i + 1 <= |close|
    ensures Rsi(close, window)[i] == Some(100.0)
        <==> (forall j :: i + 1 - window <= j <= i && 1 <= j ==> close[j] >= close[j - 1])
             && (exists j :: i + 1 - window <= j <= i && 1 <= j && close[j] > close[j - 1])
  {
    RsiCases(close, window, i);
    AvgGainZeroIff(close, window, i);
    AvgLossZeroIff(close, window, i);
  }

  /** Once the window is full, the RSI is 0 exactly when the close fell
      within the window and never rose. */
  lemma RsiZeroIff(close: seq<real>, window: nat, i: nat)
    requires 1 <= window <= i + 1 <= |close|
    ensures Rsi(close, window)[i] == Some(0.0)
        <==> (forall j :: i + 1 - window <= j <= i && 1 <= j ==> close[j] <= close[j - 1])
             && (exists j :: i + 1 - window <= j <= i && 1 <= j && close[j] < close[j - 1])
  {
    RsiCases(close, window, i);
    AvgGainZeroIff(close, window, i);
    AvgLossZeroIff(close, window, i);
  }
}
