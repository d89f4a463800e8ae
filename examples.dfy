/** Worked values: the RSI of a ten-bar series with a five-bar window, and
    the headline metrics of a two-bar table. */
module Examples {
  import opened Common
  import opened Indicators
  import opened Snapshot

  const Closes: seq<real> := [44.0, 44.5, 43.0, 45.0, 45.5, 45.0, 46.0, 45.5, 46.5, 46.25]

  /** Over bars 5 to 9 the gains are 0, 1, 0, 1, 0 (mean 0.4) and the losses
      0.5, 0, 0.5, 0, 0.25 (mean 0.25), so RS = 1.6 and RSI = 800/13. */
  lemma RsiOfTenBars()
    ensures Rsi(Closes, 5)[9] == Some(800.0 / 13.0)
  {
    var g, l := Trailing(Gains(Closes), 5, 9), Trailing(Losses(Closes), 5, 9);
    LastWindow();
    SumOfFive(g);
    SumOfFive(l);
    SmaAt(Gains(Closes), 5, 9);
    SmaAt(Losses(Closes), 5, 9);
    RsiCases(Closes, 5, 9);
    assert RsiPoint(0.4, 0.25) == Some(800.0 / 13.0);
  }

  lemma LastWindow()
    ensures Trailing(Gains(Closes), 5, 9) == [0.0, 1.0, 0.0, 1.0, 0.0]
    ensures Trailing(Losses(Closes), 5, 9) == [0.5, 0.0, 0.5, 0.0, 0.25]
  {
  }

  lemma SumOfFive(s: seq<real>)
    requires |s| == 5
    ensures Sum(s) == s[0] + s[1] + s[2] + s[3] + s[4]
  {
    assert s[..1][..0] == [];
    assert Sum(s[..1]) == s[0];
    assert s[..2][..1] == s[..1];
    assert Sum(s[..2]) == s[0] + s[1];
    assert s[..3][..2] == s[..2];
    assert Sum(s[..3]) == s[0] + s[1] + s[2];
    assert s[..4][..3] == s[..3];
    assert Sum(s[..4]) == s[0] + s[1] + s[2] + s[3];
    assert s[..5] == s;
  }

  /** A close of 100 followed by 110 is a change of 10, or 10 percent. */
  method TwoBarHeadline() returns (m: Metrics)
    ensures m.change == 10.0 && m.changePct == Some(10.0)
    ensures m.dayHigh == 112.0 && m.dayLow == 98.0
  {
    var high, low := [101.0, 112.0], [98.0, 105.0];
    var r := Headline([100.0, 110.0], high, low);
    m := r.value;
    assert high[0] == 101.0 && high[1] == 112.0;
    assert low[0] == 98.0 && low[1] == 105.0;
  }
}
