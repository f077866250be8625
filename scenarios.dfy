/** Two worked price series and the signals they give. */
module SignalScenarios {
  import opened MovingAverage
  import opened TrendSignals

  /** A flat price series never turns bullish and gives no events. */
  lemma FlatPrices()
    ensures Ema([10.0, 10.0, 10.0, 10.0, 10.0], 2) == [10.0, 10.0, 10.0, 10.0, 10.0]
    ensures Ema([10.0, 10.0, 10.0, 10.0, 10.0], 3) == [10.0, 10.0, 10.0, 10.0, 10.0]
    ensures Trend([10.0, 10.0, 10.0, 10.0, 10.0], 2, 3) == [0.0, 0.0, 0.0, 0.0, 0.0]
    ensures Signals([10.0, 10.0, 10.0, 10.0, 10.0], 2, 3) == [NoEvent, NoEvent, NoEvent, NoEvent, NoEvent]
  {
    var close := [10.0, 10.0, 10.0, 10.0, 10.0];
    EmaOfConstant(close, 2, 10.0);
    EmaOfConstant(close, 3, 10.0);
    assert Ema(close, 2) == close;
    assert Ema(close, 3) == close;
  }

  /** Short EMA (span 2, alpha 2/3) of a steadily rising series. */
  lemma RisingShortEma()
    ensures Ema([1.0, 2.0, 3.0, 4.0, 5.0], 2) == [1.0, 5.0 / 3.0, 23.0 / 9.0, 95.0 / 27.0, 365.0 / 81.0]
  {
    var short := [1.0, 5.0 / 3.0, 23.0 / 9.0, 95.0 / 27.0, 365.0 / 81.0];
    assert Alpha(2) == 2.0 / 3.0;
    assert IsAdjustFalseEma([1.0, 2.0, 3.0, 4.0, 5.0], 2, short);
    EmaUnique([1.0, 2.0, 3.0, 4.0, 5.0], 2, short);
  }

  /** Long EMA (span 4, alpha 2/5) of the same series. */
  lemma RisingLongEma()
    ensures Ema([1.0, 2.0, 3.0, 4.0, 5.0], 4) == [1.0, 1.4, 2.04, 2.824, 3.6944]
  {
    var long := [1.0, 1.4, 2.04, 2.824, 3.6944];
    assert Alpha(4) == 0.4;
    assert IsAdjustFalseEma([1.0, 2.0, 3.0, 4.0, 5.0], 4, long);
    EmaUnique([1.0, 2.0, 3.0, 4.0, 5.0], 4, long);
  }

  /** On the rising series the short EMA moves above the long one at index 1
      and stays there: exactly one event, a Buy at index 1. */
  lemma RisingPrices()
    ensures Trend([1.0, 2.0, 3.0, 4.0, 5.0], 2, 4) == [0.0, 1.0, 1.0, 1.0, 1.0]
    ensures Signals([1.0, 2.0, 3.0, 4.0, 5.0], 2, 4) == [NoEvent, Buy, NoEvent, NoEvent, NoEvent]
  {
    RisingShortEma();
    RisingLongEma();
    var trend := Trend([1.0, 2.0, 3.0, 4.0, 5.0], 2, 4);
    assert trend == [0.0, 1.0, 1.0, 1.0, 1.0];
    var events := Crossover(trend);
    assert events == [NoEvent, Buy, NoEvent, NoEvent, NoEvent];
  }
}
