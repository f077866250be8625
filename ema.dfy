/** The exponential moving average that pandas computes for
    `Series.ewm(span=p, adjust=False).mean()` on a closing-price series.
    Prices are exact reals: floating-point rounding is not modelled. */
module MovingAverage {

  /** Smoothing factor of a span: alpha = 2 / (span + 1). */
  function Alpha(span: int): (a: real)
    requires span >= 1
    ensures 0.0 < a <= 1.0
    ensures a == 1.0 <==> span == 1
  {
    2.0 / (span as real + 1.0)
  }

  /** One smoothing step: weight `a` on the new price, `1 - a` on the previous average. */
  function Blend(a: real, price: real, prev: real): real
  {
    a * price + (1.0 - a) * prev
  }

  /** The `adjust=False` EMA: seeded with the first price, then every later
      point blends the new price (weight alpha) with the previous average.
      Defined on prefixes, so that the last point is the newest one. */
  function Ema(close: seq<real>, span: int): (ema: seq<real>)
    requires span >= 1
    ensures |ema| == |close|
    decreases |close|
  {
    if |close| <= 1 then close
    else
      var prev := Ema(close[..|close| - 1], span);
      prev + [Blend(Alpha(span), close[|close| - 1], prev[|prev| - 1])]
  }

  /** Independent, pointwise statement of the recurrence: `ema` has one value
      per price, starts at the first price, and obeys the blend at every later index. */
  ghost predicate IsAdjustFalseEma(close: seq<real>, span: int, ema: seq<real>)
    requires span >= 1
  {
    |ema| == |close| &&
    (|close| > 0 ==> ema[0] == close[0]) &&
    forall i :: 0 < i < |close| ==>
      ema[i] == Blend(Alpha(span), close[i], ema[i - 1])
  }

  /** Smallest price of a non-empty series. */
  function SeqMin(s: seq<real>): (m: real)
    requires |s| > 0
    ensures m in s
    ensures forall k :: 0 <= k < |s| ==> m <= s[k]
    decreases |s|
  {
    if |s| == 1 then s[0]
    else
      var rest := SeqMin(s[..|s| - 1]);
      if s[|s| - 1] < rest then s[|s| - 1] else rest
  }

  /** Largest price of a non-empty series. */
  function SeqMax(s: seq<real>): (m: real)
    requires |s| > 0
    ensures m in s
    ensures forall k :: 0 <= k < |s| ==> s[k] <= m
    decreases |s|
  {
    if |s| == 1 then s[0]
    else
      var rest := SeqMax(s[..|s| - 1]);
      if s[|s| - 1] > rest then s[|s| - 1] else rest
  }

  /** The EMA is causal: its first n points depend only on the first n prices. */
  lemma {:induction false} EmaPrefix(close: seq<real>, span: int, n: nat)
    requires span >= 1
    requires n <= |close|
    ensures Ema(close[..n], span) == Ema(close, span)[..n]
    decreases |close|
  {
    if n == |close| {
      assert close[..n] == close;
    } else if |close| > 1 {
      var init := close[..|close| - 1];
      EmaPrefix(init, span, n);
      assert init[..n] == close[..n];
    }
  }

  /** Both EMA series start at the first closing price. */
  lemma {:induction false} EmaSeed(close: seq<real>, span: int)
    requires span >= 1
    requires |close| >= 1
    ensures Ema(close, span)[0] == close[0]
  {
    EmaPrefix(close, span, 1);
    assert Ema(close[..1], span) == close[..1];
  }

  /** Every later point is alpha * price + (1 - alpha) * previous point. */
  lemma {:induction false} EmaRecurrence(close: seq<real>, span: int, i: nat)
    requires span >= 1
    requires 0 < i < |close|
    ensures Ema(close, span)[i]
         == Blend(Alpha(span), close[i], Ema(close, span)[i - 1])
  {
    var pre := close[..i + 1];
    EmaPrefix(close, span, i + 1);
    EmaPrefix(close, span, i);
    assert pre[..|pre| - 1] == close[..i];
    assert pre[|pre| - 1] == close[i];
  }

  /** Ema meets the pointwise statement of the recurrence. */
  lemma EmaIsAdjustFalse(close: seq<real>, span: int)
    requires span >= 1
    ensures IsAdjustFalseEma(close, span, Ema(close, span))
  {
    if |close| > 0 {
      EmaSeed(close, span);
    }
    forall i | 0 < i < |close|
      ensures Ema(close, span)[i]
           == Blend(Alpha(span), close[i], Ema(close, span)[i - 1])
    {
      EmaRecurrence(close, span, i);
    }
  }

  lemma {:induction false} EmaUniqueAt(close: seq<real>, span: int, ema: seq<real>, i: nat)
    requires span >= 1
    requires IsAdjustFalseEma(close, span, ema)
    requires i < |close|
    ensures ema[i] == Ema(close, span)[i]
  {
    if i == 0 {
      EmaSeed(close, span);
    } else {
      EmaUniqueAt(close, span, ema, i - 1);
      EmaRecurrence(close, span, i);
    }
  }

  /** The recurrence determines the series: any series obeying it is Ema. */
  lemma EmaUnique(close: seq<real>, span: int, ema: seq<real>)
    requires span >= 1
    requires IsAdjustFalseEma(close, span, ema)
    ensures ema == Ema(close, span)
  {
    forall i | 0 <= i < |close| ensures ema[i] == Ema(close, span)[i] {
      EmaUniqueAt(close, span, ema, i);
    }
  }

  /** A convex combination of two values in [lo, hi] stays in [lo, hi]. */
  lemma BlendWithin(a: real, x: real, y: real, lo: real, hi: real)
    requires 0.0 < a <= 1.0
    requires lo <= x <= hi && lo <= y <= hi
    ensures lo <= Blend(a, x, y) <= hi
  {
    ProductNonnegative(a, x - lo);
    ProductNonnegative(a, hi - x);
    ProductNonnegative(1.0 - a, y - lo);
    ProductNonnegative(1.0 - a, hi - y);
    var z := Blend(a, x, y);
    assert z - lo == a * (x - lo) + (1.0 - a) * (y - lo);
    assert hi - z == a * (hi - x) + (1.0 - a) * (hi - y);
  }

  lemma ProductNonnegative(p: real, q: real)
    requires 0.0 <= p && 0.0 <= q
    ensures 0.0 <= p * q
  {
  }

  /** The newest EMA point blends the newest price with the previous point. */
  lemma EmaLast(close: seq<real>, span: int)
    requires span >= 1
    requires |close| > 1
    ensures Ema(close, span)[|close| - 1]
         == Blend(Alpha(span), close[|close| - 1], Ema(close[..|close| - 1], span)[|close| - 2])
  {
  }

  lemma RangeWidens(s: seq<real>)
    requires |s| > 1
    ensures SeqMin(s) <= SeqMin(s[..|s| - 1]) && SeqMin(s) <= s[|s| - 1]
    ensures SeqMax(s[..|s| - 1]) <= SeqMax(s) && s[|s| - 1] <= SeqMax(s)
  {
  }

  lemma {:induction false} EmaLastWithin(close: seq<real>, span: int)
    requires span >= 1
    requires |close| >= 1
    ensures SeqMin(close) <= Ema(close, span)[|close| - 1] <= SeqMax(close)
    decreases |close|
  {
    if |close| > 1 {
      var init := close[..|close| - 1];
      EmaLast(close, span);
      EmaLastWithin(init, span);
      RangeWidens(close);
      var prev := Ema(init, span)[|close| - 2];
      assert prev == Ema(init, span)[|init| - 1];
      BlendWithin(Alpha(span), close[|close| - 1], prev, SeqMin(close), SeqMax(close));
    }
  }

  /** Every EMA point lies between the smallest and the largest price seen so far. */
  lemma EmaWithinRange(close: seq<real>, span: int, i: nat)
    requires span >= 1
    requires i < |close|
    ensures SeqMin(close[..i + 1]) <= Ema(close, span)[i] <= SeqMax(close[..i + 1])
  {
    EmaPrefix(close, span, i + 1);
    EmaLastWithin(close[..i + 1], span);
  }

  /** A constant price series has the EMA equal to that constant everywhere. */
  lemma EmaOfConstant(close: seq<real>, span: int, v: real)
    requires span >= 1
    requires forall k :: 0 <= k < |close| ==> close[k] == v
    ensures forall k :: 0 <= k < |close| ==> Ema(close, span)[k] == v
  {
    forall k | 0 <= k < |close| ensures Ema(close, span)[k] == v {
      EmaWithinRange(close, span, k);
      var pre := close[..k + 1];
      assert SeqMin(pre) == v by { assert SeqMin(pre) in pre; }
      assert SeqMax(pre) == v by { assert SeqMax(pre) in pre; }
    }
  }

  /** With span 1 (alpha = 1) the EMA reproduces the price series. */
  lemma {:induction false} EmaSpanOne(close: seq<real>)
    ensures Ema(close, 1) == close
    decreases |close|
  {
    if |close| > 1 {
      var init := close[..|close| - 1];
      EmaSpanOne(init);
      var e := Ema(close, 1);
      assert e[..|init|] == Ema(init, 1) == init;
      assert Alpha(1) == 1.0;
      assert e[|init|] == Blend(Alpha(1), close[|init|], init[|init| - 1]);
      assert e[|init|] == close[|init|];
      assert e == e[..|init|] + [e[|init|]];
      assert close == init + [close[|init|]];
    }
  }
}
