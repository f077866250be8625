/** The trend flag and the crossover events derived from the two EMAs:
    `bullish` is 1.0 where the short EMA is strictly above the long one and
    0.0 elsewhere (a `np.where`), and `crossover` is the first difference
    of that flag, read as an event tag per index. */
module TrendSignals {
  import opened MovingAverage

  /** What the first difference of the flag means at one index: +1 is a Buy,
      -1 a Sell, anything else (0, or the missing value at index 0) no event. */
  datatype Event = NoEvent | Buy | Sell

  /** A series that holds only the values 0.0 and 1.0. */
  predicate IsFlags(s: seq<real>)
  {
    forall i :: 0 <= i < |s| ==> s[i] == 0.0 || s[i] == 1.0
  }

  /** `np.where(short > long, 1.0, 0.0)`: ties count as not bullish. */
  function Bullish(short: seq<real>, long: seq<real>): (flags: seq<real>)
    requires |short| == |long|
    ensures |flags| == |short|
    ensures IsFlags(flags)
    ensures forall i :: 0 <= i < |flags| ==> (flags[i] == 1.0 <==> short[i] > long[i])
  {
    seq(|short|, i requires 0 <= i < |short| => if short[i] > long[i] then 1.0 else 0.0)
  }

  /** Reads one value of the first difference as an event. */
  function Tag(d: real): Event
  {
    if d == 1.0 then Buy else if d == -1.0 then Sell else NoEvent
  }

  /** `flags.diff()` read as events: index 0 has no predecessor (the
      difference is missing there), every later index compares with the one before. */
  function Crossover(flags: seq<real>): (events: seq<Event>)
    ensures |events| == |flags|
    ensures |flags| > 0 ==> events[0] == NoEvent
  {
    seq(|flags|, i requires 0 <= i < |flags| => if i == 0 then NoEvent else Tag(flags[i] - flags[i - 1]))
  }

  /** The trend flag of a price series for two spans. */
  function Trend(close: seq<real>, shortSpan: int, longSpan: int): seq<real>
    requires shortSpan >= 1 && longSpan >= 1
  {
    Bullish(Ema(close, shortSpan), Ema(close, longSpan))
  }

  /** The crossover events of a price series for two spans. */
  function Signals(close: seq<real>, shortSpan: int, longSpan: int): seq<Event>
    requires shortSpan >= 1 && longSpan >= 1
  {
    Crossover(Trend(close, shortSpan, longSpan))
  }

  /** Number of occurrences of `e`, counted over prefixes. */
  function Count(events: seq<Event>, e: Event): (n: nat)
    ensures n <= |events|
    decreases |events|
  {
    if |events| == 0 then 0
    else Count(events[..|events| - 1], e) + (if events[|events| - 1] == e then 1 else 0)
  }

  /** On a flag series, Buy is exactly a 0 -> 1 step, Sell exactly a 1 -> 0
      step, and no event exactly an unchanged flag. */
  lemma CrossoverTransitions(flags: seq<real>, i: nat)
    requires IsFlags(flags)
    requires 0 < i < |flags|
    ensures Crossover(flags)[i] == Buy <==> flags[i - 1] == 0.0 && flags[i] == 1.0
    ensures Crossover(flags)[i] == Sell <==> flags[i - 1] == 1.0 && flags[i] == 0.0
    ensures Crossover(flags)[i] == NoEvent <==> flags[i] == flags[i - 1]
  {
  }

  /** Both EMAs start at the first price, so the trend starts not bullish. */
  lemma TrendStartsFlat(close: seq<real>, shortSpan: int, longSpan: int)
    requires shortSpan >= 1 && longSpan >= 1
    requires |close| >= 1
    ensures Trend(close, shortSpan, longSpan)[0] == 0.0
  {
    EmaSeed(close, shortSpan);
    EmaSeed(close, longSpan);
  }

  /** Between two indices with no event after the first, the flag is unchanged. */
  lemma {:induction false} FlagHeld(flags: seq<real>, i: nat, j: nat)
    requires IsFlags(flags)
    requires i <= j < |flags|
    requires forall k :: i < k <= j ==> Crossover(flags)[k] == NoEvent
    ensures flags[j] == flags[i]
    decreases j - i
  {
    if i < j {
      FlagHeld(flags, i, j - 1);
      CrossoverTransitions(flags, j);
    }
  }

  /** Consecutive events have opposite directions. */
  lemma EventsAlternate(flags: seq<real>, i: nat, j: nat)
    requires IsFlags(flags)
    requires i < j < |flags|
    requires Crossover(flags)[i] != NoEvent && Crossover(flags)[j] != NoEvent
    requires forall k :: i < k < j ==> Crossover(flags)[k] == NoEvent
    ensures Crossover(flags)[i] != Crossover(flags)[j]
  {
    FlagHeld(flags, i, j - 1);
    CrossoverTransitions(flags, i);
    CrossoverTransitions(flags, j);
  }

  /** When the flag starts at 0, the first event is a Buy. */
  lemma FirstEventIsBuy(flags: seq<real>, j: nat)
    requires IsFlags(flags)
    requires j < |flags| && flags[0] == 0.0
    requires Crossover(flags)[j] != NoEvent
    requires forall k :: 0 <= k < j ==> Crossover(flags)[k] == NoEvent
    ensures Crossover(flags)[j] == Buy
  {
    FlagHeld(flags, 0, j - 1);
    CrossoverTransitions(flags, j);
  }

  /** When the flag starts at 0, Buys minus Sells up to any index is the flag there:
      every Sell closes a Buy before it, and at most one Buy is open. */
  lemma {:induction false} EventBalance(flags: seq<real>, n: nat)
    requires IsFlags(flags)
    requires 1 <= n <= |flags| && flags[0] == 0.0
    ensures Count(Crossover(flags)[..n], Buy) as real - Count(Crossover(flags)[..n], Sell) as real == flags[n - 1]
  {
    var c := Crossover(flags);
    if n > 1 {
      EventBalance(flags, n - 1);
      assert c[..n][..n - 1] == c[..n - 1];
      CrossoverTransitions(flags, n - 1);
    }
  }

  lemma {:induction false} CountsPartition(events: seq<Event>)
    ensures Count(events, Buy) + Count(events, Sell) + Count(events, NoEvent) == |events|
    decreases |events|
  {
    if |events| > 0 {
      CountsPartition(events[..|events| - 1]);
    }
  }

  lemma {:induction false} CountOfPresent(events: seq<Event>, i: nat)
    requires i < |events|
    ensures Count(events, events[i]) >= 1
    decreases |events|
  {
    if i < |events| - 1 {
      CountOfPresent(events[..|events| - 1], i);
    }
  }

  /** Index 0 never carries an event, so there are at most |close| - 1 events. */
  lemma SignalCountBound(close: seq<real>, shortSpan: int, longSpan: int)
    requires shortSpan >= 1 && longSpan >= 1
    requires |close| >= 1
    ensures |Signals(close, shortSpan, longSpan)| == |close|
    ensures Count(Signals(close, shortSpan, longSpan), Buy)
          + Count(Signals(close, shortSpan, longSpan), Sell) <= |close| - 1
  {
    var c := Signals(close, shortSpan, longSpan);
    CountsPartition(c);
    CountOfPresent(c, 0);
  }

  /** In the signals of a price series, the first event, if any, is a Buy. */
  lemma SignalsStartWithBuy(close: seq<real>, shortSpan: int, longSpan: int, j: nat)
    requires shortSpan >= 1 && longSpan >= 1
    requires j < |close|
    requires Signals(close, shortSpan, longSpan)[j] != NoEvent
    requires forall k :: 0 <= k < j ==> Signals(close, shortSpan, longSpan)[k] == NoEvent
    ensures Signals(close, shortSpan, longSpan)[j] == Buy
  {
    TrendStartsFlat(close, shortSpan, longSpan);
    FirstEventIsBuy(Trend(close, shortSpan, longSpan), j);
  }

  /** In the signals of a price series, Buys minus Sells up to index n - 1 is
      the trend flag there (so it is always 0 or 1). */
  lemma SignalsBalance(close: seq<real>, shortSpan: int, longSpan: int, n: nat)
    requires shortSpan >= 1 && longSpan >= 1
    requires 1 <= n <= |close|
    ensures Count(Signals(close, shortSpan, longSpan)[..n], Buy) as real
          - Count(Signals(close, shortSpan, longSpan)[..n], Sell) as real
         == Trend(close, shortSpan, longSpan)[n - 1]
  {
    TrendStartsFlat(close, shortSpan, longSpan);
    EventBalance(Trend(close, shortSpan, longSpan), n);
  }
}
