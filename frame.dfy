/** The price table the program works on: named columns of one value per
    trading day, with the closing prices under "Close". `CalculateEma`
    writes the four signal columns into the table in place. */
module StockFrame {
  import opened MovingAverage
  import opened TrendSignals

  /** One column of the table: numbers, or the crossover events. */
  datatype Column = Values(values: seq<real>) | Events(events: seq<Event>) {
    /** Number of rows in the column. */
    function Length(): nat {
      match this
      case Values(v) => |v|
      case Events(e) => |e|
    }
  }

  const Close: string := "Close"
  const EmaShortColumn: string := "ema_short"
  const EmaLongColumn: string := "ema_long"
  const BullishColumn: string := "bullish"
  const CrossoverColumn: string := "crossover"

  /** Spans used when the caller gives none. */
  const DefaultShortSpan: int := 5
  const DefaultLongSpan: int := 13

  /** A table pandas can hold: a numeric "Close" column, and every column
      on the same index, so as long as "Close". */
  predicate Aligned(columns: map<string, Column>)
  {
    Close in columns && columns[Close].Values? &&
    forall name :: name in columns ==> columns[name].Length() == |columns[Close].values|
  }

  /** The four columns that `CalculateEma` derives from the closing prices. */
  function SignalColumns(close: seq<real>, shortSpan: int, longSpan: int): (cols: map<string, Column>)
    requires shortSpan >= 1 && longSpan >= 1
    ensures cols.Keys == {EmaShortColumn, EmaLongColumn, BullishColumn, CrossoverColumn}
    ensures Close !in cols
    ensures cols[EmaShortColumn].Values? && |cols[EmaShortColumn].values| == |close|
    ensures cols[EmaLongColumn].Values? && |cols[EmaLongColumn].values| == |close|
    ensures cols[BullishColumn].Values? && |cols[BullishColumn].values| == |close|
    ensures cols[CrossoverColumn].Events? && |cols[CrossoverColumn].events| == |close|
  {
    var emaShort := Ema(close, shortSpan);
    var emaLong := Ema(close, longSpan);
    var bullish := Bullish(emaShort, emaLong);
    map[EmaShortColumn := Values(emaShort),
        EmaLongColumn := Values(emaLong),
        BullishColumn := Values(bullish),
        CrossoverColumn := Events(Crossover(bullish))]
  }

  class DataFrame {
    var columns: map<string, Column>

    /** The table holds a numeric closing-price column. */
    predicate HasClose()
      reads this
    {
      Close in columns && columns[Close].Values?
    }

    function ClosePrices(): seq<real>
      reads this
      requires HasClose()
    {
      columns[Close].values
    }

    /** Every column sits on the index of the closing prices. */
    predicate Valid()
      reads this
    {
      Aligned(columns)
    }

    constructor (columns: map<string, Column>)
      requires Aligned(columns)
      ensures Valid()
      ensures this.columns == columns
    {
      this.columns := columns;
    }

    /** Adds (or overwrites) the columns ema_short, ema_long, bullish and
        crossover, computed from the closing prices; every other column,
        "Close" included, is left as it was. */
    method CalculateEma(shortSpan: int := DefaultShortSpan, longSpan: int := DefaultLongSpan)
      requires Valid()
      requires shortSpan >= 1 && longSpan >= 1
      modifies this
      ensures Valid()
      ensures HasClose() && ClosePrices() == old(ClosePrices())
      ensures columns.Keys == old(columns.Keys) + {EmaShortColumn, EmaLongColumn, BullishColumn, CrossoverColumn}
      ensures forall name :: name in columns ==>
        columns[name] == if name in SignalColumns(old(ClosePrices()), shortSpan, longSpan)
                         then SignalColumns(old(ClosePrices()), shortSpan, longSpan)[name]
                         else old(columns[name])
    {
      var close := columns[Close].values;
      columns := columns[EmaShortColumn := Values(Ema(close, shortSpan))];
      columns := columns[EmaLongColumn := Values(Ema(close, longSpan))];
      var bullish := Bullish(columns[EmaShortColumn].values, columns[EmaLongColumn].values);
      columns := columns[BullishColumn := Values(bullish)];
      columns := columns[CrossoverColumn := Events(Crossover(columns[BullishColumn].values))];
    }
  }
}
