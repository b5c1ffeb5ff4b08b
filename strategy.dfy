/**
 * Signal generation of strategy.py (`AITradingStrategy.generate_signals`).
 * The price table is a class whose columns are updated in place, as the
 * DataFrame is. The regression's fit and predictions are not modelled: the
 * predicted closes arrive as an input, `None` when the library raised.
 */
module Strategy {
  import opened Wrappers

  /** BUY, SELL and HOLD as the table stores them. */
  const BuySignal: int := 1
  const SellSignal: int := -1
  const HoldSignal: int := 0

  /** The labelling rule for one row: BUY above the close, SELL below it, HOLD on a tie. */
  function Label(predicted: real, close: real): (s: int)
    ensures s == BuySignal <==> predicted > close
    ensures s == SellSignal <==> predicted < close
    ensures s == HoldSignal <==> predicted == close
  {
    if predicted > close then BuySignal
    else if predicted < close then SellSignal
    else HoldSignal
  }

  predicate IsSignal(s: int)
  {
    s == BuySignal || s == SellSignal || s == HoldSignal
  }

  /** The `Signal` column for a whole table, row by row; every entry is BUY, SELL or HOLD. */
  function Labels(predicted: seq<real>, close: seq<real>): (s: seq<int>)
    requires |predicted| == |close|
    ensures |s| == |close|
    ensures forall i :: 0 <= i < |s| ==> s[i] == Label(predicted[i], close[i])
    ensures forall i :: 0 <= i < |s| ==> IsSignal(s[i])
  {
    if close == [] then []
    else Labels(predicted[..|close| - 1], close[..|close| - 1]) + [Label(predicted[|close| - 1], close[|close| - 1])]
  }

  /** The last day's signal forced to HOLD. */
  function ResetLast(s: seq<int>): (r: seq<int>)
    requires s != []
    ensures |r| == |s|
    ensures r[|r| - 1] == HoldSignal
    ensures r[..|r| - 1] == s[..|s| - 1]
  {
    s[|s| - 1 := HoldSignal]
  }

  /** The price table: a row index (`date`), the close, and the columns signal generation adds. */
  class SignalFrame {
    var date: seq<int>
    var close: seq<real>
    var prevClose: seq<real>
    var predictedClose: seq<real>
    var signal: seq<int>

    /** Every column the table has holds one entry per row; an absent column is empty. */
    ghost predicate Valid()
      reads this
    {
      |date| == |close| &&
      (prevClose == [] || |prevClose| == |close|) &&
      (predictedClose == [] || |predictedClose| == |close|) &&
      (signal == [] || |signal| == |close|)
    }

    /** A table of dates and closes, before any feature column exists. */
    constructor (date: seq<int>, close: seq<real>)
      requires |date| == |close|
      ensures Valid()
      ensures this.date == date && this.close == close
      ensures prevClose == [] && predictedClose == [] && signal == []
    {
      this.date := date;
      this.close := close;
      prevClose := [];
      predictedClose := [];
      signal := [];
    }
  }

  /**
   * The vectorised labelling: the column starts at HOLD, then BUY is written
   * where the prediction is above the close, then SELL where it is below.
   */
  method LabelRows(predicted: seq<real>, close: seq<real>) returns (column: seq<int>)
    requires |predicted| == |close|
    ensures column == Labels(predicted, close)
  {
    var n := |close|;
    column := seq(n, _ => HoldSignal);
    var i := 0;
    while i < n
      invariant 0 <= i <= n && |column| == n
      invariant forall k :: 0 <= k < n ==>
                  column[k] == (if k < i && predicted[k] > close[k] then BuySignal else HoldSignal)
    {
      if predicted[i] > close[i] {
        column := column[i := BuySignal];
      }
      i := i + 1;
    }
    i := 0;
    while i < n
      invariant 0 <= i <= n && |column| == n
      invariant forall k :: 0 <= k < n ==>
                  column[k] == (if k < i && predicted[k] < close[k] then SellSignal
                                else if predicted[k] > close[k] then BuySignal
                                else HoldSignal)
    {
      if predicted[i] < close[i] {
        column := column[i := SellSignal];
      }
      i := i + 1;
    }
  }

  /** A column without its first entry; an absent column stays absent. */
  function DropFirst<T>(column: seq<T>): seq<T>
  {
    if column == [] then [] else column[1..]
  }

  /**
   * `Prev_Close` is the close shifted down one row; `dropna` then removes
   * the first row, whose previous close is missing, from every column.
   */
  method AddPrevClose(data: SignalFrame)
    requires data.Valid()
    modifies data`date, data`close, data`prevClose, data`predictedClose, data`signal
    ensures data.Valid()
    ensures |data.date| == |data.close| == |data.prevClose|
    ensures |data.close| == if old(data.close) == [] then 0 else |old(data.close)| - 1
    ensures forall i :: 0 <= i < |data.close| ==>
              data.date[i] == old(data.date)[i + 1] &&
              data.close[i] == old(data.close)[i + 1] &&
              data.prevClose[i] == old(data.close)[i]
    ensures data.predictedClose == DropFirst(old(data.predictedClose))
    ensures data.signal == DropFirst(old(data.signal))
  {
    if data.close != [] {
      var n := |data.close|;
      data.prevClose := data.close[..n - 1];
      data.date := data.date[1..];
      data.close := data.close[1..];
      data.predictedClose := DropFirst(data.predictedClose);
      data.signal := DropFirst(data.signal);
    } else {
      data.prevClose := [];
    }
  }

  /**
   * The steps of `generate_signals` after the shift: store the predictions,
   * label every row, and optionally reset the last label. A prediction
   * column of the wrong length, or a reset on an empty table, fails.
   */
  method StoreSignals(data: SignalFrame, predicted: seq<real>, skipLastDaySignal: bool)
    returns (success: bool)
    requires data.Valid()
    modifies data`predictedClose, data`signal
    ensures data.Valid()
    ensures success <==> |predicted| == |data.close| && !(skipLastDaySignal && data.close == [])
    ensures |predicted| != |data.close| ==>
              data.predictedClose == old(data.predictedClose) && data.signal == old(data.signal)
    ensures |predicted| == |data.close| ==>
              data.predictedClose == predicted &&
              data.signal == (if skipLastDaySignal && data.close != [] then ResetLast(Labels(predicted, data.close))
                              else Labels(predicted, data.close))
  {
    if |predicted| != |data.close| {
      // Assigning a column of the wrong length raises ValueError.
      return false;
    }
    var n := |data.close|;
    var column := LabelRows(predicted, data.close);
    success := true;
    if skipLastDaySignal {
      if n == 0 {
        // `iloc[-1]` on an empty table raises IndexError, after both columns are written.
        success := false;
      } else {
        column := column[n - 1 := HoldSignal];
      }
    }
    data.predictedClose := predicted;
    data.signal := column;
  }

  /**
   * `generate_signals`: adds `Prev_Close` and drops the first row (its
   * previous close is missing) from every column, stores the predictions,
   * labels every row and optionally resets the last label. The first step
   * changes the caller's table even when a later step fails; a failure
   * returns `false` where the source returns `None`.
   */
  method GenerateSignals(data: SignalFrame, predictions: Option<seq<real>>, skipLastDaySignal: bool)
    returns (success: bool)
    requires data.Valid()
    modifies data
    ensures data.Valid()
    ensures |data.date| == |data.close| == |data.prevClose|
    ensures |data.close| == if old(data.close) == [] then 0 else |old(data.close)| - 1
    ensures forall i :: 0 <= i < |data.close| ==>
              data.date[i] == old(data.date)[i + 1] &&
              data.close[i] == old(data.close)[i + 1] &&
              data.prevClose[i] == old(data.close)[i]
    ensures success <==>
              predictions.Some? && |predictions.value| == |data.close| &&
              !(skipLastDaySignal && data.close == [])
    ensures (predictions.None? || |predictions.value| != |data.close|) ==>
              data.predictedClose == DropFirst(old(data.predictedClose)) &&
              data.signal == DropFirst(old(data.signal))
    ensures predictions.Some? && |predictions.value| == |data.close| ==>
              data.predictedClose == predictions.value &&
              data.signal == (if skipLastDaySignal && data.close != [] then ResetLast(Labels(data.predictedClose, data.close))
                              else Labels(data.predictedClose, data.close))
  {
    AddPrevClose(data);
    if predictions.None? {
      return false;
    }
    success := StoreSignals(data, predictions.value, skipLastDaySignal);
  }
}
