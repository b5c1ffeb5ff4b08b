/**
 * The `Backtester` object of backtester.py: cash, shares, the trade log and
 * the list of portfolio values are fields that `RunBacktest` updates in
 * place, one row at a time. Each method is proved against the pure rule in
 * module Simulation and the metrics in module Metrics.
 */
module Backtest {
  import opened Wrappers
  import opened Simulation
  import Metrics

  class Backtester {
    const initialCapital: real
    var capital: real
    var shares: int
    var trades: seq<Trade>
    var portfolioValue: seq<real>
    /** Absent until a run over at least one row has completed. */
    var finalMetrics: Option<Metrics.MetricsRecord>

    /** Starting capital is positive; the position never borrows, shorts, or becomes worthless. */
    ghost predicate Valid()
      reads `capital, `shares
    {
      initialCapital > 0.0 && Solvent(Position(capital, shares))
    }

    function Pos(): Position
      reads `capital, `shares
    {
      Position(capital, shares)
    }

    constructor (initialCapital: real)
      requires initialCapital > 0.0
      ensures Valid()
      ensures this.initialCapital == initialCapital
      ensures Pos() == Position(initialCapital, 0)
      ensures trades == [] && portfolioValue == [] && finalMetrics == None
    {
      this.initialCapital := initialCapital;
      capital := initialCapital;
      shares := 0;
      trades := [];
      portfolioValue := [];
      finalMetrics := None;
    }

    /**
     * One pass of the loop body: the decision logic for one row, its trade
     * record if a trade executes, and the day's portfolio value.
     */
    method TradeRow(row: Row) returns (day: Day)
      requires Valid()
      requires row.close > 0.0
      modifies this
      ensures Valid()
      ensures Pos() == Execute(old(Pos()), row.signal, row.close)
      ensures trades == old(trades) + TradeOf(old(Pos()), row)
      ensures day == Day(row, Holdings(Pos(), row.close), Value(Pos(), row.close))
      ensures portfolioValue == old(portfolioValue) + [day.total]
      ensures finalMetrics == old(finalMetrics)
    {
      var signal := row.signal;
      var price := row.close;
      ghost var before := Position(capital, shares);
      if signal == 1 {
        if capital > 0.0 {
          var buyShares := Trunc(capital / price);
          ExecuteBuy(before, price, buyShares);
          var cost := buyShares as real * price;
          shares := shares + buyShares;
          capital := capital - cost;
          trades := trades + [Trade(row.date, Buy, price, capital, shares)];
        }
      } else if signal == -1 {
        if shares > 0 {
          var salesRevenue := Holdings(Position(capital, shares), price);
          ExecuteSell(before, price);
          capital := capital + salesRevenue;
          shares := 0;
          trades := trades + [Trade(row.date, Sell, price, capital, shares)];
        }
      }
      var totalValue := Value(Position(capital, shares), price);
      day := Day(row, Holdings(Position(capital, shares), price), totalValue);
      portfolioValue := portfolioValue + [totalValue];
    }

    /** The trading loop of `run_backtest`: every row in order, one portfolio row per input row. */
    method TradeAll(data: seq<Row>) returns (days: seq<Day>)
      requires Valid()
      requires PositivePrices(data)
      modifies this
      ensures Valid()
      ensures var run := Simulate(old(Pos()), data);
              Pos() == run.pos && days == run.days &&
              trades == old(trades) + run.trades &&
              portfolioValue == old(portfolioValue) + Totals(run.days)
      ensures finalMetrics == old(finalMetrics)
    {
      ghost var p0 := Pos();
      ghost var trades0 := trades;
      ghost var values0 := portfolioValue;
      ghost var run := Run(p0, [], []);
      days := [];
      var i := 0;
      while i < |data|
        invariant 0 <= i <= |data|
        invariant Valid()
        invariant finalMetrics == old(finalMetrics)
        invariant PositivePrices(data[..i]) && run == Simulate(p0, data[..i])
        invariant Pos() == run.pos && days == run.days
        invariant trades == trades0 + run.trades
        invariant portfolioValue == values0 + Totals(run.days)
      {
        ghost var r := run;
        assert data[..i + 1] == data[..i] + [data[i]];
        SimulateStep(p0, data[..i], data[i]);
        var day := TradeRow(data[i]);
        run := Simulate(p0, data[..i + 1]);
        AppendAssoc(trades0, r.trades, TradeOf(r.pos, data[i]));
        AppendAssoc(values0, Totals(r.days), [day.total]);
        days := days + [day];
        i := i + 1;
      }
      assert data[..i] == data;
    }

    /** Computes the metrics of a finished portfolio table and stores them on the object. */
    method StoreMetrics(days: seq<Day>)
      requires Valid()
      requires days != [] && Metrics.AllPositive(Totals(days))
      modifies `finalMetrics
      ensures finalMetrics == Some(Metrics.CalculateMetrics(initialCapital, Totals(days)).value)
    {
      var metrics := Metrics.CalculateMetrics(initialCapital, Totals(days));
      finalMetrics := Some(metrics.value);
    }

    /**
     * Trades every row in order, appends one portfolio value per row and
     * returns the portfolio table; on an empty table the metrics step fails,
     * so the run fails after the (empty) loop.
     */
    method RunBacktest(data: seq<Row>) returns (result: Result<seq<Day>, Metrics.MetricsError>)
      requires Valid()
      requires PositivePrices(data)
      modifies this
      ensures Valid()
      ensures var run := Simulate(old(Pos()), data);
              Pos() == run.pos &&
              trades == old(trades) + run.trades &&
              portfolioValue == old(portfolioValue) + Totals(run.days)
      ensures data == [] ==> result == Err(Metrics.EmptyCurve) && finalMetrics == old(finalMetrics)
      ensures data != [] ==>
                var days := Simulate(old(Pos()), data).days;
                Metrics.AllPositive(Totals(days)) &&
                result == Ok(days) &&
                finalMetrics == Some(Metrics.CalculateMetrics(initialCapital, Totals(days)).value)
    {
      ghost var p0 := Pos();
      var days := TradeAll(data);
      if data == [] {
        result := Err(Metrics.EmptyCurve);
      } else {
        assert Metrics.AllPositive(Totals(days)) by {
          TotalsPositive(p0, data);
        }
        StoreMetrics(days);
        result := Ok(days);
      }
    }
  }
}
