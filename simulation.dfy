/**
 * The day-by-day trading rule of the backtester (backtester.py, `run_backtest`),
 * stated as a pure step function and a left fold over the price/signal rows.
 * The class in backtester.dfy runs the same loop imperatively and is proved
 * to agree with `Simulate`.
 */
module Simulation {
  /** One row of the input table: a day number standing for the date, the close and the signal. */
  datatype Row = Row(date: int, close: real, signal: int)

  /** The backtester's mutable state: cash (`capital`) and the integer share count. */
  datatype Position = Position(capital: real, shares: int)

  datatype Side = Buy | Sell

  /** A row of the trade log: date, side, price, cash and shares after the trade. */
  datatype Trade = Trade(date: int, side: Side, price: real, cash: real, shares: int)

  /** A row of the portfolio table: the input row with its holdings value and total value. */
  datatype Day = Day(row: Row, holdings: real, total: real)

  /** The outcome of a run: the final position, the trade log and the portfolio table. */
  datatype Run = Run(pos: Position, trades: seq<Trade>, days: seq<Day>)

  /** Python's `int()` on a float: truncation toward zero. */
  function Trunc(x: real): (n: int)
    ensures 0.0 <= x ==> n as real <= x < n as real + 1.0
    ensures x < 0.0 ==> n as real - 1.0 < x <= n as real
  {
    if x >= 0.0 then x.Floor else -((-x).Floor)
  }

  lemma MulMono(a: real, b: real, c: real)
    requires c > 0.0
    ensures a <= b ==> a * c <= b * c
    ensures a < b ==> a * c < b * c
  {
  }

  /** Scaling the bounds of truncation by a positive price. */
  lemma TruncScaled(ratio: real, price: real, capital: real)
    requires price > 0.0 && ratio >= 0.0 && ratio * price == capital
    ensures var n := Trunc(ratio);
            n >= 0 && n as real * price <= capital < n as real * price + price
  {
    var n := Trunc(ratio);
    assert n as real <= ratio < n as real + 1.0;
    MulMono(n as real, ratio, price);
    assert n as real * price <= capital;
    calc {
      capital;
    ==
      ratio * price;
    < { MulMono(ratio, n as real + 1.0, price); }
      (n as real + 1.0) * price;
    ==
      n as real * price + price;
    }
  }

  /** Full investment: `Trunc(capital / price)` shares cost at most the cash and leave less than one price over. */
  lemma BuyBounds(capital: real, price: real)
    requires capital > 0.0 && price > 0.0
    ensures var n := Trunc(capital / price);
            n >= 0 && n as real * price <= capital < n as real * price + price
  {
    var ratio := capital / price;
    assert ratio * price == capital;
    assert ratio >= 0.0 by {
      if ratio < 0.0 { MulMono(ratio, 0.0, price); }
    }
    TruncScaled(ratio, price, capital);
  }

  /** Market value of the shares held. */
  function Holdings(p: Position, price: real): real
  {
    p.shares as real * price
  }

  /** Total value of a position at a price: cash plus shares times price. */
  function Value(p: Position, price: real): real
  {
    p.capital + Holdings(p, price)
  }

  /** No margin, no short position, and something to be worth. */
  predicate Solvent(p: Position)
  {
    p.capital >= 0.0 && p.shares >= 0 && (p.capital > 0.0 || p.shares > 0)
  }

  predicate PositivePrices(rows: seq<Row>)
  {
    forall i :: 0 <= i < |rows| ==> rows[i].close > 0.0
  }

  /** A trade is executed (and logged) exactly on a BUY with cash or a SELL with shares. */
  predicate Fires(p: Position, signal: int)
  {
    (signal == 1 && p.capital > 0.0) || (signal == -1 && p.shares > 0)
  }

  /** The position after one day's decision logic. */
  function Execute(p: Position, signal: int, price: real): (q: Position)
    requires price > 0.0
    ensures !Fires(p, signal) ==> q == p
    ensures signal == 1 && p.capital > 0.0 ==>
              0.0 <= q.capital < price && q.capital <= p.capital && q.shares >= p.shares
    ensures signal == -1 && p.shares > 0 ==> q.shares == 0 && q.capital > p.capital
    ensures p.capital >= 0.0 && p.shares >= 0 ==> q.capital >= 0.0 && q.shares >= 0
    ensures Solvent(p) ==> Solvent(q)
  {
    if signal == 1 then
      if p.capital > 0.0 then
        var buyShares := Trunc(p.capital / price);
        BuyBounds(p.capital, price);
        Position(p.capital - buyShares as real * price, p.shares + buyShares)
      else p
    else if signal == -1 then
      if p.shares > 0 then Position(p.capital + Holdings(p, price), 0) else p
    else p
  }

  /** A BUY with cash spends `Trunc(capital / price)` shares' worth of it. */
  lemma ExecuteBuy(p: Position, price: real, n: int)
    requires price > 0.0 && p.capital > 0.0 && n == Trunc(p.capital / price)
    ensures Execute(p, 1, price) == Position(p.capital - n as real * price, p.shares + n)
  {
  }

  /** A SELL with shares turns all of them into cash. */
  lemma ExecuteSell(p: Position, price: real)
    requires price > 0.0 && p.shares > 0
    ensures Execute(p, -1, price) == Position(p.capital + Holdings(p, price), 0)
  {
  }

  /** A trade neither creates nor destroys value at the day's price. */
  lemma ValueConserved(p: Position, signal: int, price: real)
    requires price > 0.0
    ensures Value(Execute(p, signal, price), price) == Value(p, price)
  {
    if signal == 1 && p.capital > 0.0 {
      var n := Trunc(p.capital / price);
      ExecuteBuy(p, price, n);
      assert (p.shares + n) as real * price == p.shares as real * price + n as real * price;
    }
  }

  /** The trade-log entry a row adds, given the position before it: one record or none. */
  function TradeOf(p: Position, row: Row): (t: seq<Trade>)
    requires row.close > 0.0
    ensures |t| == (if Fires(p, row.signal) then 1 else 0)
    ensures |t| == 1 ==> var q := Execute(p, row.signal, row.close);
              t[0].cash == q.capital && t[0].shares == q.shares && t[0].price == row.close &&
              t[0].date == row.date && (t[0].side == Buy <==> row.signal == 1)
  {
    if Fires(p, row.signal) then
      var q := Execute(p, row.signal, row.close);
      [Trade(row.date, if row.signal == 1 then Buy else Sell, row.close, q.capital, q.shares)]
    else []
  }

  /** A BUY with less cash than one share buys nothing, yet still logs a BUY record. */
  lemma ZeroShareBuy(p: Position, row: Row)
    requires row.close > 0.0 && row.signal == 1 && 0.0 < p.capital < row.close
    ensures Execute(p, 1, row.close) == p
    ensures TradeOf(p, row) == [Trade(row.date, Buy, row.close, p.capital, p.shares)]
  {
    var ratio := p.capital / row.close;
    assert ratio * row.close == p.capital;
    assert 0.0 <= ratio < 1.0 by {
      if ratio < 0.0 { MulMono(ratio, 0.0, row.close); }
      if ratio >= 1.0 { MulMono(1.0, ratio, row.close); }
    }
    var n := Trunc(ratio);
    assert n == 0;
    ExecuteBuy(p, row.close, n);
    assert Fires(p, row.signal);
  }

  /** One iteration of the loop: trade, log, and append the day's portfolio row. */
  function Advance(r: Run, row: Row): Run
    requires row.close > 0.0
  {
    var q := Execute(r.pos, row.signal, row.close);
    Run(q, r.trades + TradeOf(r.pos, row),
        r.days + [Day(row, Holdings(q, row.close), Value(q, row.close))])
  }

  /** Runs the rule over `rows` from position `p0`. */
  function Simulate(p0: Position, rows: seq<Row>): (r: Run)
    requires PositivePrices(rows)
    ensures |r.days| == |rows|
    ensures |r.trades| <= |rows|
    decreases |rows|
  {
    if rows == [] then Run(p0, [], [])
    else Advance(Simulate(p0, rows[..|rows| - 1]), rows[|rows| - 1])
  }

  /** Simulating one more row is one more iteration of the loop. */
  lemma SimulateSnoc(p0: Position, rows: seq<Row>, row: Row)
    requires PositivePrices(rows) && row.close > 0.0
    ensures PositivePrices(rows + [row])
    ensures Simulate(p0, rows + [row]) == Advance(Simulate(p0, rows), row)
  {
    assert (rows + [row])[..|rows|] == rows;
  }

  /** The equity curve: the total value column of a portfolio table. */
  function Totals(days: seq<Day>): seq<real>
  {
    seq(|days|, i requires 0 <= i < |days| => days[i].total)
  }

  lemma TotalsSnoc(days: seq<Day>, d: Day)
    ensures Totals(days + [d]) == Totals(days) + [d.total]
  {
  }

  /** Concatenation regrouped, for the ledgers that grow by one row at a time. */
  lemma AppendAssoc<T>(a: seq<T>, b: seq<T>, c: seq<T>)
    ensures a + b + c == a + (b + c)
  {
  }

  /**
   * One more row is one more pass of the loop body: the position moves by
   * `Execute`, the log grows by `TradeOf`, and the table and the equity curve
   * grow by the day's row and its total.
   */
  lemma SimulateStep(p0: Position, rows: seq<Row>, row: Row)
    requires PositivePrices(rows) && row.close > 0.0
    ensures PositivePrices(rows + [row])
    ensures var r := Simulate(p0, rows); var s := Simulate(p0, rows + [row]);
            var q := Execute(r.pos, row.signal, row.close);
            s.pos == q && s.trades == r.trades + TradeOf(r.pos, row) &&
            s.days == r.days + [Day(row, Holdings(q, row.close), Value(q, row.close))] &&
            Totals(s.days) == Totals(r.days) + [Value(q, row.close)]
  {
    var r := Simulate(p0, rows);
    var q := Execute(r.pos, row.signal, row.close);
    SimulateSnoc(p0, rows, row);
    TotalsSnoc(r.days, Day(row, Holdings(q, row.close), Value(q, row.close)));
  }

  /** Simulating a prefix gives a prefix of the trade log and of the portfolio table (both are append-only). */
  lemma {:induction false} PrefixStable(p0: Position, rows: seq<Row>, k: nat)
    requires PositivePrices(rows)
    requires k <= |rows|
    ensures PositivePrices(rows[..k])
    ensures var whole := Simulate(p0, rows); var part := Simulate(p0, rows[..k]);
            part.days == whole.days[..k] && part.trades <= whole.trades
  {
    if k < |rows| {
      var init := rows[..|rows| - 1];
      assert init[..k] == rows[..k];
      PrefixStable(p0, init, k);
    } else {
      assert rows[..k] == rows;
    }
  }

  /** Day `i` of the table holds the value, at that day's close, of the position after that day's trade. */
  lemma {:induction false} DayRecord(p0: Position, rows: seq<Row>, i: nat)
    requires PositivePrices(rows)
    requires i < |rows|
    ensures PositivePrices(rows[..i + 1])
    ensures var q := Simulate(p0, rows[..i + 1]).pos; var d := Simulate(p0, rows).days[i];
            d.row == rows[i] && d.holdings == Holdings(q, rows[i].close) &&
            d.total == Value(q, rows[i].close)
  {
    PrefixStable(p0, rows, i + 1);
    assert rows[..i + 1][..i] == rows[..i];
  }

  /** A solvent start stays solvent through every day. */
  lemma {:induction false} StaysSolvent(p0: Position, rows: seq<Row>)
    requires PositivePrices(rows)
    requires Solvent(p0)
    ensures Solvent(Simulate(p0, rows).pos)
  {
    if rows != [] {
      StaysSolvent(p0, rows[..|rows| - 1]);
    }
  }

  /** A solvent position is worth something at any positive price. */
  lemma SolventValuePositive(p: Position, price: real)
    requires Solvent(p) && price > 0.0
    ensures Value(p, price) > 0.0
  {
    MulMono(0.0, p.shares as real, price);
  }

  /** From a solvent start every total on the equity curve is positive. */
  lemma TotalsPositive(p0: Position, rows: seq<Row>)
    requires PositivePrices(rows)
    requires Solvent(p0)
    ensures forall i :: 0 <= i < |rows| ==> Totals(Simulate(p0, rows).days)[i] > 0.0
  {
    forall i | 0 <= i < |rows|
      ensures Simulate(p0, rows).days[i].total > 0.0
    {
      DayRecord(p0, rows, i);
      StaysSolvent(p0, rows[..i + 1]);
      SolventValuePositive(Simulate(p0, rows[..i + 1]).pos, rows[i].close);
    }
  }

  /** Every logged trade has non-negative cash and shares; a SELL leaves no shares and a BUY leaves less cash than the price. */
  lemma {:induction false} TradesWellFormed(p0: Position, rows: seq<Row>)
    requires PositivePrices(rows)
    requires p0.capital >= 0.0 && p0.shares >= 0
    ensures var r := Simulate(p0, rows);
            r.pos.capital >= 0.0 && r.pos.shares >= 0 &&
            forall t :: t in r.trades ==>
              t.cash >= 0.0 && t.shares >= 0 &&
              (t.side == Sell ==> t.shares == 0) && (t.side == Buy ==> t.cash < t.price)
  {
    if rows != [] {
      TradesWellFormed(p0, rows[..|rows| - 1]);
    }
  }
}
