/**
 * The last-day flow of main.py: the table is split into history and today,
 * the user's answer turns today's AI signal into a confirmed signal, the
 * history is backtested, today's trade is applied by hand to the
 * backtester's fields, one more equity value is appended, and the metrics
 * are computed over history plus today. The answer is a parameter where the
 * source reads it from the console.
 */
module Today {
  import opened Wrappers
  import opened Simulation
  import Metrics
  import Backtest

  /** `INITIAL_CAPITAL` of main.py. */
  const InitialCapital: real := 100000.0

  /**
   * The characters `str.strip()` removes: those for which Python's
   * `str.isspace()` holds.
   */
  predicate IsSpace(c: char)
  {
    ('\U{0009}' <= c <= '\U{000D}') || ('\U{001C}' <= c <= '\U{0020}') ||
    c == '\U{0085}' || c == '\U{00A0}' || c == '\U{1680}' ||
    ('\U{2000}' <= c <= '\U{200A}') ||
    c == '\U{2028}' || c == '\U{2029}' || c == '\U{202F}' || c == '\U{205F}' || c == '\U{3000}'
  }

  predicate AllSpace(s: string)
  {
    forall i :: 0 <= i < |s| ==> IsSpace(s[i])
  }

  /** Whitespace in front of all-whitespace text is all whitespace. */
  lemma AllSpaceCons(c: char, t: string)
    requires IsSpace(c) && AllSpace(t)
    ensures AllSpace([c] + t)
  {
    forall i | 0 <= i < |[c] + t|
      ensures IsSpace(([c] + t)[i])
    {
      if i > 0 {
        assert ([c] + t)[i] == t[i - 1];
      }
    }
  }

  /** Whitespace after all-whitespace text is all whitespace. */
  lemma AllSpaceSnoc(t: string, c: char)
    requires AllSpace(t) && IsSpace(c)
    ensures AllSpace(t + [c])
  {
    forall i | 0 <= i < |t + [c]|
      ensures IsSpace((t + [c])[i])
    {
      if i < |t| {
        assert (t + [c])[i] == t[i];
      }
    }
  }

  /** Stripping one leading space more: what the rest gives up to is also all whitespace in front. */
  lemma StripLeftStep(s: string, r: string)
    requires s != [] && IsSpace(s[0])
    requires |r| < |s| && r == s[1..][|s| - 1 - |r|..] && AllSpace(s[1..][..|s| - 1 - |r|])
    ensures r == s[|s| - |r|..] && AllSpace(s[..|s| - |r|])
  {
    assert s[..|s| - |r|] == [s[0]] + s[1..][..|s| - 1 - |r|];
    AllSpaceCons(s[0], s[1..][..|s| - 1 - |r|]);
  }

  /** Stripping one trailing space more: what follows the kept prefix is also all whitespace. */
  lemma StripRightStep(s: string, r: string)
    requires s != [] && IsSpace(s[|s| - 1])
    requires |r| < |s| && r == s[..|s| - 1][..|r|] && AllSpace(s[..|s| - 1][|r|..])
    ensures r == s[..|r|] && AllSpace(s[|r|..])
  {
    assert s[|r|..] == s[..|s| - 1][|r|..] + [s[|s| - 1]];
    AllSpaceSnoc(s[..|s| - 1][|r|..], s[|s| - 1]);
  }

  /** Leading whitespace removed: what is left is a suffix that does not start with a space. */
  function StripLeft(s: string): (r: string)
    ensures |r| <= |s| && r == s[|s| - |r|..]
    ensures AllSpace(s[..|s| - |r|])
    ensures r == [] || !IsSpace(r[0])
  {
    if s == [] || !IsSpace(s[0]) then s
    else
      var r := StripLeft(s[1..]);
      StripLeftStep(s, r);
      r
  }

  /** Trailing whitespace removed: what is left is a prefix that does not end with a space. */
  function StripRight(s: string): (r: string)
    ensures |r| <= |s| && r == s[..|r|]
    ensures AllSpace(s[|r|..])
    ensures r == [] || !IsSpace(r[|r| - 1])
  {
    if s == [] || !IsSpace(s[|s| - 1]) then s
    else
      var r := StripRight(s[..|s| - 1]);
      StripRightStep(s, r);
      r
  }

  /** `str.strip()`. */
  function Strip(s: string): string
  {
    StripRight(StripLeft(s))
  }

  function LowerChar(c: char): (d: char)
    ensures 'A' <= c <= 'Z' ==> d as int == c as int + 32
    ensures !('A' <= c <= 'Z') ==> d == c
  {
    if 'A' <= c <= 'Z' then (c as int + 32) as char else c
  }

  /** `str.lower()` on ASCII letters. */
  function Lower(s: string): (r: string)
    ensures |r| == |s|
    ensures forall i :: 0 <= i < |s| ==> r[i] == LowerChar(s[i])
  {
    if s == [] then [] else [LowerChar(s[0])] + Lower(s[1..])
  }

  /** The answer as the source compares it: trimmed and lower-cased. */
  function Normalize(answer: string): string
  {
    Lower(Strip(answer))
  }

  /**
   * The confirmation rule: a BUY or SELL suggestion is kept only when the
   * answer is "yes" after trimming and lower-casing; everything else is HOLD.
   */
  function ConfirmSignal(aiSignal: int, answer: string): (confirmed: int)
    ensures confirmed == 1 <==> aiSignal == 1 && Normalize(answer) == "yes"
    ensures confirmed == -1 <==> aiSignal == -1 && Normalize(answer) == "yes"
    ensures confirmed == 0 <==> !((aiSignal == 1 || aiSignal == -1) && Normalize(answer) == "yes")
  {
    if aiSignal == 1 then
      if Normalize(answer) == "yes" then 1 else 0
    else if aiSignal == -1 then
      if Normalize(answer) == "yes" then -1 else 0
    else 0
  }

  /** Leading spaces in front of a word that does not start with one are all that `StripLeft` removes. */
  lemma {:induction false} StripLeftPadded(pad: string, word: string)
    requires AllSpace(pad)
    requires word == [] || !IsSpace(word[0])
    ensures StripLeft(pad + word) == word
  {
    if pad != [] {
      assert (pad + word)[1..] == pad[1..] + word;
      StripLeftPadded(pad[1..], word);
    } else {
      assert pad + word == word;
    }
  }

  /** Trailing spaces after a word that does not end with one are all that `StripRight` removes. */
  lemma {:induction false} StripRightPadded(word: string, pad: string)
    requires AllSpace(pad)
    requires word == [] || !IsSpace(word[|word| - 1])
    ensures StripRight(word + pad) == word
  {
    if pad != [] {
      assert (word + pad)[..|word + pad| - 1] == word + pad[..|pad| - 1];
      StripRightPadded(word, pad[..|pad| - 1]);
    } else {
      assert word + pad == word;
    }
  }

  /** "yes" in any letter case, with any surrounding whitespace, confirms the suggestion. */
  lemma AcceptsPaddedYes(before: string, word: string, after: string)
    requires AllSpace(before) && AllSpace(after)
    requires Lower(word) == "yes"
    ensures Normalize(before + word + after) == "yes"
  {
    assert !IsSpace(word[0]) by {
      assert LowerChar(word[0]) == 'y';
    }
    assert !IsSpace(word[|word| - 1]) by {
      assert LowerChar(word[2]) == 's';
    }
    assert before + word + after == before + (word + after);
    assert (word + after)[0] == word[0];
    StripLeftPadded(before, word + after);
    StripRightPadded(word, after);
  }

  /**
   * Today's trade as main.py writes it out by hand: a BUY spends
   * `Trunc(capital / price)` shares' worth of cash with no check that there
   * is cash, a SELL turns all shares into cash even when there are none, and
   * no trade is logged.
   */
  function ManualStep(p: Position, signal: int, price: real): (q: Position)
    requires price > 0.0
    ensures signal != 1 && signal != -1 ==> q == p
    ensures signal == -1 ==> q.shares == 0 && q.capital == Value(p, price)
    ensures signal == 1 ==> q.shares - p.shares == Trunc(p.capital / price)
  {
    if signal == 1 then
      var buyShares := Trunc(p.capital / price);
      Position(p.capital - buyShares as real * price, p.shares + buyShares)
    else if signal == -1 then
      Position(p.capital + Holdings(p, price), 0)
    else p
  }

  /** The hand-written step keeps the total value at today's price. */
  lemma ManualValueConserved(p: Position, signal: int, price: real)
    requires price > 0.0
    ensures Value(ManualStep(p, signal, price), price) == Value(p, price)
  {
    if signal == 1 {
      var n := Trunc(p.capital / price);
      assert (p.shares + n) as real * price == p.shares as real * price + n as real * price;
    }
  }

  /** Without debt or a short position, the hand-written step is one more iteration of the backtest loop. */
  lemma ManualStepMatchesLoop(p: Position, signal: int, price: real)
    requires price > 0.0 && p.capital >= 0.0 && p.shares >= 0
    ensures ManualStep(p, signal, price) == Execute(p, signal, price)
  {
    if signal == 1 && p.capital == 0.0 {
      assert Trunc(p.capital / price) == 0;
    }
  }

  /**
   * Applies today's confirmed signal to the backtester's cash and shares and
   * appends today's total to its equity list; returns today's portfolio row.
   */
  method ApplyToday(b: Backtest.Backtester, today: Row, signal: int) returns (day: Day)
    requires today.close > 0.0
    modifies b`capital, b`shares, b`portfolioValue
    ensures b.Pos() == ManualStep(old(b.Pos()), signal, today.close)
    ensures b.portfolioValue == old(b.portfolioValue) + [day.total]
    ensures day == Day(today, Holdings(b.Pos(), today.close), Value(b.Pos(), today.close))
    ensures old(b.Valid()) ==> b.Valid()
  {
    var price := today.close;
    ghost var before := b.Pos();
    if signal == 1 {
      var buyShares := Trunc(b.capital / price);
      b.shares := b.shares + buyShares;
      b.capital := b.capital - buyShares as real * price;
    } else if signal == -1 {
      b.capital := b.capital + Holdings(b.Pos(), price);
      b.shares := 0;
    }
    var todayTotal := Value(b.Pos(), price);
    b.portfolioValue := b.portfolioValue + [todayTotal];
    day := Day(today, Holdings(b.Pos(), price), todayTotal);
    if b.initialCapital > 0.0 && Solvent(before) {
      ManualStepMatchesLoop(before, signal, price);
    }
  }

  /** What main.py ends with: the confirmed signal, the backtester's final state, the combined table and its metrics. */
  datatype Session = Session(
    confirmed: int,
    position: Position,
    trades: seq<Trade>,
    equity: seq<real>,
    portfolio: seq<Day>,
    metrics: Metrics.MetricsRecord)

  /** An empty table has no today row; a one-row table leaves an empty history, whose metrics fail. */
  datatype SessionError = NoTodayRow | HistoryMetrics(Metrics.MetricsError)

  /** A row with its signal replaced. */
  function WithSignal(row: Row, signal: int): Row
  {
    row.(signal := signal)
  }

  lemma HistoryPrices(data: seq<Row>, signal: int)
    requires PositivePrices(data) && data != []
    ensures PositivePrices(data[..|data| - 1])
    ensures PositivePrices(data[..|data| - 1] + [WithSignal(data[|data| - 1], signal)])
  {
    var hist := data[..|data| - 1];
    var row := WithSignal(data[|data| - 1], signal);
    forall i | 0 <= i < |hist + [row]|
      ensures (hist + [row])[i].close > 0.0
    {
      if i < |hist| {
        assert (hist + [row])[i] == data[i];
      }
    }
  }

  /**
   * Backtesting the history and then applying today's step by hand ends
   * where backtesting history plus today (with the confirmed signal) ends,
   * and the combined equity curve stays positive.
   */
  lemma TodayIsOneMoreStep(start: Position, hist: seq<Row>, today: Row, signal: int)
    requires PositivePrices(hist) && today.close > 0.0 && Solvent(start)
    ensures PositivePrices(hist + [WithSignal(today, signal)])
    ensures var past := Simulate(start, hist);
            var q := ManualStep(past.pos, signal, today.close);
            var replay := Simulate(start, hist + [WithSignal(today, signal)]);
            replay.pos == q &&
            Totals(replay.days) == Totals(past.days) + [Value(q, today.close)] &&
            Metrics.AllPositive(Totals(past.days) + [Value(q, today.close)])
  {
    var row := WithSignal(today, signal);
    var past := Simulate(start, hist);
    SimulateSnoc(start, hist, row);
    StaysSolvent(start, hist);
    ManualStepMatchesLoop(past.pos, signal, today.close);
    var replay := Simulate(start, hist + [row]);
    TotalsSnoc(past.days, replay.days[|replay.days| - 1]);
    TotalsPositive(start, hist + [row]);
  }

  /** The backtester's starting position in main.py. */
  function Start(): (p: Position)
    ensures Solvent(p)
  {
    Position(InitialCapital, 0)
  }

  /** The equity curve of the history with today's row appended is positive. */
  lemma EquityPositive(hist: seq<Row>, today: Row, signal: int)
    requires PositivePrices(hist) && today.close > 0.0
    ensures var past := Simulate(Start(), hist);
            var q := ManualStep(past.pos, signal, today.close);
            Metrics.AllPositive(Totals(past.days + [Day(today, Holdings(q, today.close), Value(q, today.close))]))
  {
    var past := Simulate(Start(), hist);
    var q := ManualStep(past.pos, signal, today.close);
    TodayIsOneMoreStep(Start(), hist, today, signal);
    TotalsSnoc(past.days, Day(today, Holdings(q, today.close), Value(q, today.close)));
  }

  /**
   * What lines 45-112 of main compute, as one expression: today's row is the
   * last one and the history is everything before it; the history is
   * backtested, today's confirmed step is applied by hand and not logged,
   * and the metrics are taken over the history's table plus today's row.
   */
  function SessionOf(data: seq<Row>, answer: string): (r: Result<Session, SessionError>)
    requires PositivePrices(data)
    ensures r.Err? <==> |data| < 2
  {
    if data == [] then Err(NoTodayRow)
    else if |data| == 1 then Err(HistoryMetrics(Metrics.EmptyCurve))
    else
      var hist := data[..|data| - 1];
      var today := data[|data| - 1];
      var confirmed := ConfirmSignal(today.signal, answer);
      HistoryPrices(data, confirmed);
      var past := Simulate(Start(), hist);
      var q := ManualStep(past.pos, confirmed, today.close);
      var portfolio := past.days + [Day(today, Holdings(q, today.close), Value(q, today.close))];
      EquityPositive(hist, today, confirmed);
      var equity := Totals(portfolio);
      Ok(Session(confirmed, q, past.trades, equity, portfolio,
                 Metrics.CalculateMetrics(InitialCapital, equity).value))
  }

  /**
   * The session ends where backtesting the whole table, with today's signal
   * replaced by the confirmed one, ends: same position, same equity curve.
   * The trade log holds the history's trades only, the table has one row
   * per input row, and the equity curve is positive.
   */
  lemma SessionReplaysLoop(data: seq<Row>, answer: string)
    requires PositivePrices(data) && |data| >= 2
    ensures var today := data[|data| - 1];
            PositivePrices(data[..|data| - 1]) &&
            PositivePrices(data[..|data| - 1] + [WithSignal(today, ConfirmSignal(today.signal, answer))])
    ensures var s := SessionOf(data, answer).value;
            var hist := data[..|data| - 1];
            var today := data[|data| - 1];
            var replay := Simulate(Start(), hist + [WithSignal(today, s.confirmed)]);
            s.confirmed == ConfirmSignal(today.signal, answer) &&
            s.position == replay.pos &&
            s.equity == Totals(replay.days) &&
            s.trades == Simulate(Start(), hist).trades &&
            |s.portfolio| == |data| &&
            Metrics.AllPositive(s.equity)
  {
    var hist := data[..|data| - 1];
    var today := data[|data| - 1];
    var confirmed := ConfirmSignal(today.signal, answer);
    HistoryPrices(data, confirmed);
    var past := Simulate(Start(), hist);
    var q := ManualStep(past.pos, confirmed, today.close);
    var day := Day(today, Holdings(q, today.close), Value(q, today.close));
    var s := SessionOf(data, answer).value;
    assert s.confirmed == confirmed && s.position == q && s.trades == past.trades &&
           s.portfolio == past.days + [day] && s.equity == Totals(past.days + [day]);
    TodayIsOneMoreStep(Start(), hist, today, confirmed);
    TotalsSnoc(past.days, day);
  }

  /**
   * Lines 74-101 of main: a fresh backtester runs over the history, then
   * today's confirmed step is applied to it by hand. Returns the history's
   * portfolio table with today's row appended, or the history's metrics
   * error.
   */
  method TradeHistoryAndToday(hist: seq<Row>, today: Row, confirmed: int)
    returns (result: Result<(Position, seq<Trade>, seq<real>, seq<Day>), Metrics.MetricsError>)
    requires PositivePrices(hist) && today.close > 0.0
    ensures hist == [] <==> result.Err?
    ensures hist == [] ==> result.error == Metrics.EmptyCurve
    ensures hist != [] ==>
              var past := Simulate(Start(), hist);
              var q := ManualStep(past.pos, confirmed, today.close);
              var portfolio := past.days + [Day(today, Holdings(q, today.close), Value(q, today.close))];
              result.value.0 == q && result.value.1 == past.trades &&
              result.value.2 == Totals(portfolio) && result.value.3 == portfolio
  {
    var b := new Backtest.Backtester(InitialCapital);
    var r := b.RunBacktest(hist);
    if r.Err? {
      return Err(r.error);
    }
    ghost var past := Simulate(Start(), hist);
    var day := ApplyToday(b, today, confirmed);
    var portfolio := r.value + [day];
    assert b.portfolioValue == Totals(portfolio) by {
      TotalsSnoc(past.days, day);
    }
    result := Ok((b.Pos(), b.trades, b.portfolioValue, portfolio));
  }

  /** Lines 45-112 of main, with the console answer as a parameter. */
  method RunSession(data: seq<Row>, answer: string) returns (result: Result<Session, SessionError>)
    requires PositivePrices(data)
    ensures result.Err? <==> SessionOf(data, answer).Err?
    ensures result.Err? ==> result.error == SessionOf(data, answer).error
    ensures result.Ok? ==>
              var s := SessionOf(data, answer).value;
              result.value.confirmed == s.confirmed && result.value.position == s.position &&
              result.value.trades == s.trades && result.value.equity == s.equity &&
              result.value.portfolio == s.portfolio && result.value.metrics == s.metrics
  {
    if data == [] {
      return Err(NoTodayRow);
    }
    var n := |data|;
    var hist := data[..n - 1];
    var today := data[n - 1];
    var confirmed := ConfirmSignal(today.signal, answer);
    HistoryPrices(data, confirmed);
    var r := TradeHistoryAndToday(hist, today, confirmed);
    if r.Err? {
      return Err(HistoryMetrics(r.error));
    }
    var (position, trades, equity, portfolio) := r.value;
    TodayIsOneMoreStep(Start(), hist, today, confirmed);
    TotalsSnoc(Simulate(Start(), hist).days, portfolio[|portfolio| - 1]);
    var metrics := Metrics.CalculateMetrics(InitialCapital, equity);
    result := Ok(Session(confirmed, position, trades, equity, portfolio, metrics.value));
  }
}
