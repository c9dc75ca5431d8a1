/** What the monthly-rebalanced backtest computes, as functions of its inputs: the
    month-end positions, the stocks bought at each of them, the positions sized from
    the AUM, the day-by-day AUM and cumulative dividends, and the cumulative
    information coefficient. The class `RunBacktest` (module Backtest) computes the
    same values step by step; the lemmas here state what those values mean. */
module BacktestSpec {
  import Ranking

  const MomentumGap := 20
  const Momentum := "M"

  /** One row of a stock's daily history: the close price and the dividend paid. */
  datatype Bar = Bar(close: real, dividend: real)

  /** The fetched data: the tickers in the dictionary's key order, each ticker's daily
      history, and the shared calendar (the first stock's date index) as a day
      ordinal and a month number per trading day. */
  datatype Market = Market(
    tickers: seq<string>,
    history: map<string, seq<Bar>>,
    dates: seq<int>,
    months: seq<int>)

  /** The arguments the backtest is constructed with. */
  datatype Setup = Setup(
    market: Market,
    initialAum: int,
    beginningDate: int,
    days: int,
    strategy: string,
    topPct: int)

  /** One holding: a ticker and the number of shares held. */
  datatype Position = Position(ticker: string, amount: real)

  type Portfolio = seq<Position>

  /** The inputs the backtest relies on: a non-empty universe of distinct tickers, each
      with a history as long as the calendar and positive close prices, a look-back of
      at least one day and a percentage in 1..100. */
  predicate WellFormed(s: Setup) {
    var m := s.market;
    |m.tickers| > 0
    && |m.months| == |m.dates|
    && (forall i, j :: 0 <= i < j < |m.tickers| ==> m.tickers[i] != m.tickers[j])
    && (forall t :: t in m.history ==> t in m.tickers)
    && (forall i :: 0 <= i < |m.tickers| ==> m.tickers[i] in m.history)
    && (forall t :: t in m.history ==> |m.history[t]| == |m.dates|)
    && (forall t, d :: t in m.history && 0 <= d < |m.history[t]| ==> m.history[t][d].close > 0.0)
    && 1 <= s.days
    && 1 <= s.topPct <= 100
  }

  /** Number of trading days in the calendar. */
  function DayCount(s: Setup): nat {
    |s.market.dates|
  }

  function Close(s: Setup, t: string, d: nat): (r: real)
    requires WellFormed(s) && t in s.market.history && d < DayCount(s)
    ensures r > 0.0
  {
    s.market.history[t][d].close
  }

  function Dividend(s: Setup, t: string, d: nat): real
    requires WellFormed(s) && t in s.market.history && d < DayCount(s)
  {
    s.market.history[t][d].dividend
  }

  /** Every ticker of the portfolio has a history. */
  predicate Held(s: Setup, p: Portfolio) {
    forall i :: 0 <= i < |p| ==> p[i].ticker in s.market.history
  }

  predicate StrictlyIncreasing(xs: seq<nat>) {
    forall i, j :: 0 <= i < j < |xs| ==> xs[i] < xs[j]
  }

  // ---------------------------------------------------------------------------
  // Month-end positions
  // ---------------------------------------------------------------------------

  /** Day `i` is the last trading day of its month and lies after the beginning date. */
  predicate IsMonthEnd(s: Setup, i: nat)
    requires WellFormed(s) && i + 1 < DayCount(s)
  {
    s.market.months[i] != s.market.months[i + 1] && s.market.dates[i] > s.beginningDate
  }

  /** The month-end positions below `n`, in increasing order. */
  function MonthEndsBelow(s: Setup, n: nat): (r: seq<nat>)
    requires WellFormed(s) && n < DayCount(s)
    ensures forall k :: 0 <= k < |r| ==> r[k] < n
    ensures StrictlyIncreasing(r)
  {
    if n == 0 then []
    else MonthEndsBelow(s, n - 1) + (if IsMonthEnd(s, n - 1) then [n - 1] else [])
  }

  /** get_month_end_indexes_from_b */
  function MonthEnds(s: Setup): (r: seq<nat>)
    requires WellFormed(s)
    ensures forall k :: 0 <= k < |r| ==> r[k] + 1 < DayCount(s)
  {
    if DayCount(s) == 0 then [] else MonthEndsBelow(s, DayCount(s) - 1)
  }

  lemma {:induction false} MonthEndsBelowMembers(s: Setup, n: nat)
    requires WellFormed(s) && n < DayCount(s)
    ensures forall i: nat :: i in MonthEndsBelow(s, n) <==> i < n && IsMonthEnd(s, i)
  {
    if n > 0 {
      MonthEndsBelowMembers(s, n - 1);
    }
  }

  /** The month-end positions are exactly the positions before the last whose month
      differs from the next day's and whose date is strictly after the beginning date;
      they come in increasing order and never include the last position. */
  lemma MonthEndsSpec(s: Setup)
    requires WellFormed(s)
    ensures forall i: nat :: i in MonthEnds(s) <==> i + 1 < DayCount(s) && IsMonthEnd(s, i)
    ensures StrictlyIncreasing(MonthEnds(s))
    ensures DayCount(s) > 0 ==> DayCount(s) - 1 !in MonthEnds(s)
  {
    if DayCount(s) > 0 {
      MonthEndsBelowMembers(s, DayCount(s) - 1);
    }
  }

  // ---------------------------------------------------------------------------
  // Ranking and selection
  // ---------------------------------------------------------------------------

  predicate IsMomentum(s: Setup) {
    s.strategy == Momentum
  }

  /** Days of history a selection needs before its date: the look-back, plus the gap
      for momentum. */
  function Lookback(s: Setup): int {
    (if IsMomentum(s) then MomentumGap else 0) + s.days
  }

  /** The position the return is measured up to: 20 days back for momentum. */
  function Reference(s: Setup, d: nat): nat
    requires WellFormed(s) && Lookback(s) <= d
  {
    if IsMomentum(s) then d - MomentumGap else d
  }

  function PctChange(start: real, end: real): real
    requires start != 0.0
  {
    (end - start) / start * 100.0
  }

  /** The percentage return of ticker `t` over the `days` trading days up to the
      reference position of day `d`. */
  function TrailingReturn(s: Setup, t: string, d: nat): (r: real)
    requires WellFormed(s) && t in s.market.history && Lookback(s) <= d < DayCount(s)
  {
    var r := Reference(s, d);
    PctChange(Close(s, t, r - s.days), Close(s, t, r))
  }

  /** The (stock, return) list in universe order. */
  function Scores(s: Setup, d: nat): (r: seq<Ranking.Entry>)
    requires WellFormed(s) && Lookback(s) <= d < DayCount(s)
    ensures |r| == |s.market.tickers| && Ranking.Indexed(r)
  {
    seq(|s.market.tickers|, i requires 0 <= i < |s.market.tickers| =>
      Ranking.Entry(i, TrailingReturn(s, s.market.tickers[i], d)))
  }

  /** ceil(n * pct / 100) */
  function SelectionSize(n: nat, pct: nat): nat {
    (n * pct + 99) / 100
  }

  /** The selection size is the ceiling of n * pct / 100, and lies in 1..n. */
  lemma SelectionSizeSpec(n: nat, pct: nat)
    requires n >= 1 && 1 <= pct <= 100
    ensures (SelectionSize(n, pct) - 1) * 100 < n * pct <= SelectionSize(n, pct) * 100
    ensures 1 <= SelectionSize(n, pct) <= n
  {
    ProductBounds(n, pct);
    CeilingBounds(n * pct, n);
  }

  lemma ProductBounds(n: nat, pct: nat)
    requires 1 <= pct <= 100
    ensures n <= n * pct <= n * 100
  {
  }

  lemma CeilingBounds(m: nat, n: nat)
    requires 1 <= n <= m <= n * 100
    ensures ((m + 99) / 100 - 1) * 100 < m <= (m + 99) / 100 * 100
    ensures 1 <= (m + 99) / 100 <= n
  {
  }

  /** The universe positions of the stocks bought: the first ceil(n * top_pct / 100)
      of the (stock, return) list after the stable sort. */
  function Selected(s: Setup, d: nat): (r: seq<nat>)
    requires WellFormed(s) && Lookback(s) <= d < DayCount(s)
    ensures |r| == SelectionSize(|s.market.tickers|, s.topPct)
  {
    SelectionSizeSpec(|s.market.tickers|, s.topPct);
    Ranking.Top(Scores(s, d), IsMomentum(s), SelectionSize(|s.market.tickers|, s.topPct))
  }

  /** calc_stocks_to_buy: the tickers of the selected positions. */
  function StocksToBuy(s: Setup, d: nat): (r: seq<string>)
    requires WellFormed(s) && Lookback(s) <= d < DayCount(s)
    ensures |r| == SelectionSize(|s.market.tickers|, s.topPct) >= 1
    ensures forall i :: 0 <= i < |r| ==> r[i] in s.market.history
  {
    var sel := Selected(s, d);
    SelectionSizeSpec(|s.market.tickers|, s.topPct);
    Ranking.TopSpec(Scores(s, d), IsMomentum(s), |sel|);
    seq(|sel|, i requires 0 <= i < |sel| => s.market.tickers[sel[i]])
  }

  /** The tickers bought are read off the first entries of the sorted list. */
  lemma StocksToBuyFromRanking(s: Setup, d: nat)
    requires WellFormed(s) && Lookback(s) <= d < DayCount(s)
    ensures var rk, k := Ranking.Sort(Scores(s, d), IsMomentum(s)), SelectionSize(|s.market.tickers|, s.topPct);
      k <= |rk|
      && (forall i :: 0 <= i < k ==> rk[i].pos < |s.market.tickers|)
      && StocksToBuy(s, d) == seq(k, i requires 0 <= i < k => s.market.tickers[rk[i].pos])
  {
    SelectionSizeSpec(|s.market.tickers|, s.topPct);
    Ranking.SortIndexed(Scores(s, d), IsMomentum(s));
  }

  /** What calc_stocks_to_buy promises: ceil(n * top_pct / 100) distinct tickers of the
      universe; each selected stock's return is at least (momentum) or at most
      (reversal) every unselected stock's, and on an equal return the selected stock
      comes first in the universe. */
  lemma {:induction false} StocksToBuySpec(s: Setup, d: nat)
    requires WellFormed(s) && Lookback(s) <= d < DayCount(s)
    ensures var r := StocksToBuy(s, d);
      |r| == SelectionSize(|s.market.tickers|, s.topPct)
      && (forall i, j :: 0 <= i < j < |r| ==> r[i] != r[j])
      && (forall i :: 0 <= i < |r| ==> r[i] in s.market.tickers)
    ensures var r := StocksToBuy(s, d);
      forall i, j :: 0 <= i < |r| && 0 <= j < |s.market.tickers| && s.market.tickers[j] !in r ==>
        var sel, other := TrailingReturn(s, r[i], d), TrailingReturn(s, s.market.tickers[j], d);
        (IsMomentum(s) ==> sel >= other)
        && (!IsMomentum(s) ==> sel <= other)
        && (sel == other ==> exists u :: 0 <= u < j && s.market.tickers[u] == r[i])
  {
    StocksToBuyDistinct(s, d);
    StocksToBuyRanked(s, d);
  }

  lemma StocksToBuyDistinct(s: Setup, d: nat)
    requires WellFormed(s) && Lookback(s) <= d < DayCount(s)
    ensures var r := StocksToBuy(s, d);
      |r| == SelectionSize(|s.market.tickers|, s.topPct)
      && (forall i, j :: 0 <= i < j < |r| ==> r[i] != r[j])
      && (forall i :: 0 <= i < |r| ==> r[i] in s.market.tickers)
  {
    var r, tk, top := StocksToBuy(s, d), s.market.tickers, Selected(s, d);
    var k := |r|;
    SelectionSizeSpec(|tk|, s.topPct);
    Ranking.TopSpec(Scores(s, d), IsMomentum(s), k);
    assert forall i :: 0 <= i < k ==> r[i] == tk[top[i]];
    forall i, j | 0 <= i < j < k ensures r[i] != r[j] {
      assert top[i] != top[j];
    }
  }

  lemma StocksToBuyRanked(s: Setup, d: nat)
    requires WellFormed(s) && Lookback(s) <= d < DayCount(s)
    ensures var r := StocksToBuy(s, d);
      forall i, j :: 0 <= i < |r| && 0 <= j < |s.market.tickers| && s.market.tickers[j] !in r ==>
        var sel, other := TrailingReturn(s, r[i], d), TrailingReturn(s, s.market.tickers[j], d);
        (IsMomentum(s) ==> sel >= other)
        && (!IsMomentum(s) ==> sel <= other)
        && (sel == other ==> exists u :: 0 <= u < j && s.market.tickers[u] == r[i])
  {
    var r, tk, sc, top := StocksToBuy(s, d), s.market.tickers, Scores(s, d), Selected(s, d);
    var k := |r|;
    SelectionSizeSpec(|tk|, s.topPct);
    Ranking.TopSpec(sc, IsMomentum(s), k);
    assert forall i :: 0 <= i < k ==> r[i] == tk[top[i]];
    forall i, j | 0 <= i < k && 0 <= j < |tk| && tk[j] !in r
      ensures var sel, other := TrailingReturn(s, r[i], d), TrailingReturn(s, tk[j], d);
        (IsMomentum(s) ==> sel >= other)
        && (!IsMomentum(s) ==> sel <= other)
        && (sel == other ==> exists u :: 0 <= u < j && tk[u] == r[i])
    {
      assert forall m :: 0 <= m < k ==> top[m] != j;
      assert Ranking.Precedes(sc[top[i]], sc[j], IsMomentum(s));
    }
  }

  // ---------------------------------------------------------------------------
  // Portfolio construction and the daily sums
  // ---------------------------------------------------------------------------

  /** calc_portfolio: one position per ticker, in the given order, each worth an
      equal share of `aum` at day `d`'s close. */
  function Holdings(s: Setup, stocks: seq<string>, aum: real, d: nat): (r: Portfolio)
    requires WellFormed(s) && d < DayCount(s) && |stocks| > 0
    requires forall i :: 0 <= i < |stocks| ==> stocks[i] in s.market.history
    ensures |r| == |stocks| && Held(s, r)
    ensures forall i :: 0 <= i < |r| ==> r[i].ticker == stocks[i]
  {
    seq(|stocks|, i requires 0 <= i < |stocks| =>
      Position(stocks[i], (aum / |stocks| as real) / Close(s, stocks[i], d)))
  }

  /** calc_aum: the portfolio marked to market at day `d`. */
  function Value(s: Setup, p: Portfolio, d: nat): real
    requires WellFormed(s) && Held(s, p) && d < DayCount(s)
  {
    if p == [] then 0.0
    else Value(s, p[..|p| - 1], d) + p[|p| - 1].amount * Close(s, p[|p| - 1].ticker, d)
  }

  /** calc_dividends: the dividends the portfolio receives on day `d`. */
  function Income(s: Setup, p: Portfolio, d: nat): real
    requires WellFormed(s) && Held(s, p) && d < DayCount(s)
  {
    if p == [] then 0.0
    else Income(s, p[..|p| - 1], d) + p[|p| - 1].amount * Dividend(s, p[|p| - 1].ticker, d)
  }

  /** A portfolio whose every position is worth `c` is worth `|p| * c`. */
  lemma {:induction false} ValueOfEqualPositions(s: Setup, p: Portfolio, d: nat, c: real)
    requires WellFormed(s) && Held(s, p) && d < DayCount(s)
    requires forall i :: 0 <= i < |p| ==> p[i].amount * Close(s, p[i].ticker, d) == c
    ensures Value(s, p, d) == |p| as real * c
  {
    if p != [] {
      ValueOfEqualPositions(s, p[..|p| - 1], d, c);
    }
  }

  /** Every position built from `aum` is worth an equal share of it at day `d`'s close. */
  lemma HoldingsEqualShares(s: Setup, stocks: seq<string>, aum: real, d: nat)
    requires WellFormed(s) && d < DayCount(s) && |stocks| > 0
    requires forall i :: 0 <= i < |stocks| ==> stocks[i] in s.market.history
    ensures var r := Holdings(s, stocks, aum, d);
      forall i :: 0 <= i < |r| ==> r[i].amount * Close(s, stocks[i], d) == aum / |stocks| as real
  {
    var r := Holdings(s, stocks, aum, d);
    forall i | 0 <= i < |r| ensures r[i].amount * Close(s, stocks[i], d) == aum / |stocks| as real {
      ShareTimesPrice(aum / |stocks| as real, Close(s, stocks[i], d));
    }
  }

  lemma ShareTimesPrice(share: real, price: real)
    requires price > 0.0
    ensures (share / price) * price == share
  {
  }

  /** With no short positions, the value is non-negative. */
  lemma {:induction false} ValueNonNegative(s: Setup, p: Portfolio, d: nat)
    requires WellFormed(s) && Held(s, p) && d < DayCount(s)
    requires forall i :: 0 <= i < |p| ==> p[i].amount >= 0.0
    ensures Value(s, p, d) >= 0.0
  {
    if p != [] {
      ValueNonNegative(s, p[..|p| - 1], d);
    }
  }

  /** With no short positions and no negative dividend, the income is non-negative. */
  lemma {:induction false} IncomeNonNegative(s: Setup, p: Portfolio, d: nat)
    requires WellFormed(s) && Held(s, p) && d < DayCount(s)
    requires forall i :: 0 <= i < |p| ==> p[i].amount >= 0.0
    requires forall i :: 0 <= i < |p| ==> Dividend(s, p[i].ticker, d) >= 0.0
    ensures Income(s, p, d) >= 0.0
  {
    if p != [] {
      IncomeNonNegative(s, p[..|p| - 1], d);
    }
  }

  /** The positions built from `aum` are worth exactly `aum` at the prices they were
      bought at. */
  lemma HoldingsValue(s: Setup, stocks: seq<string>, aum: real, d: nat)
    requires WellFormed(s) && d < DayCount(s) && |stocks| > 0
    requires forall i :: 0 <= i < |stocks| ==> stocks[i] in s.market.history
    ensures Value(s, Holdings(s, stocks, aum, d), d) == aum
  {
    var p := Holdings(s, stocks, aum, d);
    var c := aum / |stocks| as real;
    HoldingsEqualShares(s, stocks, aum, d);
    ValueOfEqualPositions(s, p, d, c);
  }

  // ---------------------------------------------------------------------------
  // The day-by-day simulation
  // ---------------------------------------------------------------------------

  /** The inputs fill_up_portfolio_performance runs on: there is a month-end after the
      beginning date, and each month-end has the look-back history it needs (so no
      index reaches before the first day). */
  predicate Runnable(s: Setup) {
    WellFormed(s)
    && |MonthEnds(s)| > 0
    && forall k :: 0 <= k < |MonthEnds(s)| ==> Lookback(s) <= MonthEnds(s)[k]
  }

  /** The first rebalance day. */
  function FirstRebalance(s: Setup): nat
    requires Runnable(s)
  {
    MonthEnds(s)[0]
  }

  /** The close of one day of the day loop: the portfolio held, the AUM and the
      cumulative dividends. */
  datatype Day = Day(portfolio: Portfolio, aum: real, dividends: real)

  /** Day `d` of the day loop. Before the first rebalance the table keeps its initial
      row: the initial AUM, no dividends, nothing held. From then on the portfolio is
      rebuilt from the previous day's AUM on a month-end and carried over otherwise,
      the AUM is the portfolio marked to market at the day's close, and the dividends
      it receives are added to the previous day's total. */
  function DayOn(s: Setup, d: nat): (r: Day)
    requires Runnable(s) && d < DayCount(s)
    ensures Held(s, r.portfolio)
  {
    if d < FirstRebalance(s) then Day([], s.initialAum as real, 0.0)
    else
      var prev := DayOn(s, d - 1);
      var p := if d in MonthEnds(s) then Holdings(s, StocksToBuy(s, d), prev.aum, d) else prev.portfolio;
      Day(p, Value(s, p, d), prev.dividends + Income(s, p, d))
  }

  /** The portfolio held at the close of day `d`. */
  function PortfolioOn(s: Setup, d: nat): (r: Portfolio)
    requires Runnable(s) && d < DayCount(s)
    ensures Held(s, r)
  {
    DayOn(s, d).portfolio
  }

  /** The AUM column of day `d`. */
  function AumOn(s: Setup, d: nat): real
    requires Runnable(s) && d < DayCount(s)
  {
    DayOn(s, d).aum
  }

  /** The cumulative dividends column of day `d`. */
  function DividendsOn(s: Setup, d: nat): real
    requires Runnable(s) && d < DayCount(s)
  {
    DayOn(s, d).dividends
  }

  /** The portfolios recorded, one per month-end. */
  function Rebalances(s: Setup): (r: seq<Portfolio>)
    requires Runnable(s)
    ensures |r| == |MonthEnds(s)|
  {
    MonthEndsSpec(s);
    seq(|MonthEnds(s)|, k requires 0 <= k < |MonthEnds(s)| => PortfolioOn(s, MonthEnds(s)[k]))
  }

  /** Before the first rebalance the table keeps its initial row. */
  lemma BeforeFirstRebalance(s: Setup, d: nat)
    requires Runnable(s) && d < FirstRebalance(s)
    ensures d < DayCount(s)
    ensures PortfolioOn(s, d) == [] && AumOn(s, d) == s.initialAum as real && DividendsOn(s, d) == 0.0
  {
  }

  /** From the first rebalance on, a month-end rebuilds the portfolio from the
      previous day's AUM. */
  lemma DayOnRebalance(s: Setup, d: nat)
    requires Runnable(s) && d < DayCount(s) && d in MonthEnds(s)
    ensures d >= 1
    ensures PortfolioOn(s, d) == Holdings(s, StocksToBuy(s, d), AumOn(s, d - 1), d)
  {
    var k :| 0 <= k < |MonthEnds(s)| && MonthEnds(s)[k] == d;
    assert FirstRebalance(s) <= d;
  }

  /** After the first rebalance, any other day carries the portfolio over. */
  lemma DayOnCarry(s: Setup, d: nat)
    requires Runnable(s) && FirstRebalance(s) <= d < DayCount(s) && d !in MonthEnds(s)
    ensures FirstRebalance(s) < d
    ensures PortfolioOn(s, d) == PortfolioOn(s, d - 1)
  {
    assert FirstRebalance(s) in MonthEnds(s);
  }

  /** From the first rebalance on, the AUM is the portfolio's value at the day's close
      and the dividends it receives are added to the previous day's total. */
  lemma DayOnClose(s: Setup, d: nat)
    requires Runnable(s) && FirstRebalance(s) <= d < DayCount(s)
    ensures d >= 1
    ensures AumOn(s, d) == Value(s, PortfolioOn(s, d), d)
    ensures DividendsOn(s, d) == DividendsOn(s, d - 1) + Income(s, PortfolioOn(s, d), d)
  {
    assert Lookback(s) <= FirstRebalance(s);
  }

  /** The record grows by one portfolio per month-end. */
  lemma RebalancesStep(s: Setup, k: nat)
    requires Runnable(s) && k < |MonthEnds(s)|
    ensures Rebalances(s)[..k + 1] == Rebalances(s)[..k] + [PortfolioOn(s, MonthEnds(s)[k])]
  {
    PrefixStep(Rebalances(s), k);
  }

  lemma PrefixStep<T>(xs: seq<T>, k: nat)
    requires k < |xs|
    ensures xs[..k + 1] == xs[..k] + [xs[k]]
  {
  }

  /** A strictly increasing list cut where its elements reach `x` holds `x` exactly
      when `x` is the element at the cut. */
  lemma IncreasingCut(xs: seq<nat>, p: nat, x: nat)
    requires StrictlyIncreasing(xs) && p <= |xs|
    requires p < |xs| ==> xs[p] >= x
    requires p > 0 ==> xs[p - 1] < x
    ensures x in xs <==> p < |xs| && xs[p] == x
  {
    if x in xs {
      var k :| 0 <= k < |xs| && xs[k] == x;
      assert k == p;
    }
  }

  /** AUM continuity: on a rebalance day the new portfolio, sized from the previous
      day's AUM at the day's prices, is worth exactly that AUM. */
  lemma AumContinuity(s: Setup, d: nat)
    requires Runnable(s) && d < DayCount(s) && d in MonthEnds(s)
    ensures AumOn(s, d) == AumOn(s, d - 1)
  {
    MonthEndsSpec(s);
    HoldingsValue(s, StocksToBuy(s, d), AumOn(s, d - 1), d);
  }

  /** Every rebalance buys ceil(n * top_pct / 100) positions. */
  lemma RebalanceSize(s: Setup, k: nat)
    requires Runnable(s) && k < |MonthEnds(s)|
    ensures |Rebalances(s)[k]| == SelectionSize(|s.market.tickers|, s.topPct)
  {
  }

  /** Positions sized from a non-negative AUM are never short. */
  lemma HoldingsLong(s: Setup, stocks: seq<string>, aum: real, d: nat)
    requires WellFormed(s) && d < DayCount(s) && |stocks| > 0
    requires forall i :: 0 <= i < |stocks| ==> stocks[i] in s.market.history
    requires aum >= 0.0
    ensures var p := Holdings(s, stocks, aum, d);
      forall i :: 0 <= i < |p| ==> p[i].amount >= 0.0
  {
    var p := Holdings(s, stocks, aum, d);
    var share := aum / |stocks| as real;
    NonNegativeShare(aum, |stocks|);
    HoldingsEqualShares(s, stocks, aum, d);
    forall i | 0 <= i < |p| ensures p[i].amount >= 0.0 {
      NonNegativeFactor(p[i].amount, Close(s, stocks[i], d), share);
    }
  }

  lemma NonNegativeShare(aum: real, n: nat)
    requires aum >= 0.0 && n > 0
    ensures aum / n as real >= 0.0
  {
  }

  lemma NonNegativeFactor(x: real, c: real, product: real)
    requires c > 0.0 && x * c == product && product >= 0.0
    ensures x >= 0.0
  {
  }

  /** With a non-negative initial AUM, positions are never short and the AUM stays
      non-negative. */
  lemma {:induction false} NoShortPositions(s: Setup, d: nat)
    requires Runnable(s) && d < DayCount(s) && s.initialAum >= 0
    ensures AumOn(s, d) >= 0.0
    ensures d >= FirstRebalance(s) ==>
      forall i :: 0 <= i < |PortfolioOn(s, d)| ==> PortfolioOn(s, d)[i].amount >= 0.0
  {
    if d >= FirstRebalance(s) {
      NoShortPositions(s, d - 1);
      DayOnClose(s, d);
      if d in MonthEnds(s) {
        DayOnRebalance(s, d);
        HoldingsLong(s, StocksToBuy(s, d), AumOn(s, d - 1), d);
      } else {
        DayOnCarry(s, d);
      }
      ValueNonNegative(s, PortfolioOn(s, d), d);
    }
  }

  /** With a non-negative initial AUM and non-negative dividends, the cumulative
      dividends are non-negative and never decrease from one day to the next. */
  lemma {:induction false} DividendsGrow(s: Setup, d: nat)
    requires Runnable(s) && d < DayCount(s) && s.initialAum >= 0
    requires forall t, i :: t in s.market.history && 0 <= i < DayCount(s) ==> Dividend(s, t, i) >= 0.0
    ensures DividendsOn(s, d) >= 0.0
    ensures d >= 1 ==> DividendsOn(s, d) >= DividendsOn(s, d - 1)
  {
    if d >= FirstRebalance(s) {
      DividendsGrow(s, d - 1);
      DayOnClose(s, d);
      NoShortPositions(s, d);
      IncomeNonNegative(s, PortfolioOn(s, d), d);
    }
  }

  /** The performance table keeps the rows from the first date on or after the
      beginning date (all rows when there is none). */
  function StartFrom(dates: seq<int>, b: int, i: nat): (r: nat)
    requires i <= |dates|
    ensures r == 0 || (i <= r < |dates| && dates[r] >= b)
    decreases |dates| - i
  {
    if i == |dates| then 0
    else if dates[i] >= b then i
    else StartFrom(dates, b, i + 1)
  }

  function PerformanceStart(s: Setup): (r: nat)
    ensures r == 0 || (r < DayCount(s) && s.market.dates[r] >= s.beginningDate)
  {
    StartFrom(s.market.dates, s.beginningDate, 0)
  }

  lemma {:induction false} StartFromSpec(dates: seq<int>, b: int, i: nat, w: nat)
    requires i <= w < |dates| && dates[w] >= b
    requires forall k :: 0 <= k < i ==> dates[k] < b
    ensures var r := StartFrom(dates, b, i);
      r <= w && dates[r] >= b && forall k :: 0 <= k < r ==> dates[k] < b
    decreases |dates| - i
  {
    if dates[i] < b {
      StartFromSpec(dates, b, i + 1, w);
    }
  }

  /** The kept rows start at the first date on or after the beginning date, which is
      no later than the first rebalance. */
  lemma PerformanceStartSpec(s: Setup)
    requires Runnable(s)
    ensures var b := PerformanceStart(s);
      b <= FirstRebalance(s) && s.market.dates[b] >= s.beginningDate
      && forall k :: 0 <= k < b ==> s.market.dates[k] < s.beginningDate
  {
    MonthEndsSpec(s);
    assert FirstRebalance(s) in MonthEnds(s);
    StartFromSpec(s.market.dates, s.beginningDate, 0, FirstRebalance(s));
  }

  // ---------------------------------------------------------------------------
  // Information coefficient
  // ---------------------------------------------------------------------------

  /** The number of positions whose close at `next` is strictly above the close at `cur`. */
  function Risers(s: Setup, p: Portfolio, cur: nat, next: nat): (r: nat)
    requires WellFormed(s) && Held(s, p) && cur < DayCount(s) && next < DayCount(s)
    ensures r <= |p|
  {
    if p == [] then 0
    else
      var last := p[|p| - 1];
      Risers(s, p[..|p| - 1], cur, next) + if Close(s, last.ticker, next) > Close(s, last.ticker, cur) then 1 else 0
  }

  /** 2 * (correct / number of stocks bought) - 1 */
  function PeriodIc(s: Setup, p: Portfolio, cur: nat, next: nat): (r: real)
    requires WellFormed(s) && Held(s, p) && cur < DayCount(s) && next < DayCount(s)
    ensures r >= -1.0
  {
    var bought := SelectionSize(|s.market.tickers|, s.topPct);
    SelectionSizeSpec(|s.market.tickers|, s.topPct);
    2.0 * (Risers(s, p, cur, next) as real / bought as real) - 1.0
  }

  /** The recorded portfolios calc_ic reads: one per month-end but the last. */
  predicate IcRecord(s: Setup, record: seq<Portfolio>) {
    WellFormed(s)
    && |MonthEnds(s)| <= |record| + 1
    && forall i :: 0 <= i < |record| ==> Held(s, record[i])
  }

  /** The IC of period `i`: from month-end `i` to month-end `i + 1`. */
  function IcOfPeriod(s: Setup, record: seq<Portfolio>, i: nat): real
    requires IcRecord(s, record) && i + 1 < |MonthEnds(s)|
  {
    PeriodIc(s, record[i], MonthEnds(s)[i], MonthEnds(s)[i + 1])
  }

  /** Row `i` of monthly_ic: the running sum of the period ICs 0..i. */
  function CumulativeIc(s: Setup, record: seq<Portfolio>, i: nat): (r: real)
    requires IcRecord(s, record) && i + 1 < |MonthEnds(s)|
    ensures r >= -(i + 1) as real
  {
    if i == 0 then IcOfPeriod(s, record, 0)
    else CumulativeIc(s, record, i - 1) + IcOfPeriod(s, record, i)
  }

  /** The portfolios the day loop records are what calc_ic reads: one per month-end,
      each of ceil(n * top_pct / 100) held positions. */
  lemma RebalancesFeedIc(s: Setup)
    requires Runnable(s)
    ensures IcRecord(s, Rebalances(s))
    ensures forall j :: 0 <= j < |Rebalances(s)| ==>
      |Rebalances(s)[j]| == SelectionSize(|s.market.tickers|, s.topPct)
  {
    forall j | 0 <= j < |Rebalances(s)|
      ensures |Rebalances(s)[j]| == SelectionSize(|s.market.tickers|, s.topPct)
    {
      RebalanceSize(s, j);
    }
  }

  /** A period's IC lies in [-1, 1] when at most the selection size was bought; it is
      -1 when no stock rose and 1 when every one of a full selection rose. */
  lemma PeriodIcBounds(s: Setup, p: Portfolio, cur: nat, next: nat)
    requires WellFormed(s) && Held(s, p) && cur < DayCount(s) && next < DayCount(s)
    requires |p| <= SelectionSize(|s.market.tickers|, s.topPct)
    ensures -1.0 <= PeriodIc(s, p, cur, next) <= 1.0
    ensures Risers(s, p, cur, next) == 0 ==> PeriodIc(s, p, cur, next) == -1.0
    ensures Risers(s, p, cur, next) == SelectionSize(|s.market.tickers|, s.topPct) ==>
      PeriodIc(s, p, cur, next) == 1.0
  {
    var bought := SelectionSize(|s.market.tickers|, s.topPct);
    SelectionSizeSpec(|s.market.tickers|, s.topPct);
    RatioBounds(Risers(s, p, cur, next), bought);
  }

  lemma RatioBounds(c: nat, b: nat)
    requires 1 <= b && c <= b
    ensures 0.0 <= c as real / b as real <= 1.0
    ensures c == 0 ==> c as real / b as real == 0.0
    ensures c == b ==> c as real / b as real == 1.0
  {
  }

  /** After `i + 1` periods the cumulative IC lies in [-(i + 1), i + 1]. */
  lemma {:induction false} CumulativeIcBounds(s: Setup, record: seq<Portfolio>, i: nat)
    requires IcRecord(s, record) && i + 1 < |MonthEnds(s)|
    requires forall j :: 0 <= j < |record| ==> |record[j]| <= SelectionSize(|s.market.tickers|, s.topPct)
    ensures -(i + 1) as real <= CumulativeIc(s, record, i) <= (i + 1) as real
  {
    var me := MonthEnds(s);
    PeriodIcBounds(s, record[i], me[i], me[i + 1]);
    if i > 0 {
      CumulativeIcBounds(s, record, i - 1);
    }
  }

  /** From one month-end to the next the cumulative IC rises by the period's IC, so it
      does not fall exactly when that IC is non-negative; a period in which no stock
      rose lowers it by 1. */
  lemma CumulativeIcStep(s: Setup, record: seq<Portfolio>, i: nat)
    requires IcRecord(s, record) && 0 < i && i + 1 < |MonthEnds(s)|
    requires |record[i]| <= SelectionSize(|s.market.tickers|, s.topPct)
    ensures CumulativeIc(s, record, i - 1) <= CumulativeIc(s, record, i) <==> IcOfPeriod(s, record, i) >= 0.0
    ensures Risers(s, record[i], MonthEnds(s)[i], MonthEnds(s)[i + 1]) == 0 ==>
      CumulativeIc(s, record, i) == CumulativeIc(s, record, i - 1) - 1.0
  {
    PeriodIcBounds(s, record[i], MonthEnds(s)[i], MonthEnds(s)[i + 1]);
  }

}
