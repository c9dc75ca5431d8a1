/** The backtest engine: an object holding the fetched data and the user's parameters,
    whose methods select stocks at each month-end, build the equal-weight portfolio,
    roll the AUM and the cumulative dividends forward day by day, and compute the
    monthly cumulative information coefficient. Each method is proved to compute the
    corresponding function of module BacktestSpec. */
module Backtest {
  import opened BacktestSpec
  import Ranking

  class RunBacktest {
    const setup: Setup

    /** The portfolio currently held. */
    var portfolio: Portfolio
    /** Every portfolio bought, in order. */
    var portfolioRecord: seq<Portfolio>

    /** The performance table: a date, an AUM and a cumulative dividend per row. */
    var performanceDates: seq<int>
    var performanceAum: array<real>
    var performanceDividends: array<real>

    /** The monthly IC table: a month-end date and a cumulative IC per row. */
    var icDates: seq<int>
    var monthlyIc: array<real>

    ghost predicate Valid()
      reads this
    {
      performanceAum.Length == |performanceDates|
      && performanceDividends.Length == |performanceDates|
      && performanceAum != performanceDividends
      && monthlyIc.Length == |icDates|
      && Held(setup, portfolio)
      && forall i :: 0 <= i < |portfolioRecord| ==> Held(setup, portfolioRecord[i])
    }

    constructor (market: Market, initialAum: int, beginningDate: int, days: int,
                 strategy: string, topPct: int)
      ensures Valid()
      ensures setup == Setup(market, initialAum, beginningDate, days, strategy, topPct)
      ensures portfolio == [] && portfolioRecord == []
      ensures performanceDates == [] && icDates == []
    {
      setup := Setup(market, initialAum, beginningDate, days, strategy, topPct);
      portfolio := [];
      portfolioRecord := [];
      performanceDates := [];
      performanceAum := new real[0];
      performanceDividends := new real[0];
      icDates := [];
      monthlyIc := new real[0];
    }

    /** get_month_end_indexes_from_b */
    method GetMonthEndIndexesFromB() returns (monthEndIndexes: seq<nat>)
      requires WellFormed(setup)
      ensures monthEndIndexes == MonthEnds(setup)
    {
      var dates, months := setup.market.dates, setup.market.months;
      monthEndIndexes := [];
      if |dates| == 0 {
        return;
      }
      for idx := 0 to |dates| - 1
        invariant monthEndIndexes == MonthEndsBelow(setup, idx)
      {
        if months[idx] != months[idx + 1] && dates[idx] > setup.beginningDate {
          monthEndIndexes := monthEndIndexes + [idx];
        }
      }
    }

    /** calc_stocks_to_buy */
    method CalcStocksToBuy(dateIndex: nat) returns (stocksToBuy: seq<string>)
      requires WellFormed(setup) && Lookback(setup) <= dateIndex < DayCount(setup)
      ensures stocksToBuy == StocksToBuy(setup, dateIndex)
    {
      var stocks := setup.market.tickers;
      var stocksReturns := CalcReturns(dateIndex);
      var ranked := Ranking.Sort(stocksReturns, setup.strategy == Momentum);
      var nStocks := (|stocks| * setup.topPct + 99) / 100;
      StocksToBuyFromRanking(setup, dateIndex);
      stocksToBuy := seq(nStocks, k requires 0 <= k < nStocks => stocks[ranked[k].pos]);
    }

    /** The first loop of calc_stocks_to_buy: each stock's percentage change over the
        look-back, measured up to 20 days before the date for momentum. */
    method CalcReturns(dateIndex: nat) returns (stocksReturns: seq<Ranking.Entry>)
      requires WellFormed(setup) && Lookback(setup) <= dateIndex < DayCount(setup)
      ensures stocksReturns == Scores(setup, dateIndex)
    {
      var stocks := setup.market.tickers;
      var isMomentum := setup.strategy == Momentum;
      var reference := dateIndex - (if isMomentum then MomentumGap else 0);
      stocksReturns := [];
      for i := 0 to |stocks|
        invariant stocksReturns == Scores(setup, dateIndex)[..i]
      {
        var history := setup.market.history[stocks[i]];
        var endClose := history[reference].close;
        var startClose := history[reference - setup.days].close;
        var pctChange := (endClose - startClose) / startClose * 100.0;
        stocksReturns := stocksReturns + [Ranking.Entry(i, pctChange)];
      }
    }

    /** calc_portfolio */
    method CalcPortfolio(stocksToBuy: seq<string>, aum: real, dateIndex: nat)
      returns (stocksAmount: Portfolio)
      requires WellFormed(setup) && dateIndex < DayCount(setup) && |stocksToBuy| > 0
      requires forall i :: 0 <= i < |stocksToBuy| ==> stocksToBuy[i] in setup.market.history
      ensures stocksAmount == Holdings(setup, stocksToBuy, aum, dateIndex)
    {
      var aumPerStock := aum / |stocksToBuy| as real;
      stocksAmount := [];
      for i := 0 to |stocksToBuy|
        invariant stocksAmount == Holdings(setup, stocksToBuy, aum, dateIndex)[..i]
      {
        var price := setup.market.history[stocksToBuy[i]][dateIndex].close;
        var amount := aumPerStock / price;
        stocksAmount := stocksAmount + [Position(stocksToBuy[i], amount)];
      }
    }

    /** init_portfolio_performance */
    method InitPortfolioPerformance()
      requires Valid()
      requires |performanceDates| == 0 || |performanceDates| == DayCount(setup)
      modifies this
      ensures Valid()
      ensures fresh(performanceAum) && fresh(performanceDividends)
      ensures performanceDates == setup.market.dates
      ensures performanceAum[..] == seq(DayCount(setup), _ => setup.initialAum as real)
      ensures performanceDividends[..] == seq(DayCount(setup), _ => 0.0)
      ensures portfolio == old(portfolio) && portfolioRecord == old(portfolioRecord)
      ensures icDates == old(icDates) && monthlyIc == old(monthlyIc)
    {
      var n := |setup.market.dates|;
      performanceDates := setup.market.dates;
      performanceAum := new real[n](_ => setup.initialAum as real);
      performanceDividends := new real[n](_ => 0.0);
    }

    /** calc_aum */
    method CalcAum(dateIndex: nat) returns (totalAum: real)
      requires Valid() && WellFormed(setup) && dateIndex < DayCount(setup)
      ensures totalAum == Value(setup, portfolio, dateIndex)
    {
      totalAum := 0.0;
      for i := 0 to |portfolio|
        invariant totalAum == Value(setup, portfolio[..i], dateIndex)
      {
        var endClose := setup.market.history[portfolio[i].ticker][dateIndex].close;
        totalAum := totalAum + portfolio[i].amount * endClose;
        assert portfolio[..i + 1][..i] == portfolio[..i];
      }
      assert portfolio[..|portfolio|] == portfolio;
    }

    /** calc_dividends */
    method CalcDividends(dateIndex: nat) returns (totalDividends: real)
      requires Valid() && WellFormed(setup) && dateIndex < DayCount(setup)
      ensures totalDividends == Income(setup, portfolio, dateIndex)
    {
      totalDividends := 0.0;
      for i := 0 to |portfolio|
        invariant totalDividends == Income(setup, portfolio[..i], dateIndex)
      {
        var dividends := setup.market.history[portfolio[i].ticker][dateIndex].dividend;
        totalDividends := totalDividends + portfolio[i].amount * dividends;
        assert portfolio[..i + 1][..i] == portfolio[..i];
      }
      assert portfolio[..|portfolio|] == portfolio;
    }

    /** The state of the day loop of fill_up_portfolio_performance before day `dayIdx`:
        every earlier row holds the simulated AUM and cumulative dividend, the portfolio
        is the one held the day before, and the first `passed` month-ends have been
        rebalanced on, each adding its portfolio to the record after `base`. */
    ghost predicate FilledBefore(dayIdx: nat, passed: nat, base: seq<Portfolio>)
      reads this, performanceAum, performanceDividends
    {
      Valid() && Runnable(setup)
      && var me, n := MonthEnds(setup), DayCount(setup);
      me[0] <= dayIdx <= n
      && performanceAum.Length == n
      && performanceDates == setup.market.dates
      && (forall j :: 0 <= j < dayIdx ==>
            performanceAum[j] == AumOn(setup, j) && performanceDividends[j] == DividendsOn(setup, j))
      && (dayIdx > me[0] ==> portfolio == PortfolioOn(setup, dayIdx - 1))
      && passed <= |me|
      && (passed < |me| ==> me[passed] >= dayIdx)
      && (passed > 0 ==> me[passed - 1] < dayIdx)
      && portfolioRecord == base + Rebalances(setup)[..passed]
    }

    /** The first half of one pass of the day loop: on a month-end, buy the selected
        stocks with the previous day's AUM and add the portfolio to the record. */
    method RebalanceIfMonthEnd(dayIdx: nat, monthEndIndexes: seq<nat>, ghost passed: nat, ghost base: seq<Portfolio>)
      returns (ghost passedAfter: nat)
      requires Valid() && Runnable(setup) && monthEndIndexes == MonthEnds(setup)
      requires monthEndIndexes[0] <= dayIdx < DayCount(setup) == performanceAum.Length
      requires performanceAum[dayIdx - 1] == AumOn(setup, dayIdx - 1)
      requires dayIdx > monthEndIndexes[0] ==> portfolio == PortfolioOn(setup, dayIdx - 1)
      requires passed <= |monthEndIndexes|
      requires passed < |monthEndIndexes| ==> monthEndIndexes[passed] >= dayIdx
      requires passed > 0 ==> monthEndIndexes[passed - 1] < dayIdx
      requires portfolioRecord == base + Rebalances(setup)[..passed]
      modifies this
      ensures Valid() && portfolio == PortfolioOn(setup, dayIdx)
      ensures passedAfter <= |monthEndIndexes|
      ensures passedAfter < |monthEndIndexes| ==> monthEndIndexes[passedAfter] > dayIdx
      ensures passedAfter > 0 ==> monthEndIndexes[passedAfter - 1] <= dayIdx
      ensures portfolioRecord == base + Rebalances(setup)[..passedAfter]
      ensures performanceDates == old(performanceDates)
      ensures performanceAum == old(performanceAum) && performanceDividends == old(performanceDividends)
      ensures icDates == old(icDates) && monthlyIc == old(monthlyIc)
    {
      assert StrictlyIncreasing(monthEndIndexes);
      IncreasingCut(monthEndIndexes, passed, dayIdx);
      passedAfter := passed;
      if dayIdx in monthEndIndexes {
        Rebalance(dayIdx, passed, base);
        passedAfter := passed + 1;
      } else {
        DayOnCarry(setup, dayIdx);
      }
    }

    /** A month-end of the day loop: buy the selected stocks with the previous day's
        AUM and add the portfolio to the record. */
    method Rebalance(dayIdx: nat, ghost passed: nat, ghost base: seq<Portfolio>)
      requires Valid() && Runnable(setup)
      requires passed < |MonthEnds(setup)| && MonthEnds(setup)[passed] == dayIdx
      requires dayIdx < performanceAum.Length == DayCount(setup)
      requires performanceAum[dayIdx - 1] == AumOn(setup, dayIdx - 1)
      requires portfolioRecord == base + Rebalances(setup)[..passed]
      modifies this
      ensures Valid() && portfolio == PortfolioOn(setup, dayIdx)
      ensures portfolioRecord == base + Rebalances(setup)[..passed + 1]
      ensures performanceDates == old(performanceDates)
      ensures performanceAum == old(performanceAum) && performanceDividends == old(performanceDividends)
      ensures icDates == old(icDates) && monthlyIc == old(monthlyIc)
    {
      DayOnRebalance(setup, dayIdx);
      var stocksToBuy := CalcStocksToBuy(dayIdx);
      var previousAum := performanceAum[dayIdx - 1];
      portfolio := CalcPortfolio(stocksToBuy, previousAum, dayIdx);
      portfolioRecord := portfolioRecord + [portfolio];
      RebalancesStep(setup, passed);
    }

    /** One pass of the day loop: rebalance on a month-end, then record the day's AUM
        and add its dividends to the running total. */
    method ProcessDay(dayIdx: nat, monthEndIndexes: seq<nat>, ghost passed: nat, ghost base: seq<Portfolio>)
      returns (ghost passedAfter: nat)
      requires FilledBefore(dayIdx, passed, base) && dayIdx < DayCount(setup)
      requires monthEndIndexes == MonthEnds(setup)
      modifies this, performanceAum, performanceDividends
      ensures FilledBefore(dayIdx + 1, passedAfter, base)
      ensures performanceAum == old(performanceAum) && performanceDividends == old(performanceDividends)
      ensures forall j :: dayIdx < j < performanceAum.Length ==>
        performanceAum[j] == old(performanceAum[j]) && performanceDividends[j] == old(performanceDividends[j])
      ensures icDates == old(icDates) && monthlyIc == old(monthlyIc)
    {
      passedAfter := RebalanceIfMonthEnd(dayIdx, monthEndIndexes, passed, base);
      RecordDay(dayIdx);
    }

    /** The second half of one pass of the day loop: write the day's AUM and add its
        dividends to the previous day's cumulative total. */
    method RecordDay(dayIdx: nat)
      requires Valid() && Runnable(setup)
      requires FirstRebalance(setup) <= dayIdx < DayCount(setup) == performanceAum.Length
      requires portfolio == PortfolioOn(setup, dayIdx)
      requires forall j :: 0 <= j < dayIdx ==>
        performanceAum[j] == AumOn(setup, j) && performanceDividends[j] == DividendsOn(setup, j)
      modifies performanceAum, performanceDividends
      ensures forall j :: 0 <= j < dayIdx + 1 ==>
        performanceAum[j] == AumOn(setup, j) && performanceDividends[j] == DividendsOn(setup, j)
      ensures forall j :: dayIdx < j < performanceAum.Length ==>
        performanceAum[j] == old(performanceAum[j]) && performanceDividends[j] == old(performanceDividends[j])
    {
      var totalAum, dividends := CloseOfDay(dayIdx);
      ghost var aumBefore, dividendsBefore := performanceAum[..], performanceDividends[..];
      performanceAum[dayIdx] := totalAum;
      performanceDividends[dayIdx] := dividends;
      assert performanceAum[..] == aumBefore[dayIdx := totalAum];
      assert performanceDividends[..] == dividendsBefore[dayIdx := dividends];
    }

    /** The day's AUM and cumulative dividends, from the held portfolio and the previous
        day's row. */
    method CloseOfDay(dayIdx: nat) returns (totalAum: real, dividends: real)
      requires Valid() && Runnable(setup)
      requires FirstRebalance(setup) <= dayIdx < DayCount(setup) == performanceAum.Length
      requires portfolio == PortfolioOn(setup, dayIdx)
      requires performanceDividends[dayIdx - 1] == DividendsOn(setup, dayIdx - 1)
      ensures totalAum == AumOn(setup, dayIdx) && dividends == DividendsOn(setup, dayIdx)
    {
      DayOnClose(setup, dayIdx);
      totalAum := CalcAum(dayIdx);
      var income := CalcDividends(dayIdx);
      dividends := performanceDividends[dayIdx - 1] + income;
    }

    /** fill_up_portfolio_performance: runs the day loop from the first month-end to the
        last day, then keeps the rows from the first date on or after the beginning
        date. */
    method FillUpPortfolioPerformance()
      requires Valid() && Runnable(setup)
      requires |performanceDates| == 0 || |performanceDates| == DayCount(setup)
      modifies this
      ensures Valid()
      ensures portfolio == PortfolioOn(setup, DayCount(setup) - 1)
      ensures portfolioRecord == old(portfolioRecord) + Rebalances(setup)
      ensures var b := PerformanceStart(setup);
        b < DayCount(setup)
        && performanceDates == setup.market.dates[b..]
        && forall i :: 0 <= i < |performanceDates| ==>
             performanceAum[i] == AumOn(setup, b + i) && performanceDividends[i] == DividendsOn(setup, b + i)
      ensures icDates == old(icDates) && monthlyIc == old(monthlyIc)
    {
      InitPortfolioPerformance();
      var monthEndIndexes := GetMonthEndIndexesFromB();
      ghost var base := portfolioRecord;
      forall j | 0 <= j < monthEndIndexes[0]
        ensures performanceAum[j] == AumOn(setup, j) && performanceDividends[j] == DividendsOn(setup, j)
      {
        BeforeFirstRebalance(setup, j);
      }
      assert base + Rebalances(setup)[..0] == base;
      RunDayLoop(monthEndIndexes, base);
      assert Rebalances(setup)[..|monthEndIndexes|] == Rebalances(setup);
      KeepRowsFromBeginning();
    }

    /** The day loop of fill_up_portfolio_performance, from the first month-end to the
        last day. */
    method RunDayLoop(monthEndIndexes: seq<nat>, ghost base: seq<Portfolio>)
      requires Valid() && Runnable(setup) && monthEndIndexes == MonthEnds(setup)
      requires FilledBefore(monthEndIndexes[0], 0, base)
      modifies this, performanceAum, performanceDividends
      ensures FilledBefore(DayCount(setup), |monthEndIndexes|, base)
      ensures performanceAum == old(performanceAum) && performanceDividends == old(performanceDividends)
      ensures icDates == old(icDates) && monthlyIc == old(monthlyIc)
    {
      var n := |setup.market.dates|;
      ghost var passed: nat := 0;
      for dayIdx := monthEndIndexes[0] to n
        invariant FilledBefore(dayIdx, passed, base)
        invariant performanceAum == old(performanceAum) && performanceDividends == old(performanceDividends)
        invariant icDates == old(icDates) && monthlyIc == old(monthlyIc)
      {
        passed := ProcessDay(dayIdx, monthEndIndexes, passed, base);
      }
      assert monthEndIndexes[|monthEndIndexes| - 1] + 1 < n;
    }

    /** The end of fill_up_portfolio_performance: drop the rows dated before the
        beginning date. */
    method KeepRowsFromBeginning()
      requires Valid() && Runnable(setup) && performanceDates == setup.market.dates
      requires forall j :: 0 <= j < DayCount(setup) ==>
        performanceAum[j] == AumOn(setup, j) && performanceDividends[j] == DividendsOn(setup, j)
      modifies this
      ensures var b := PerformanceStart(setup);
        b < DayCount(setup)
        && performanceDates == setup.market.dates[b..]
        && performanceAum.Length == |performanceDates| && performanceDividends.Length == |performanceDates|
        && forall i :: 0 <= i < |performanceDates| ==>
             performanceAum[i] == AumOn(setup, b + i) && performanceDividends[i] == DividendsOn(setup, b + i)
      ensures Valid() && fresh(performanceAum) && fresh(performanceDividends)
      ensures portfolio == old(portfolio) && portfolioRecord == old(portfolioRecord)
      ensures icDates == old(icDates) && monthlyIc == old(monthlyIc)
    {
      var bIdx := FirstRowOnOrAfterBeginning();
      PerformanceStartSpec(setup);
      MonthEndsSpec(setup);
      performanceDates := performanceDates[bIdx..];
      performanceAum := Suffix(performanceAum, bIdx);
      performanceDividends := Suffix(performanceDividends, bIdx);
    }

    /** The row index the performance table is cut at: the first date on or after the
        beginning date, or 0 when there is none. */
    method FirstRowOnOrAfterBeginning() returns (bIdx: nat)
      requires performanceDates == setup.market.dates
      ensures bIdx == PerformanceStart(setup)
    {
      var dates := performanceDates;
      bIdx := 0;
      var idx := 0;
      while idx < |dates|
        invariant idx <= |dates|
        invariant StartFrom(dates, setup.beginningDate, idx) == PerformanceStart(setup)
      {
        if dates[idx] >= setup.beginningDate {
          bIdx := idx;
          return;
        }
        idx := idx + 1;
      }
    }

    /** A fresh array holding a[from..]. */
    static method Suffix(a: array<real>, from: nat) returns (r: array<real>)
      requires from <= a.Length
      ensures fresh(r) && r[..] == a[from..]
    {
      r := new real[a.Length - from](i requires 0 <= i < a.Length - from reads a => a[from + i]);
    }

    /** calc_ic */
    method CalcIc()
      requires Valid() && IcRecord(setup, portfolioRecord)
      modifies this
      ensures portfolio == old(portfolio) && portfolioRecord == old(portfolioRecord)
      ensures performanceDates == old(performanceDates)
      ensures performanceAum == old(performanceAum) && performanceDividends == old(performanceDividends)
      ensures Valid() && fresh(monthlyIc)
      ensures var me := MonthEnds(setup);
        var periods := if |me| > 0 then |me| - 1 else 0;
        icDates == seq(periods, k requires 0 <= k < periods => setup.market.dates[me[k]])
        && monthlyIc.Length == periods
        && forall i :: 0 <= i < periods ==> monthlyIc[i] == CumulativeIc(setup, portfolioRecord, i)
    {
      var record := portfolioRecord;
      var monthEndIndexes := GetMonthEndIndexesFromB();
      var periods := if |monthEndIndexes| > 0 then |monthEndIndexes| - 1 else 0;
      icDates := seq(periods, k requires 0 <= k < periods => setup.market.dates[monthEndIndexes[k]]);
      monthlyIc := new real[periods](_ => 0.0);
      FillMonthlyIc(record, monthEndIndexes);
    }

    /** The outer loop of calc_ic: row `i` of monthly_ic is row `i - 1` plus the IC of
        period `i`. */
    method FillMonthlyIc(record: seq<Portfolio>, monthEndIndexes: seq<nat>)
      requires IcRecord(setup, record) && monthEndIndexes == MonthEnds(setup)
      requires monthlyIc.Length == if |monthEndIndexes| > 0 then |monthEndIndexes| - 1 else 0
      modifies monthlyIc
      ensures forall i :: 0 <= i < monthlyIc.Length ==> monthlyIc[i] == CumulativeIc(setup, record, i)
    {
      var periods := monthlyIc.Length;
      for i := 0 to periods
        invariant forall k :: 0 <= k < i ==> monthlyIc[k] == CumulativeIc(setup, record, k)
      {
        var informationCoeff := CalcPeriodIc(record[i], monthEndIndexes[i], monthEndIndexes[i + 1]);
        AddPeriodIc(record, i, informationCoeff);
      }
    }

    /** Row `i` of monthly_ic: the period's IC, added to row `i - 1` after the first. */
    method AddPeriodIc(record: seq<Portfolio>, i: nat, informationCoeff: real)
      requires IcRecord(setup, record) && i < monthlyIc.Length
      requires i + 1 < |MonthEnds(setup)|
      requires informationCoeff == IcOfPeriod(setup, record, i)
      requires forall k :: 0 <= k < i ==> monthlyIc[k] == CumulativeIc(setup, record, k)
      modifies monthlyIc
      ensures forall k :: 0 <= k < i + 1 ==> monthlyIc[k] == CumulativeIc(setup, record, k)
      ensures forall k :: i < k < monthlyIc.Length ==> monthlyIc[k] == old(monthlyIc[k])
    {
      ghost var before := monthlyIc[..];
      var row := if i == 0 then informationCoeff else monthlyIc[i - 1] + informationCoeff;
      assert row == CumulativeIc(setup, record, i);
      monthlyIc[i] := row;
      assert monthlyIc[..] == before[i := row];
    }

    /** One period of calc_ic: twice the proportion of the stocks bought that rose,
        minus one. */
    method CalcPeriodIc(held: Portfolio, cur: nat, next: nat) returns (informationCoeff: real)
      requires WellFormed(setup) && Held(setup, held) && cur < DayCount(setup) && next < DayCount(setup)
      ensures informationCoeff == PeriodIc(setup, held, cur, next)
    {
      var numberStocksBought := (|setup.market.tickers| * setup.topPct + 99) / 100;
      var numberCorrect := CountCorrect(held, cur, next);
      var propCorrect := numberCorrect as real / numberStocksBought as real;
      informationCoeff := 2.0 * propCorrect - 1.0;
    }

    /** The inner loop of calc_ic: how many held stocks closed higher at `next` than at
        `cur`. */
    method CountCorrect(held: Portfolio, cur: nat, next: nat) returns (numberCorrect: nat)
      requires WellFormed(setup) && Held(setup, held) && cur < DayCount(setup) && next < DayCount(setup)
      ensures numberCorrect == Risers(setup, held, cur, next)
    {
      numberCorrect := 0;
      for j := 0 to |held|
        invariant numberCorrect == Risers(setup, held[..j], cur, next)
      {
        var currentClose := setup.market.history[held[j].ticker][cur].close;
        var nextClose := setup.market.history[held[j].ticker][next].close;
        if nextClose > currentClose {
          numberCorrect := numberCorrect + 1;
        }
        assert held[..j + 1][..j] == held[..j];
      }
      assert held[..|held|] == held;
    }
  }
}
