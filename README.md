# Monthly-rebalanced momentum/reversal backtest

This project models the core of a small stock backtester.

- The backtest engine `RunBacktest` starts from each stock's daily close and dividend history.
- At every month-end after a beginning date, it ranks the universe by trailing percentage return:
  - momentum measures the return up to 20 trading days before the month-end and ranks descending;
  - reversal measures it up to the month-end itself and ranks ascending.
- It buys the first `ceil(n * top_pct / 100)` stocks with equal weights, sized from the previous day's assets under management (AUM).
- From there it rolls the AUM and the cumulative dividends forward day by day.
- It also computes a running cumulative information coefficient (IC) from the recorded portfolios.
- The validators of `InputData` check the raw command-line values: tickers, beginning and ending date, initial AUM, strategy, look-back days and top percentage.

The model is split into four modules:

- `InputData` (`input_data.dfy`): each validator is a function from the field value to `Ok(value)` or the exception it raises. Today's date is a parameter.
- `Ranking` (`ranking.dfy`): the stable sort of the (stock, return) list.
  - The list is built in universe order, and Python's sort is stable. So the sorted result is the list ordered by return first and universe position second.
  - `Ranking.Sort` computes that order. `Ranking.OrderedUnique` shows it is the only permutation ordered that way.
- `BacktestSpec` (`backtest_spec.dfy`): what the engine computes, as functions of its inputs (`MonthEnds`, `StocksToBuy`, `Holdings`, `Value`, `Income`, `DayOn`, `Rebalances`, `CumulativeIc`), and the lemmas about them.
- `Backtest` (`run_backtest.dfy`): the class `RunBacktest`.
  - The portfolio and the portfolio record are `seq` fields that the methods reassign.
  - The performance table's AUM and dividend columns are `array<real>` fields written in place, and so is the monthly IC column.
  - Every method is proved to compute the corresponding `BacktestSpec` function or to leave the table equal to it.

A stock's history is a sequence of `Bar(close, dividend)` reals, indexed by trading day. The shared calendar is a sequence of day ordinals and a sequence of month numbers. The engine reads both from the first stock's date index.

## Model

| member | source | states |
|---|---|---|
| Backtest.RunBacktest.constructor | src/run_backtest.py:48-69 | the object keeps the six arguments; the portfolio, the portfolio record and both tables start empty |
| Backtest.RunBacktest.GetMonthEndIndexesFromB | src/run_backtest.py:76-85 | the scan returns exactly `MonthEnds(setup)` |
| BacktestSpec.MonthEnds | src/run_backtest.py:78-85 | the month-end scan as a function of the calendar and the beginning date; every position it returns has a next day (its meaning is `MonthEndsSpec`) |
| BacktestSpec.MonthEndsSpec | src/run_backtest.py:78-85 | a position is a month-end exactly when it is before the last day, its month differs from the next day's, and its date is strictly after the beginning date; the list is strictly increasing and never holds the last position |
| BacktestSpec.MonthEndsBelowMembers | src/run_backtest.py:80-83 | after scanning positions below `n`, the list holds exactly the month-ends below `n` |
| Backtest.RunBacktest.CalcReturns | src/run_backtest.py:100-110 | the (stock, return) list is the universe in order, each with its percentage change over `days` trading days up to the reference position (20 days back for momentum) |
| Backtest.RunBacktest.CalcStocksToBuy | src/run_backtest.py:100-115 | the method returns `StocksToBuy(setup, d)`, the tickers of the first `ceil(n * top_pct / 100)` entries of the sorted list |
| BacktestSpec.TrailingReturn | src/run_backtest.py:103-109 | the percentage change of a stock's close over `days` trading days, ending 20 days back for momentum (how it ranks is `StocksToBuySpec`) |
| BacktestSpec.Scores | src/run_backtest.py:105-110 | the (stock, return) list has one entry per stock, in universe order, entry `i` carrying position `i` |
| BacktestSpec.StocksToBuy | src/run_backtest.py:100-115 | the tickers bought at a month-end: `ceil(n * top_pct / 100)` tickers, each with a history (its meaning is `StocksToBuySpec`) |
| BacktestSpec.StocksToBuyFromRanking | src/run_backtest.py:112-114 | the selection is read off the first `k` entries of `Ranking.Sort`, with `k` no larger than the list |
| BacktestSpec.SelectionSizeSpec | src/run_backtest.py:113 | `(n * pct + 99) / 100` is the ceiling of `n * pct / 100` and lies in `1..n` for `n >= 1` and pct in 1..100 |
| BacktestSpec.StocksToBuySpec | src/run_backtest.py:100-115 | the selection has `ceil(n * top_pct / 100)` distinct tickers of the universe; each one's return is >= (momentum) or <= (reversal) every unselected stock's return; on a tie the selected stock comes earlier in the universe |
| Ranking.Sort | src/run_backtest.py:112 | the stable sort of the (stock, return) list, by insertion in rank order; it keeps the list's length (that it is an ordered permutation is `SortSpec`, that it is the only one is `OrderedUnique`) |
| Ranking.SortSpec | src/run_backtest.py:112 | the sort returns a permutation of its input ordered by rank |
| Ranking.InsertOrdered | src/run_backtest.py:112 | inserting an entry with a new universe position keeps a list ordered |
| Ranking.OrderedUnique | src/run_backtest.py:112 | two ordered permutations of one list are equal, so `Sort` is the stable sort's result |
| Ranking.SortIndexed | src/run_backtest.py:112 | sorting a list built in universe order ranks every position exactly once, each with its own return |
| Ranking.Top | src/run_backtest.py:113-114 | the universe positions of the first `k` entries of the sorted list, exactly `k` of them (their ranking is `TopSpec`) |
| Ranking.TopSpec | src/run_backtest.py:112-114 | the top `k` positions are distinct positions of the universe, each ranked ahead of every position left out |
| Backtest.RunBacktest.CalcPortfolio | src/run_backtest.py:136-143 | the method returns `Holdings`: one position per ticker, in input order, of `(aum / k) / price` shares |
| BacktestSpec.Holdings | src/run_backtest.py:136-143 | the portfolio built from `aum`: one position per ticker, in the given order, each holding a ticker with a history (its value is `HoldingsEqualShares` and `HoldingsValue`) |
| BacktestSpec.HoldingsEqualShares | src/run_backtest.py:136-142 | each position built is worth `aum / k` at the day's close |
| BacktestSpec.HoldingsValue | src/run_backtest.py:136-142 | the positions built from `aum` are worth exactly `aum` at the prices they were bought at |
| BacktestSpec.HoldingsLong | src/run_backtest.py:136-142 | positions sized from a non-negative AUM are never short |
| Backtest.RunBacktest.InitPortfolioPerformance | src/run_backtest.py:151-156 | the table gets one row per trading day, each with the initial AUM and dividends 0 |
| Backtest.RunBacktest.CalcAum | src/run_backtest.py:169-173 | the loop returns `Value`: the sum of amount times close over the current portfolio |
| BacktestSpec.Value | src/run_backtest.py:169-173 | the sum of amount times close over a portfolio (its properties are `ValueOfEqualPositions` and `ValueNonNegative`) |
| BacktestSpec.ValueOfEqualPositions | src/run_backtest.py:169-173 | a portfolio whose every position is worth `c` is worth `|p| * c` |
| BacktestSpec.ValueNonNegative | src/run_backtest.py:169-173 | a portfolio with no short position has a non-negative value |
| Backtest.RunBacktest.CalcDividends | src/run_backtest.py:186-190 | the loop returns `Income`: the sum of amount times dividend over the current portfolio |
| BacktestSpec.Income | src/run_backtest.py:186-190 | the sum of amount times dividend over a portfolio (its sign is `IncomeNonNegative`) |
| BacktestSpec.IncomeNonNegative | src/run_backtest.py:186-190 | with no short position and no negative dividend, the income is non-negative |
| Backtest.RunBacktest.FillUpPortfolioPerformance | src/run_backtest.py:199-224 | the kept rows start at `PerformanceStart`; row `i` holds `AumOn` and `DividendsOn` of day `b + i`; the portfolio is the last day's; the record grows by exactly the month-end portfolios, one per month-end |
| Backtest.RunBacktest.RunDayLoop | src/run_backtest.py:201-214 | after the loop every row holds the simulated AUM and dividends, and one portfolio has been recorded per month-end |
| Backtest.RunBacktest.ProcessDay | src/run_backtest.py:203-214 | one pass of the loop keeps the loop invariant `FilledBefore` for the next day |
| Backtest.RunBacktest.RebalanceIfMonthEnd | src/run_backtest.py:203-209 | the portfolio is replaced only on a month-end, and then appended to the record once |
| Backtest.RunBacktest.Rebalance | src/run_backtest.py:204-209 | on a month-end the new portfolio is `Holdings(StocksToBuy(d), AumOn(d - 1), d)`, and the record gains it |
| Backtest.RunBacktest.RecordDay | src/run_backtest.py:211-214 | the row of day `d` gets the portfolio's value and the previous row's dividends plus the day's income; the rows after `d` keep their values |
| Backtest.RunBacktest.CloseOfDay | src/run_backtest.py:212-214 | computes the day's AUM and cumulative dividends as `AumOn` and `DividendsOn` of that day, from the previous row's dividends |
| BacktestSpec.DayOn | src/run_backtest.py:199-214 | the portfolio, AUM and cumulative dividends at the close of day `d` of the day loop; every position held has a history (its steps are `BeforeFirstRebalance`, `DayOnRebalance`, `DayOnCarry` and `DayOnClose`) |
| BacktestSpec.BeforeFirstRebalance | src/run_backtest.py:153-156 | the rows before the first month-end keep the initial AUM and dividends 0, with nothing held |
| BacktestSpec.DayOnRebalance | src/run_backtest.py:203-208 | on a month-end the portfolio is rebuilt from the previous day's AUM |
| BacktestSpec.DayOnCarry | src/run_backtest.py:201-209 | any other day after the first rebalance carries the portfolio over |
| BacktestSpec.DayOnClose | src/run_backtest.py:211-214 | from the first rebalance on, AUM[d] is the portfolio's value at day `d` and dividends[d] = dividends[d - 1] + income[d] |
| BacktestSpec.Rebalances | src/run_backtest.py:205-209 | portfolio_record after the day loop: one portfolio per month-end, the one built on that day (its growth is `RebalancesStep`, its sizes `RebalanceSize`, its use by calc_ic `RebalancesFeedIc`) |
| BacktestSpec.RebalancesStep | src/run_backtest.py:209 | the record grows by one portfolio per month-end |
| BacktestSpec.RebalanceSize | src/run_backtest.py:113-114 | every recorded portfolio has `ceil(n * top_pct / 100)` positions |
| BacktestSpec.AumContinuity | src/run_backtest.py:205-211 | on a rebalance day the AUM recorded equals the previous day's AUM |
| BacktestSpec.NoShortPositions | src/run_backtest.py:205-211 | with a non-negative initial AUM, no position is ever short and the AUM stays non-negative |
| BacktestSpec.DividendsGrow | src/run_backtest.py:212-214 | with a non-negative initial AUM and non-negative dividends, the cumulative dividends are non-negative and never decrease |
| Backtest.RunBacktest.FirstRowOnOrAfterBeginning | src/run_backtest.py:216-222 | the cut index is `PerformanceStart`: the first row dated on or after the beginning date |
| BacktestSpec.StartFrom | src/run_backtest.py:216-222 | the scan for the first date on or after the beginning date: 0, or an index at or after the start whose date is on or after it (that it is the first is `StartFromSpec`) |
| BacktestSpec.PerformanceStart | src/run_backtest.py:216-224 | the row the performance table is cut at: 0 (`b_idx` None) or a day whose date is on or after the beginning date (that it is the first is `PerformanceStartSpec`) |
| BacktestSpec.StartFromSpec | src/run_backtest.py:218-222 | the search stops at the first date on or after the beginning date |
| BacktestSpec.PerformanceStartSpec | src/run_backtest.py:216-224 | the kept rows start at the first date on or after the beginning date, no later than the first rebalance |
| Backtest.RunBacktest.KeepRowsFromBeginning | src/run_backtest.py:223-224 | the table keeps exactly the rows from `PerformanceStart` on, in order |
| Backtest.RunBacktest.Suffix | src/run_backtest.py:223-224 | the `[b_idx:]` slice: a new array holding the rows from `from` on |
| Backtest.RunBacktest.CalcIc | src/run_backtest.py:233-256 | `monthly_ic` has one row per month-end but the last, dated at that month-end; row `i` is `CumulativeIc(record, i)` |
| Backtest.RunBacktest.FillMonthlyIc | src/run_backtest.py:239-256 | each row written holds the running sum of the period ICs |
| Backtest.RunBacktest.AddPeriodIc | src/run_backtest.py:252-256 | row 0 is the first period's IC; row `i` is row `i - 1` plus period `i`'s IC |
| Backtest.RunBacktest.CalcPeriodIc | src/run_backtest.py:238-251 | the period's IC is `2 * correct / bought - 1` |
| Backtest.RunBacktest.CountCorrect | src/run_backtest.py:240-246 | the count is the number of held stocks whose next month-end close is strictly greater |
| BacktestSpec.RebalancesFeedIc | src/run_backtest.py:240-243 | the portfolios the day loop records are the ones `calc_ic` reads, one per month-end, each of the selection size |
| BacktestSpec.Risers | src/run_backtest.py:240-248 | number_correct: the positions whose close rose strictly from one month-end to the next, never more than the positions |
| BacktestSpec.PeriodIc | src/run_backtest.py:249-251 | `2 * correct / bought - 1`, never below -1 for any portfolio (the full bounds are `PeriodIcBounds`) |
| BacktestSpec.PeriodIcBounds | src/run_backtest.py:249-251 | a period's IC lies in [-1, 1]; it is -1 when no stock rose and 1 when every stock of a full selection rose |
| BacktestSpec.CumulativeIc | src/run_backtest.py:252-256 | row `i` of monthly_ic, the running sum of the period ICs 0..i, is never below `-(i + 1)` whatever was recorded (the upper bound and the steps are `CumulativeIcBounds` and `CumulativeIcStep`) |
| BacktestSpec.CumulativeIcBounds | src/run_backtest.py:252-256 | after `i + 1` periods the cumulative IC lies in [-(i + 1), i + 1] |
| BacktestSpec.CumulativeIcStep | src/run_backtest.py:252-256 | the cumulative IC does not fall exactly when the period's IC is non-negative; a period in which no stock rose lowers it by exactly 1 |
| InputData.GetTickers | src/input_data.py:122-134 | None raises "Tickers must be specified."; an int raises AttributeError; a returned list has one entry per comma plus one |
| InputData.Split | src/input_data.py:124 | `s.split(",")`: the pieces between the commas, empty pieces included, at least one (its meaning is `SplitJoin` and `SplitCount`) |
| InputData.SplitJoin | src/input_data.py:124 | `split(",")` loses nothing: joining the pieces with commas gives the input back, and no piece holds a comma |
| InputData.SplitCount | src/input_data.py:124 | there is one piece more than there are commas |
| InputData.Strip | src/input_data.py:124 | `s.strip()` on ASCII white space: never longer than its input, and the identity on a string with no white space at either end (the full characterisation is `StripSpec`) |
| InputData.StripSpec | src/input_data.py:124 | `strip()` keeps a contiguous part of its input, drops only white space around it, and leaves none at either end |
| InputData.IsAlnum | src/input_data.py:128 | `str.isalnum()` on ASCII; a string it accepts holds no comma and is left unchanged by `strip()`, so a valid ticker survives the split and strip of get_tickers as it is |
| InputData.TickerError | src/input_data.py:128-133 | a ticker passes exactly when it is alphanumeric and 1 to 5 characters long |
| InputData.CheckTickers | src/input_data.py:125-133 | the loop over the stripped tickers raises only the alphanumeric or the length message, and raises when the first ticker is invalid (which ticker raises is `CheckTickersOk` and `CheckTickersFirstError`) |
| InputData.CheckTickersOk | src/input_data.py:125-133 | the loop passes exactly when every ticker is valid |
| InputData.CheckTickersFirstError | src/input_data.py:125-133 | when the loop raises, it raises the error of the first invalid ticker |
| InputData.GetTickersOk | src/input_data.py:122-134 | `get_tickers` succeeds exactly when every stripped piece is valid, and then returns the stripped pieces in input order, each alphanumeric with length 1..5 |
| InputData.TickerErrorMessages | src/input_data.py:128-133 | an empty piece raises the alphanumeric message; the length message is raised exactly for alphanumeric tickers longer than five characters |
| InputData.IntToString | src/input_data.py:152 | `str(i)`: a leading `-` exactly when `i` is negative, otherwise a digit first, and only decimal digits after the first character (its length is `DateLengthCharacterization`, its inverse is `ParseNatToString`) |
| InputData.ParseNatToString | src/input_data.py:157 | `int(str(n)) == n` for the decimal form used by `str` |
| InputData.DateLengthCharacterization | src/input_data.py:152-153 | `str(i)` has 8 characters exactly for the 8-digit non-negative numbers and the 7-digit negative ones |
| InputData.GetBeginningDate | src/input_data.py:148-157 | when get_beginning_date returns, the field was an int no later than today and the result is its eight-character `str` (the error order is `GetBeginningDateSpec`) |
| InputData.GetBeginningDateSpec | src/input_data.py:148-157 | the checks run in order (None, not an int, not 8 characters, after today); otherwise `str(b)` is returned |
| InputData.NegativeBeginningDateAccepted | src/input_data.py:152-157 | `-1234567` passes every check and comes back as `"-1234567"` |
| InputData.GetEndingDate | src/input_data.py:171-181 | a string ending date never passes (the comparison with today raises TypeError if nothing before does); an int ending date passes only with an int beginning date and `b <= e <= today`, as an eight-character string (the error order is `GetEndingDateErrors`, the default is `EndingDateDefault`) |
| InputData.StrLess | src/input_data.py:175 | Python's `<` on two strings, character by character |
| InputData.GetEndingDateOk | src/input_data.py:171-181 | a returned ending date is today's (when none was given) or an 8-character int `e` with `b <= e <= today` |
| InputData.GetEndingDateErrors | src/input_data.py:173-181 | for int fields the checks run in order: not 8 characters, before `b`, after today |
| InputData.EndingDateDefault | src/input_data.py:171-172 | with no ending date, today's date is returned, and it is 8 characters long |
| InputData.GetInitialAum | src/input_data.py:194-200 | succeeds exactly for ints >= 0 (0 included, despite the "positive" message), returning the value; None, non-ints and negatives each raise their own message |
| InputData.Upper | src/input_data.py:217 | `str.upper()` on ASCII, the same length as its input |
| InputData.GetStrategyType | src/input_data.py:213-220 | when get_strategy_type returns, the field was a one-character string and is returned unchanged (which strings pass is `GetStrategyTypeSpec`) |
| InputData.GetStrategyTypeSpec | src/input_data.py:213-220 | succeeds exactly for "M", "m", "R" and "r" and returns the string unchanged; None and non-strings raise "Strategy type must be a string." |
| InputData.GetDays | src/input_data.py:233-239 | succeeds exactly for ints in 1..250, returning the value; None, non-ints and out-of-range values each raise their own message |
| InputData.GetTopPct | src/input_data.py:252-258 | succeeds exactly for ints in 1..100, returning the value; None, non-ints and out-of-range values each raise their own message |

## Left out

- `get_args` and the `parse_args()` fallbacks of `InputData.__init__` read the command line. The validators take the field values as parameters instead.
- `DATE_TODAY` is read from the system clock. It is a parameter, `today`: an 8-digit number.
- InputData.IntToString has no length limit. Python 3.11 and later raise ValueError ("Exceeds the limit (4300 digits) for integer string conversion") when `str()` is applied to an int of more than 4300 digits. get_beginning_date and get_ending_date would raise that error where the model returns the "must be in format YYYYMMDD" error.
- `InputData.GetEndingDate`: comparing a string with an int, or anything with None, raises TypeError in Python. The model returns `TypeError` for those combinations without modelling Python's comparison rules further.
- A field holds None, an int or a str. Python's bool (an int subclass) and float values are not modelled.
- `str.isalnum`, `str.strip` and `str.upper` are modelled on ASCII only. Unicode letters, digits and white space are not.
- `BacktestSpec.SelectionSize`: the source computes `ceil(len * (top_pct / 100))` in floating point, where for example 100 * 0.07 is 7.000000000000001, which rounds up to 8. The model uses the exact integer ceiling `(n * top_pct + 99) / 100`.
- Prices, returns, amounts and AUM are exact reals, not IEEE doubles. No rounding, infinity or NaN is modelled.
- `BacktestSpec.WellFormed` requires every close price to be positive. The source divides by start prices and by purchase prices, and a zero price would raise or produce infinity there.
- `BacktestSpec.Runnable` requires at least one month-end and enough history before each month-end, so that no index reaches before the first day. In Python `iloc` with a negative index silently wraps around to the end of the table, and `month_end_indexes[0]` raises on an empty list. Neither is modelled.
- Backtest.RunBacktest.InitPortfolioPerformance and Backtest.RunBacktest.FillUpPortfolioPerformance require the performance table to be empty or one row per trading day. A second fill-up after the first has dropped rows before the beginning date makes pandas raise ValueError, because n dates are assigned to a shorter table. That error is not modelled.
- BacktestSpec.WellFormed requires every stock's history to be exactly as long as the calendar. The source indexes each stock's own table by position, so a longer history would silently read rows of other dates and a shorter one raises IndexError. Neither is modelled.
- BacktestSpec.WellFormed requires `days >= 1` and `1 <= top_pct <= 100`. The engine itself accepts any ints; these ranges are what `get_days` and `get_top_pct` admit, and the model assumes the engine is given validated values.
- BacktestSpec.WellFormed requires a non-empty universe. With no stock, reading the first stock's date index raises IndexError, and that error is not modelled.
- Backtest.RunBacktest.CalcIc requires the record to hold at least one portfolio per month-end but the last (`IcRecord`), as it does after the fill-up (`RebalancesFeedIc`). With fewer, for example when calc_ic runs before fill_up_portfolio_performance, the source raises IndexError, which is not modelled.
- `Backtest.RunBacktest.CalcPortfolio` requires a non-empty ticker list. The source raises ZeroDivisionError on an empty one, and the engine never passes one because the selection size is at least 1.
- The table's dates are day ordinals, and `tz_localize(None)` and the pandas timestamp parsing of the beginning date are not modelled. The source's `b_idx = None` case (no date on or after the beginning date) keeps all rows and is modelled as a cut at 0.
- The strategy test in the engine is `strategy == "M"`, which is case-sensitive, while `get_strategy_type` accepts and returns "m". The model keeps both as written, so a lowercase "m" runs the reversal ranking.
- The two-strategy regression class exercised by the engine's test file (`get_feature`, `get_label`, model fitting and prediction) is not part of this model. Neither are the statistics and fetching classes, the other `InputData` variant in `src/test_input_data.py`, or `testing_file.py`.
