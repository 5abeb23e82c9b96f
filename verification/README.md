# DCA accumulation engine of the DCA & Monte Carlo simulator

This project models the dollar-cost-averaging (DCA) engine of `app.py`, a
Streamlit app that simulates investing a fixed amount in a stock on a
schedule of dates.

The engine has four parts:

- **Price resolution.** A scheduled day takes the adjusted close quoted on that
  day. If the day is not listed, it takes the close of the last row up to that
  day (`data["Adj Close"].loc[:date].iloc[-1]`). If no such row exists, the
  lookup raises and the whole run fails.
- **Accumulation.** For each scheduled day, in schedule order, the engine buys
  `amount / price` shares and adds them to the total. After every purchase the
  portfolio value is re-assigned to `shares * last close`. The value starts at
  0, so it stays 0 when nothing is bought.
- **Report.** Total invested is `len(schedule) * amount`. Profit/loss is the
  portfolio value minus the total invested.
- **Early stops.** An empty download and an empty custom date list stop the
  run before the loop.

Modules:

- `Outcomes` (`outcomes.dfy`): `Option` and `Result`.
- `Prices` (`prices.dfy`): the quote series, the exact-day search, the
  last-row-on-or-before search and price resolution.
- `Dca` (`dca.dfy`): the loop as a fold (`Accumulate`) and as an imperative
  method (`RunLoop`), the portfolio value, the report and the whole run
  (`RunDca`).
- `DcaProperties` (`dca_properties.dfy`): lemmas relating runs to a reference
  sum of purchases. They cover monotonicity, scaling by the amount,
  independence from schedule order, repeated days and flat prices.
- `DcaExamples` (`dca_examples.dfy`): worked cases on concrete series.

Representation:

- Days are integers.
- The price series is a `seq<Quote>`, strictly ascending by day with positive
  prices.
- The schedule is an arbitrary `seq<int>`. Repeated days are allowed and buy
  again.
- Prices, amounts and share counts are exact `real`s standing in for float64.
- The three ways a run can stop are a `DcaError`:
  - `EmptyPriceSeries`: the download is empty (app.py:29-31).
  - `EmptySchedule`: the custom list is empty (app.py:42-44).
  - `NoPriorPrice(day)`: the first scheduled day that precedes the whole
    series, where `.iloc[-1]` on an empty slice raises (app.py:53).

Points where the code's behaviour is easy to misread, and what the model does:

- **Amount is not validated.** The `number_input` at app.py:18 has no
  `min_value`, and nothing else checks the amount, so the model accepts any
  real amount. Monotonicity (`SharesNeverDecrease`) is stated for amounts of at
  least 0.
- **The fallback slice includes the day.** `.loc[:date]` at app.py:53 keeps
  the row dated `date` itself. The exact branch at app.py:49-50 runs first, and
  on an ascending series both branches pick the same row
  (`ExactMatchIsLatestPrior`).
- **The value is only reassigned inside the loop.** It starts at 0
  (app.py:46) and is reassigned after every purchase (app.py:56).
  `ValueIsSharesAtLastPrice` shows it always equals shares times the last
  close, including the empty schedule where both are 0.
- **Profit/loss scales with the amount.** With exact arithmetic, multiplying
  the amount by any k multiplies profit/loss by k (`RunScales`).

## Model

| member | source | states |
|---|---|---|
| Prices.FindExact | app.py:49-50 | A found position holds a quote dated exactly on the day, with no earlier quote on that day. The result is None exactly when no quote is dated on the day. |
| Prices.LastAtOrBefore | app.py:51-53 | A found position holds a quote dated on or before the day, and every later quote is after the day. The result is None exactly when every quote is after the day, the empty `.loc[:date]` slice. |
| Prices.ResolveIndex | app.py:49-53 | The lookup succeeds exactly when some quote is on or before the day. Its row is the latest quote on or before the day, never a later one. When the day is listed, it is that day's own row. |
| Prices.ResolvePrice | app.py:49-53 | The execution price exists exactly when some quote is on or before the day, and it is positive. |
| Prices.ResolvedPriceIsLatestPrior | app.py:49-53 | A listed day gets its own adjusted close. Any other day gets the close of a quote that is the latest on or before it. |
| Prices.LatestPriorPriceIsResolved | app.py:49-53 | The converse: the close of the latest quote on or before the day is the price the lookup resolves, because that quote is unique on an ascending series. |
| Prices.ExactMatchIsLatestPrior | app.py:49-53 | For a listed day, the on-or-before fallback would return that day's own row. So the exact branch and `.loc[:date].iloc[-1]` agree. |
| Dca.Step | app.py:49-55 | One pass of the loop body. A run that has stopped stays stopped with the same error. Otherwise the pass succeeds exactly when the day has a quote on or before it, and fails with `NoPriorPrice` of that day. Its partner `DcaProperties.SharesStep` gives the shares it adds. |
| Dca.AccumulateStep | app.py:48-55 | The fold over the first i + 1 days is one more loop pass after the first i days. |
| Dca.StopsAtUnpricedDay | app.py:48-53 | When every earlier day was priced and the current day cannot be, the whole fold fails with the current day. |
| Dca.Accumulate | app.py:47-55 | The share fold succeeds exactly when every scheduled day can be priced. On failure it names a scheduled day that precedes the whole series. |
| Dca.FailsAtFirstUnresolvable | app.py:48-53 | The run stops with the first day, in schedule order, that has no quote on or before it. |
| Dca.PortfolioValue | app.py:46-56 | The value is 0 when no shares are held. On a positive series it is positive exactly when the loop body ran and shares are positive. Its partner `Dca.ValueIsSharesAtLastPrice` relates it to shares times the last close. |
| Dca.ValueIsSharesAtLastPrice | app.py:46-56 | The value the loop leaves (0 if the body never ran, else the last reassignment) equals the share total times the last close in every case. |
| Dca.LookUpPrice | app.py:49-53 | The two-branch lookup (exact row, else last row up to the day) returns a price exactly when some quote is on or before the day. A listed day gets its own close. Any price returned is the close of the latest quote on or before the day. |
| Dca.RunLoop | app.py:46-56 | The imperative loop succeeds exactly when every day can be priced. Its shares equal the fold's total and its value is the portfolio value. It returns (0, 0) on an empty schedule. When it fails, it fails with the fold's error. |
| Dca.TotalInvested | app.py:61 | The invested total is 0 for an empty schedule and never negative for an amount of at least 0. For a positive amount it is positive exactly when the schedule is non-empty. |
| Dca.InvestedIsOneContributionPerDay | app.py:61 | The invested total equals one contribution of `amount` per scheduled day, summed day by day, with repeated days counted each time. |
| Dca.Report | app.py:59-62 | Reports the share total and the total invested, `len(schedule) * amount`. Profit/loss is value minus invested. The value is shares times the last close, or 0 for an empty schedule. |
| Dca.RunDca | app.py:29-62 | Fails on an empty series and on an empty custom schedule. Otherwise it succeeds exactly when every scheduled day can be priced. A NoPriorPrice error names a scheduled day before the series. A success is the report of the fold's share total. |
| Dca.RunFailsAtFirstUnresolvable | app.py:48-53 | On a non-empty series, a run whose schedule has a day before the series fails with the first such day in schedule order, for every schedule kind and amount. No partial result is reported. |
| Dca.RunValueIsSharesAtLastPrice | app.py:46-60 | A successful run reports value equal to total shares times the last close (`ValuedAtLastClose`). With an empty schedule it reports all zeros. |
| DcaProperties.ExecutionPrices | app.py:48-53 | One resolved price per scheduled day, in schedule order. |
| DcaProperties.SharesStep | app.py:54-55 | The last purchase adds `amount / price of the last day` to the shares of the earlier days. |
| DcaProperties.SharesAreSumOfPurchases | app.py:47-55 | The share total equals the reference sum of `amount / resolved price` over the schedule, each occurrence counted. |
| DcaProperties.SharesNeverDecrease | app.py:54-55 | With an amount of at least 0, shares after any prefix are at most the final shares. With a positive amount, a prefix that omits some day has strictly fewer shares. |
| DcaProperties.SharesScale | app.py:54-55 | Multiplying the amount by k multiplies the share total by k. |
| DcaProperties.ReportScales | app.py:56-62 | k times the amount and k times the shares give k times every reported figure. |
| DcaProperties.RunScales | app.py:29-62 | The run with amount k times `amount` succeeds exactly when the run with `amount` does. When they fail, they fail with the same error. When they succeed, shares, value, invested and profit/loss are all multiplied by k. |
| DcaProperties.SharesIgnoreOrder | app.py:48-55 | Two schedules with the same days and multiplicities both succeed or both fail. When they succeed they hold the same shares (exact arithmetic). |
| DcaProperties.RepeatedDayBuysEachTime | app.py:48-55 | A day listed n times buys n times: n times `amount / price`. |
| DcaProperties.FlatPriceBreaksEven | app.py:46-62 | When every quote has price c, the shares are `len(schedule) * amount / c`, value equals invested, and profit/loss is 0. |
| DcaExamples.GapDaysUseEarlierQuote | app.py:49-53 | Quotes on days 1 (10) and 3 (30): day 2 resolves to 10, day 7 to 30, and day 0 to nothing. |
| DcaExamples.GapRun | app.py:46-62 | Investing 30 on days 1, 2, 3 of that series reports 7 shares, value 210, invested 90, profit 120. |
| DcaExamples.GapRunFailsBeforeHistory | app.py:48-53 | Schedule 2, 0, -1 fails with day 0, the first day before the series. |
| DcaExamples.EmptySchedules | app.py:29-47 | An empty custom list is refused. An empty monthly schedule reports all zeros. An empty series is refused. |
| DcaExamples.FlatTenDays | app.py:46-62 | Ten days at 100 with 10 invested daily: 1 share, value 100, invested 100, profit/loss 0. |

## Left out

- Monte Carlo simulation (app.py:72-83): it draws from NumPy's global random generator and uses float `exp`.
- Percentile and mean aggregation (app.py:81-83): library calls.
- Schedule generation with `pd.date_range(freq='M'/'W')` (app.py:36-39): pandas calendar anchoring. The schedule is an input sequence; `ScheduleKind` only records whether it was a custom list.
- Data download (app.py:28) and the unused `pct_change` column (app.py:33): network I/O, and nothing in the engine reads the column. The series is an input.
- Streamlit input, output and matplotlib plotting (app.py:8-24, 58-69, 85-90): presentation. The two early stops are modelled as errors.
- Float64 rounding: all arithmetic is exact. `SharesIgnoreOrder` and the scaling lemmas hold for exact reals only; float sums depend on order.
- Calendar dates: dates are integer day numbers. Pandas timestamp and `datetime.date` matching is assumed to agree with day equality.
- Non-ascending or non-positive series: every contract assumes the series is sorted, free of duplicate days and positive. Duplicate index labels would make `data.loc[date, ...]` return several rows.
- Dca.Accumulate: its own contract says only that a failure names some scheduled day before the series. That it is the first such day in schedule order is stated separately by `Dca.FailsAtFirstUnresolvable`.
- Dca.RunDca: the NoPriorPrice clause names some scheduled day before the series. That it is the first such day is stated by `Dca.RunFailsAtFirstUnresolvable`.
- Prices.ResolvePrice: its own contract gives existence and positivity. Which quote it picks is stated by `Prices.ResolvedPriceIsLatestPrior`.
