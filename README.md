# ETF future-wealth calculator: verified model of the core

The application looks up an exchange-traded fund's full price and dividend
history. From that history it derives two figures: an annualised price growth
rate (CAGR) and an annualised dividend yield. It then projects a
dollar-cost-averaging plan month by month. Each month the price grows by the
monthly equivalent of the CAGR. A fixed amount buys shares at the grown price.
A distribution of one twelfth of the yield is paid on the market value. That
distribution is either reinvested as shares or kept as cash. The projection
produces one record per month.

This project models both stages in Dafny:

- `metrics.dfy` (module `Metrics`) covers the metrics extraction. It models the
  span of the history in years, the floor clamp on that span, the short-history
  flag, the zero-start guard of the CAGR, the three yield branches, and the
  empty-history error.
- `projection.dfy` (module `Projection`) covers the projection.
  - `ProjectFutureWealth` is the loop.
  - `SimulateMonth` is its body, statement by statement.
  - Both are proved against a functional specification. That specification
    gives one recursive function per running total (`PriceAt`, `SharesAt`,
    `CostAt`, `DividendsAt`, `CashAt`). `Step` is the same month on explicit
    totals. `Records` is the list of monthly records, and `Projection` is the
    list for the whole horizon.

Arithmetic is over exact reals.

Some inputs are taken as parameters instead of being computed:

- The two fractional powers are inputs. For the CAGR this is a function `pow`.
  For the projection it is the monthly growth rate `growth`, which the source
  derives from the CAGR.
- The calendar-year resampling of the dividend and price series is an input.
  It arrives as the per-year `(dividend sum, mean close)` pairs of the years
  that both series share.
- Dates are day numbers.

The model follows the code in these respects:

- The projection has no initial lump sum. Shares and cost start at 0
  (app5.py:113-114).
- There is no guard on the monthly amount.
- Each record holds month, total cost, total assets, total dividends, total
  shares, simulated price and average cost. There is no year index, profit or
  cash column (app5.py:142-150).
- There is no comparison of two instruments.
- There are no price or configuration error kinds. The only error the
  extraction reports itself is an empty history (app5.py:39-40).

## Model

| member | source | states |
|---|---|---|
| Metrics.RawYears | app5.py:47-48 | the span in years times 365.25 is exactly the number of days between the first and last date |
| Metrics.ClampYears | app5.py:53-59 | the span used is never below 0.01. It equals the raw span unless that is below 0.01, when it is 0.01. The short-term flag is raised exactly when the raw span is below one year, including when it is clamped |
| Metrics.Cagr | app5.py:64-67 | a non-positive first close gives a CAGR of 0. Otherwise 1 + CAGR is (last close / first close) raised to 1 / years |
| Metrics.CagrOfFlatHistory | app5.py:64-67 | a history that ends at its starting price has zero CAGR, with any power that maps base 1 to 1 |
| Metrics.CagrSign | app5.py:64-67 | take a power that, for a positive exponent, gives at least 1 on bases from 1 up and at most 1 on bases in [0, 1]. The real `**` does this, and `1 / years` is always positive. Then, with a positive first close and a non-negative last close, a price rise never gives a negative CAGR and a fall never gives a positive one |
| Metrics.Sum | app5.py:84 | no contract: the total of a series. `SumNonNegative`, `SumPositive` and `SumBetween` bound it, and `Yield` uses it for the dividend total |
| Metrics.Mean | app5.py:81-85 | no contract: the mean of a series, for the per-year yields and the closes. `MeanBetween` bounds it, and `Yield` states its use |
| Metrics.YearlyYields | app5.py:80 | one yield per common year. Each yield times that year's mean close is that year's dividend sum |
| Metrics.Yield | app5.py:70-90 | no dividends gives a yield of 0. If some year is common to both series, the yield times the number of such years is the sum of the per-year yields. Otherwise the yield times years times the mean close is the total of all dividends |
| Metrics.YieldNonNegative | app5.py:70-90 | with non-negative dividends and positive prices, the yield is never negative, on every branch |
| Metrics.YieldWithinYearlyRange | app5.py:79-81 | when some calendar year is common to both series, the yield lies within any bounds of the per-year yields |
| Metrics.Extract | app5.py:39-100 | an error exactly when the history is empty. Otherwise the span used is the clamped raw span, never below 0.01. The short-term flag means a raw span under a year. The current price is the last close. The start and end dates are the first and last dates. The CAGR is 0 on a non-positive first close and the power otherwise. The yield is 0 without dividends and is otherwise `Yield` of the dividends, the closes, the clamped span and the common years. So `YieldNonNegative` and `YieldWithinYearlyRange` apply to the returned summary |
| Metrics.Closes | app5.py:85 | the closing-price column of the history, entry by entry |
| Projection.MonthCount | app5.py:107 | the loop runs years * 12 months for a positive horizon and none otherwise |
| Projection.PriceAt | app5.py:119 | the simulated price stays positive in every month |
| Projection.MonthlyYieldRate | app5.py:109 | no contract: the yearly yield over 12. `MonthIncrements` and `ReinvestFactor` state its use |
| Projection.StateAfter | app5.py:112-132 | no contract: the five running totals after m months. `StepAfter` ties them to one `Step`, and `StateFacts` gives their closed forms |
| Projection.Bought | app5.py:120-121 | no contract: the holding after buying at the current price. `MonthIncrements` states the increment |
| Projection.Accrued | app5.py:124-125 | no contract: the dividend on the post-purchase market value. `MonthIncrements` states it |
| Projection.HeldAt | app5.py:120-121 | no contract: the holding after month m's purchase. `MonthIncrements` and `ReinvestFactor` state it |
| Projection.DividendAt | app5.py:124-125 | no contract: month m's dividend. `MonthIncrements` and `MonthMonotone` state it |
| Projection.SharesAt | app5.py:120-130 | no contract: the shares after m months. `MonthIncrements`, `ReinvestFactor`, `TotalsMonotone` and `ReinvestHoldsMoreShares` state its meaning |
| Projection.CostAt | app5.py:122 | no contract: the cost basis after m months. `CostAfter` gives its closed form |
| Projection.DividendsAt | app5.py:126 | no contract: the dividends received over m months. `MonthIncrements` and `TotalsMonotone` state it |
| Projection.CashAt | app5.py:128-132 | no contract: the cash wallet after m months. `CashAfter` states it |
| Projection.TotalAssets | app5.py:134-135 | no contract: stock value plus wallet. `ProjectionRecord` and `FirstMonthAssetsAgree` state it |
| Projection.AvgCost | app5.py:137-140 | no contract: cost per share, or 0 with no shares. `ProjectionRecord` states it |
| Projection.RecordOf | app5.py:142-150 | no contract: month m's record from the totals. `ProjectionRecord` states its fields |
| Projection.Projection | app5.py:118-152 | no contract: the records of months 1 to years * 12. `ProjectFutureWealth` computes it, and `ProjectionRecord` and `ProjectionMonotone` state its entries |
| Projection.Step | app5.py:119-132 | one month on explicit totals keeps the price positive |
| Projection.Records | app5.py:142-150 | the record list for n months has n entries |
| Projection.ProjectFutureWealth | app5.py:106-152 | the loop returns exactly the projection for the plan. It has years * 12 records, and record i is month i + 1 |
| Projection.SimulateMonth | app5.py:119-150 | the loop body moves the totals exactly one `Step` and builds that month's record from the new totals |
| Projection.StepAfter | app5.py:118-132 | the totals after month m are one `Step` from the totals after month m - 1 |
| Projection.CostAfter | app5.py:114-122 | the cost basis after m months is m times the monthly amount |
| Projection.PriceAfter | app5.py:112-119 | the price after m months is the start price times (1 + growth) to the power m |
| Projection.CashAfter | app5.py:116-132 | when reinvesting, the cash wallet stays 0. When not reinvesting, it always equals the dividends received so far |
| Projection.MonthIncrements | app5.py:120-126 | each month adds monthly_amt / price shares, plus dividend / price shares when reinvesting. The dividend is the post-purchase holding times the price times yield / 12. The dividends total and the cost grow by the dividend and by the monthly amount |
| Projection.ReinvestFactor | app5.py:128-130 | reinvesting multiplies the post-purchase holding by 1 + yield / 12 |
| Projection.MonthMonotone | app5.py:120-132 | with a non-negative amount and yield, each month's dividend is non-negative, and shares, cost and dividends never fall |
| Projection.TotalsMonotone | app5.py:118-132 | shares, cost and dividends never fall from any month to any later month |
| Projection.StateFacts | app5.py:112-135 | after m months, the cost, price and wallet are given by the closed forms above |
| Projection.ProjectionRecord | app5.py:134-150 | the record of month i + 1 has month number i + 1 and cost (i + 1) times the amount. Its price is the compounded start price, which is positive. Its total assets are shares times price, plus the dividends when they are not reinvested. Its average cost is cost / shares, or 0 with no shares |
| Projection.ProjectionMonotone | app5.py:142-150 | across the records, total cost, total shares and total dividends are non-decreasing |
| Projection.PriceIndependentOfReinvest | app5.py:119 | the simulated price path does not depend on the reinvestment choice |
| Projection.ReinvestHoldsMoreShares | app5.py:128-132 | with a positive amount and yield, reinvesting holds strictly more shares than keeping cash at the end of every month |
| Projection.FirstMonthAssetsAgree | app5.py:128-135 | after the first month, both choices hold the same total assets. Reinvesting only converts the dividend into shares at the current price |

## Left out

- The user interface is not modelled: input widgets, charts, the metric cards and the table (app5.py:1-29, 155-214). This includes the profit and ROI figures computed for display (app5.py:190-192). It is presentation only.
- The market-data fetch is not modelled (app5.py:34-37). The history is an input `seq<PricePoint>` and the dividends are an input `seq<real>`.
- Timezone stripping, yearly resampling and the index intersection are not computed (app5.py:71-78). Their result is the input `seq<YearPoint>`. The model does not capture that resampled years with no prices give NaN means that the library's mean then skips.
- The fractional powers are parameters, not computed. For the CAGR (app5.py:65) this is `pow`. For the projection's monthly growth `(1 + cagr) ** (1/12) - 1` (app5.py:108) it is `Plan.growth`. Floating-point rounding is not modelled: the arithmetic is exact.
- Yield: division by a zero mean close is not modelled. In the source it yields inf or NaN. It is excluded by preconditions, and only on the branch that divides.
- ProjectFutureWealth: the start price must be positive and the monthly growth above -1. With a zero price the source divides by zero. A CAGR of -1 or below cannot arise from positive closes.
- The catch-all exception handler that turns any failure into an error message is not modelled (app5.py:102-103).
- Dates are day numbers. The `.date()` conversions of the first and last timestamps are not modelled (app5.py:97-98).
- The output is a sequence of records, not a dataframe (app5.py:152).
