/**
 The historical-metrics step: from a security's full closing-price history and
 its distribution history, derive the annualised growth rate (CAGR), the
 annualised distribution yield, the observed span in years (floor-clamped) and
 the short-history flag.

 The data provider, timezone handling and the calendar-year resampling of the
 dataframe library are outside the model: the per-year figures of the calendar
 years present in both resampled series are handed in as `YearPoint`s, and the
 fractional power is handed in as a function `pow`.
 */
module Metrics {

  /** One row of the price history: the day number of its date and the close. */
  datatype PricePoint = PricePoint(day: int, close: real)

  /** One calendar year present in both the dividend and the price series:
      the year's summed distributions and the year's mean close. */
  datatype YearPoint = YearPoint(dividends: real, meanClose: real)

  /** The summary handed to the projection step and to the display. */
  datatype HistoricalMetrics = HistoricalMetrics(
    cagr: real,
    yieldRate: real,
    yearsData: real,
    currentPrice: real,
    startDay: int,
    endDay: int,
    isShortTerm: bool)

  /** The one error the extraction reports itself: an empty price history. */
  datatype MetricsError = NoPriceHistory

  datatype Result<T> = Ok(value: T) | Err(error: MetricsError)

  const DaysPerYear: real := 365.25

  /** The floor below which the span is replaced, so that 1 / years stays finite. */
  const MinYears: real := 0.01

  // ---------------------------------------------------------------------------
  // Sums and means of real sequences
  // ---------------------------------------------------------------------------

  function Sum(s: seq<real>): real
  {
    if |s| == 0 then 0.0 else s[0] + Sum(s[1..])
  }

  function Mean(s: seq<real>): real
    requires |s| > 0
  {
    Sum(s) / (|s| as real)
  }

  lemma {:induction false} SumNonNegative(s: seq<real>)
    requires forall i :: 0 <= i < |s| ==> s[i] >= 0.0
    ensures Sum(s) >= 0.0
  {
    if |s| > 0 {
      assert forall i :: 0 <= i < |s[1..]| ==> s[1..][i] == s[i + 1];
      SumNonNegative(s[1..]);
    }
  }

  lemma {:induction false} SumPositive(s: seq<real>)
    requires |s| > 0
    requires forall i :: 0 <= i < |s| ==> s[i] > 0.0
    ensures Sum(s) > 0.0
  {
    assert forall i :: 0 <= i < |s[1..]| ==> s[1..][i] == s[i + 1];
    if |s| > 1 {
      SumPositive(s[1..]);
    } else {
      assert Sum(s[1..]) == 0.0;
    }
  }

  /** A sum of |s| terms, each between lo and hi, lies between |s|*lo and |s|*hi. */
  lemma {:induction false} SumBetween(s: seq<real>, lo: real, hi: real)
    requires forall i :: 0 <= i < |s| ==> lo <= s[i] <= hi
    ensures (|s| as real) * lo <= Sum(s) <= (|s| as real) * hi
  {
    if |s| > 0 {
      assert forall i :: 0 <= i < |s[1..]| ==> s[1..][i] == s[i + 1];
      SumBetween(s[1..], lo, hi);
      assert (|s| as real) * lo == lo + (|s[1..]| as real) * lo;
      assert (|s| as real) * hi == hi + (|s[1..]| as real) * hi;
    }
  }

  /** A mean lies between any lower and upper bound of its terms. */
  lemma MeanBetween(s: seq<real>, lo: real, hi: real)
    requires |s| > 0
    requires forall i :: 0 <= i < |s| ==> lo <= s[i] <= hi
    ensures lo <= Mean(s) <= hi
  {
    SumBetween(s, lo, hi);
    var n := |s| as real;
    assert n > 0.0;
    assert Mean(s) * n == Sum(s);
  }

  // ---------------------------------------------------------------------------
  // The span of the history and the short-history flag (app5.py:47-60)
  // ---------------------------------------------------------------------------

  /** Elapsed whole days between first and last date, in years of 365.25 days. */
  function RawYears(firstDay: int, lastDay: int): (years: real)
    ensures years * DaysPerYear == (lastDay - firstDay) as real
  {
    (lastDay - firstDay) as real / DaysPerYear
  }

  /** The clamp: a span below MinYears becomes MinYears; the flag is raised for
      every span below one year, clamped or not. */
  function ClampYears(raw: real): (r: (real, bool))
    ensures r.0 >= MinYears
    ensures r.0 == (if raw < MinYears then MinYears else raw)
    ensures r.1 <==> raw < 1.0
  {
    if raw < MinYears then (MinYears, true)
    else if raw < 1.0 then (raw, true)
    else (raw, false)
  }

  // ---------------------------------------------------------------------------
  // Annualised growth (app5.py:62-67)
  // ---------------------------------------------------------------------------

  /** `(end / start) ** (1 / years) - 1` when the first close is positive, else 0;
      `pow` stands for the floating-point power. */
  function Cagr(startPrice: real, endPrice: real, years: real, pow: (real, real) -> real): (r: real)
    requires years >= MinYears
    ensures startPrice <= 0.0 ==> r == 0.0
    ensures startPrice > 0.0 ==> 1.0 + r == pow(endPrice / startPrice, 1.0 / years)
  {
    if startPrice > 0.0 then pow(endPrice / startPrice, 1.0 / years) - 1.0 else 0.0
  }

  /** A history that ends where it started has zero growth, for any power that
      maps base 1 to 1. */
  lemma CagrOfFlatHistory(price: real, years: real, pow: (real, real) -> real)
    requires years >= MinYears
    requires forall e :: pow(1.0, e) == 1.0
    ensures Cagr(price, price, years, pow) == 0.0
  {
    if price > 0.0 {
      assert price / price == 1.0;
      assert pow(1.0, 1.0 / years) == 1.0;
    }
  }

  /** With a power that, for positive exponents, stays at or above 1 on bases
      from 1 and at or below 1 on bases in [0, 1], a rise in a non-negative
      price never gives a negative CAGR and a fall never gives a positive one. */
  lemma CagrSign(startPrice: real, endPrice: real, years: real, pow: (real, real) -> real)
    requires years >= MinYears
    requires startPrice > 0.0 && endPrice >= 0.0
    requires forall b, e :: b >= 1.0 && e > 0.0 ==> pow(b, e) >= 1.0
    requires forall b, e :: 0.0 <= b <= 1.0 && e > 0.0 ==> pow(b, e) <= 1.0
    ensures endPrice >= startPrice ==> Cagr(startPrice, endPrice, years, pow) >= 0.0
    ensures endPrice <= startPrice ==> Cagr(startPrice, endPrice, years, pow) <= 0.0
  {
    var b := endPrice / startPrice;
    assert b >= 0.0;
    assert 1.0 / years > 0.0;
  }

  // ---------------------------------------------------------------------------
  // Annualised yield (app5.py:69-90)
  // ---------------------------------------------------------------------------

  /** The per-year yields `yearly_divs / yearly_prices` of the common years. */
  function YearlyYields(yearly: seq<YearPoint>): (r: seq<real>)
    requires forall i :: 0 <= i < |yearly| ==> yearly[i].meanClose != 0.0
    ensures |r| == |yearly|
    ensures forall i :: 0 <= i < |yearly| ==> r[i] * yearly[i].meanClose == yearly[i].dividends
  {
    seq(|yearly|, i requires 0 <= i < |yearly| => yearly[i].dividends / yearly[i].meanClose)
  }

  /** The yield: 0 without distributions; the mean per-year yield when some
      calendar year has both distributions and prices; otherwise the
      period yield (all distributions over the mean close) scaled by 1 / years. */
  function Yield(divs: seq<real>, closes: seq<real>, years: real, yearly: seq<YearPoint>): (r: real)
    requires |closes| > 0
    requires years >= MinYears
    requires |divs| > 0 ==> forall i :: 0 <= i < |yearly| ==> yearly[i].meanClose != 0.0
    requires |divs| > 0 && |yearly| == 0 ==> Sum(closes) != 0.0
    ensures |divs| == 0 ==> r == 0.0
    ensures |divs| > 0 && |yearly| > 0 ==> r * (|yearly| as real) == Sum(YearlyYields(yearly))
    ensures |divs| > 0 && |yearly| == 0 ==> r * years * Mean(closes) == Sum(divs)
  {
    if |divs| == 0 then 0.0
    else if |yearly| > 0 then Mean(YearlyYields(yearly))
    else
      var periodYield := Sum(divs) / Mean(closes);
      assert Mean(closes) != 0.0;
      periodYield * (1.0 / years)
  }

  /** With non-negative distributions and positive prices the yield is never negative. */
  lemma YieldNonNegative(divs: seq<real>, closes: seq<real>, years: real, yearly: seq<YearPoint>)
    requires |closes| > 0
    requires years >= MinYears
    requires forall i :: 0 <= i < |divs| ==> divs[i] >= 0.0
    requires forall i :: 0 <= i < |closes| ==> closes[i] > 0.0
    requires forall i :: 0 <= i < |yearly| ==> yearly[i].dividends >= 0.0 && yearly[i].meanClose > 0.0
    ensures Sum(closes) > 0.0 && Yield(divs, closes, years, yearly) >= 0.0
  {
    SumPositive(closes);
    if |divs| > 0 {
      if |yearly| > 0 {
        var ys := YearlyYields(yearly);
        forall i | 0 <= i < |ys| ensures ys[i] >= 0.0 {
          RatioNonNegative(yearly[i].dividends, yearly[i].meanClose, ys[i]);
        }
        MeanNonNegative(ys);
      } else {
        SumNonNegative(divs);
        MeanPositive(closes);
        PeriodYieldNonNegative(Sum(divs), Mean(closes), years);
      }
    }
  }

  lemma RatioNonNegative(a: real, b: real, q: real)
    requires a >= 0.0 && b > 0.0 && q * b == a
    ensures q >= 0.0
  {
  }

  lemma MeanNonNegative(s: seq<real>)
    requires |s| > 0
    requires forall i :: 0 <= i < |s| ==> s[i] >= 0.0
    ensures Mean(s) >= 0.0
  {
    SumNonNegative(s);
  }

  lemma MeanPositive(s: seq<real>)
    requires |s| > 0
    requires forall i :: 0 <= i < |s| ==> s[i] > 0.0
    ensures Mean(s) > 0.0
  {
    SumPositive(s);
  }

  lemma PeriodYieldNonNegative(total: real, meanPrice: real, years: real)
    requires total >= 0.0 && meanPrice > 0.0 && years > 0.0
    ensures (total / meanPrice) * (1.0 / years) >= 0.0
  {
    var a, b := total / meanPrice, 1.0 / years;
    assert a >= 0.0;
    assert b > 0.0;
  }

  /** When some calendar year is common to both series, the yield lies within
      the range of the per-year yields: it is their mean. */
  lemma YieldWithinYearlyRange(divs: seq<real>, closes: seq<real>, years: real,
                               yearly: seq<YearPoint>, lo: real, hi: real)
    requires |closes| > 0
    requires years >= MinYears
    requires |divs| > 0 && |yearly| > 0
    requires forall i :: 0 <= i < |yearly| ==> yearly[i].meanClose != 0.0
    requires forall i :: 0 <= i < |yearly| ==> lo <= YearlyYields(yearly)[i] <= hi
    ensures lo <= Yield(divs, closes, years, yearly) <= hi
  {
    MeanBetween(YearlyYields(yearly), lo, hi);
  }

  // ---------------------------------------------------------------------------
  // The whole extraction (app5.py:39-100)
  // ---------------------------------------------------------------------------

  function Closes(hist: seq<PricePoint>): (r: seq<real>)
    ensures |r| == |hist|
    ensures forall i :: 0 <= i < |hist| ==> r[i] == hist[i].close
  {
    seq(|hist|, i requires 0 <= i < |hist| => hist[i].close)
  }

  function Extract(hist: seq<PricePoint>, divs: seq<real>, yearly: seq<YearPoint>,
                   pow: (real, real) -> real): (r: Result<HistoricalMetrics>)
    requires |divs| > 0 ==> forall i :: 0 <= i < |yearly| ==> yearly[i].meanClose != 0.0
    requires |hist| > 0 && |divs| > 0 && |yearly| == 0 ==> Sum(Closes(hist)) != 0.0
    ensures r.Err? <==> |hist| == 0
    ensures r.Ok? ==> r.value.yearsData >= MinYears
    ensures r.Ok? ==> var raw := RawYears(hist[0].day, hist[|hist| - 1].day);
                      r.value.yearsData == (if raw < MinYears then MinYears else raw)
    ensures r.Ok? ==> (r.value.isShortTerm <==> RawYears(hist[0].day, hist[|hist| - 1].day) < 1.0)
    ensures r.Ok? ==> r.value.currentPrice == hist[|hist| - 1].close
    ensures r.Ok? ==> r.value.startDay == hist[0].day && r.value.endDay == hist[|hist| - 1].day
    ensures r.Ok? && hist[0].close <= 0.0 ==> r.value.cagr == 0.0
    ensures r.Ok? && hist[0].close > 0.0 ==>
              1.0 + r.value.cagr == pow(hist[|hist| - 1].close / hist[0].close, 1.0 / r.value.yearsData)
    ensures r.Ok? && |divs| == 0 ==> r.value.yieldRate == 0.0
    ensures r.Ok? ==> r.value.yieldRate == Yield(divs, Closes(hist), r.value.yearsData, yearly)
  {
    if |hist| == 0 then Err(NoPriceHistory)
    else
      var startPrice := hist[0].close;
      var endPrice := hist[|hist| - 1].close;
      var span := ClampYears(RawYears(hist[0].day, hist[|hist| - 1].day));
      var years := span.0;
      Ok(HistoricalMetrics(
        Cagr(startPrice, endPrice, years, pow),
        Yield(divs, Closes(hist), years, yearly),
        years,
        endPrice,
        hist[0].day,
        hist[|hist| - 1].day,
        span.1))
  }
}
