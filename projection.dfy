/**
 The wealth projection: a month-by-month simulation that grows a price, buys
 shares with a fixed monthly amount, accrues a distribution on the market value,
 and either reinvests that distribution as shares or keeps it as cash, appending
 one record per month.

 The month fold is given one running total at a time (`PriceAt`, `SharesAt`,
 `CostAt`, `DividendsAt`, `CashAt`, with the per-month intermediates `HeldAt`
 and `DividendAt`); `StateAfter` gathers them and `Records` is the record list
 they produce. `Step` is the same month on explicit totals, and `StepAfter`
 ties the two. `ProjectFutureWealth` is the loop, proved to compute exactly
 `Projection`. The monthly growth rate is an input: the fractional power
 `(1 + cagr) ** (1/12)` that produces it is outside the model.
 */
module Projection {

  /** The inputs of one projection. `growth` is the monthly price growth rate. */
  datatype Plan = Plan(
    startPrice: real,
    monthlyAmt: real,
    years: int,
    growth: real,
    divYield: real,
    reinvest: bool)

  /** What callers supply: a positive latest price and a monthly factor 1 + growth
      above zero, so that the simulated price never reaches zero. */
  predicate ValidPlan(p: Plan)
  {
    p.startPrice > 0.0 && p.growth > -1.0
  }

  /** The running totals of the loop. */
  datatype SimState = SimState(
    price: real,
    shares: real,
    cost: real,
    dividends: real,
    cash: real)

  /** One output row. */
  datatype Record = Record(
    month: int,
    totalCost: real,
    totalAssets: real,
    totalDividends: real,
    totalShares: real,
    simPrice: real,
    avgCost: real)

  /** `range(1, years * 12 + 1)` has this many elements. */
  function MonthCount(years: int): (n: nat)
    ensures years > 0 ==> n == years * 12
    ensures years <= 0 ==> n == 0
  {
    if years > 0 then years * 12 else 0
  }

  function MonthlyYieldRate(p: Plan): real
  {
    p.divYield / 12.0
  }

  function Power(b: real, n: nat): real
  {
    if n == 0 then 1.0 else b * Power(b, n - 1)
  }

  lemma PositiveProduct(a: real, b: real)
    requires a > 0.0 && b > 0.0
    ensures a * b > 0.0
  {
  }

  /** The holding after buying `amt` worth of shares at `price`. */
  function Bought(shares: real, amt: real, price: real): real
    requires price > 0.0
  {
    shares + amt / price
  }

  /** The distribution accrued on `held` shares at `price` with monthly `rate`. */
  function Accrued(held: real, price: real, rate: real): real
  {
    held * price * rate
  }

  // ---------------------------------------------------------------------------
  // The month fold, one running total at a time
  // ---------------------------------------------------------------------------

  /** The simulated price after m months of growth. */
  function PriceAt(p: Plan, m: nat): (price: real)
    requires ValidPlan(p)
    ensures price > 0.0
  {
    if m == 0 then p.startPrice
    else
      PositiveProduct(PriceAt(p, m - 1), 1.0 + p.growth);
      PriceAt(p, m - 1) * (1.0 + p.growth)
  }

  /** The shares held in month m after its purchase at the grown price, before
      any distribution is reinvested. */
  function HeldAt(p: Plan, m: nat): real
    requires ValidPlan(p) && m >= 1
    decreases m, 0
  {
    Bought(SharesAt(p, m - 1), p.monthlyAmt, PriceAt(p, m))
  }

  /** Month m's distribution: the market value after the purchase times the
      monthly yield rate. */
  function DividendAt(p: Plan, m: nat): real
    requires ValidPlan(p) && m >= 1
    decreases m, 1
  {
    Accrued(HeldAt(p, m), PriceAt(p, m), MonthlyYieldRate(p))
  }

  /** The shares held after m months. */
  function SharesAt(p: Plan, m: nat): real
    requires ValidPlan(p)
    decreases m, 2
  {
    if m == 0 then 0.0
    else if p.reinvest then HeldAt(p, m) + DividendAt(p, m) / PriceAt(p, m)
    else HeldAt(p, m)
  }

  /** The cost basis after m months. */
  function CostAt(p: Plan, m: nat): real
  {
    if m == 0 then 0.0 else CostAt(p, m - 1) + p.monthlyAmt
  }

  /** The distributions received over the first m months. */
  function DividendsAt(p: Plan, m: nat): real
    requires ValidPlan(p)
  {
    if m == 0 then 0.0 else DividendsAt(p, m - 1) + DividendAt(p, m)
  }

  /** The cash wallet after m months. */
  function CashAt(p: Plan, m: nat): real
    requires ValidPlan(p)
  {
    if m == 0 then 0.0
    else if p.reinvest then CashAt(p, m - 1)
    else CashAt(p, m - 1) + DividendAt(p, m)
  }

  /** All running totals after m months. */
  function StateAfter(p: Plan, m: nat): SimState
    requires ValidPlan(p)
  {
    SimState(PriceAt(p, m), SharesAt(p, m), CostAt(p, m), DividendsAt(p, m), CashAt(p, m))
  }

  /** Stock value plus the cash wallet. */
  function TotalAssets(s: SimState): real
  {
    s.shares * s.price + s.cash
  }

  /** Cost basis per share, or 0 while no share is held. */
  function AvgCost(s: SimState): real
  {
    if s.shares > 0.0 then s.cost / s.shares else 0.0
  }

  function RecordOf(m: int, s: SimState): Record
  {
    Record(m, s.cost, TotalAssets(s), s.dividends, s.shares, s.price, AvgCost(s))
  }

  /** The records of months 1..n, in order: entry i is month i + 1's snapshot. */
  function Records(p: Plan, n: nat): (rs: seq<Record>)
    requires ValidPlan(p)
    ensures |rs| == n
  {
    seq(n, i requires 0 <= i < n => RecordOf(i + 1, StateAfter(p, i + 1)))
  }

  /** The whole output of a projection. */
  function Projection(p: Plan): seq<Record>
    requires ValidPlan(p)
  {
    Records(p, MonthCount(p.years))
  }

  // ---------------------------------------------------------------------------
  // The loop
  // ---------------------------------------------------------------------------

  /** Runs the projection: months 1 to years * 12, one record each. */
  method ProjectFutureWealth(p: Plan) returns (data: seq<Record>)
    requires ValidPlan(p)
    ensures data == Projection(p)
    ensures |data| == MonthCount(p.years)
    ensures forall i :: 0 <= i < |data| ==> data[i].month == i + 1
  {
    var months := p.years * 12;

    data := [];
    var currentSimPrice := p.startPrice;
    var totalShares := 0.0;
    var totalCost := 0.0;
    var totalDividendsReceived := 0.0;
    var cashWallet := 0.0;

    var m := 1;
    while m <= months
      invariant 1 <= m <= MonthCount(p.years) + 1
      invariant SimState(currentSimPrice, totalShares, totalCost, totalDividendsReceived, cashWallet)
                == StateAfter(p, m - 1)
      invariant data == Records(p, m - 1)
    {
      var row;
      currentSimPrice, totalShares, totalCost, totalDividendsReceived, cashWallet, row :=
        SimulateMonth(p, m, currentSimPrice, totalShares, totalCost, totalDividendsReceived, cashWallet);
      StepAfter(p, m);
      data := data + [row];
      m := m + 1;
    }
  }

  /** One month on explicit totals, as the loop body computes it: grow the
      price, buy with the monthly amount, accrue the distribution on the market
      value after the purchase, and reinvest it or hold it as cash. */
  function Step(p: Plan, s: SimState): (t: SimState)
    requires s.price > 0.0 && p.growth > -1.0
    ensures t.price > 0.0
  {
    PositiveProduct(s.price, 1.0 + p.growth);
    var price := s.price * (1.0 + p.growth);
    var held := Bought(s.shares, p.monthlyAmt, price);
    var dividend := Accrued(held, price, MonthlyYieldRate(p));
    SimState(price,
             if p.reinvest then held + dividend / price else held,
             s.cost + p.monthlyAmt,
             s.dividends + dividend,
             if p.reinvest then s.cash else s.cash + dividend)
  }

  /** The totals after month m are one `Step` from those after month m - 1. */
  lemma StepAfter(p: Plan, m: nat)
    requires ValidPlan(p) && m >= 1
    ensures StateAfter(p, m) == Step(p, StateAfter(p, m - 1))
  {
    var s := StateAfter(p, m - 1);
    var t := Step(p, s);
    assert t.price == PriceAt(p, m);
    assert HeldAt(p, m) == s.shares + p.monthlyAmt / t.price;
    assert DividendAt(p, m) == HeldAt(p, m) * t.price * MonthlyYieldRate(p);
  }

  /** The body of the monthly loop: from the totals after month m - 1, grow the
      price, buy with the monthly amount, accrue the distribution on the market
      value, reinvest it or hold it as cash, and build month m's record. */
  method SimulateMonth(p: Plan, m: int, currentSimPrice: real, totalShares: real, totalCost: real,
                       totalDividendsReceived: real, cashWallet: real)
    returns (newPrice: real, newShares: real, newCost: real, newDividends: real, newCash: real,
             row: Record)
    requires currentSimPrice > 0.0 && p.growth > -1.0
    ensures var before := SimState(currentSimPrice, totalShares, totalCost, totalDividendsReceived, cashWallet);
            var after := SimState(newPrice, newShares, newCost, newDividends, newCash);
            after == Step(p, before) && row == RecordOf(m, after)
  {
    var monthlyYieldRate := p.divYield / 12.0;
    ghost var before := SimState(currentSimPrice, totalShares, totalCost, totalDividendsReceived, cashWallet);

    PositiveProduct(currentSimPrice, 1.0 + p.growth);
    newPrice := currentSimPrice * (1.0 + p.growth);
    var sharesBought := p.monthlyAmt / newPrice;
    newShares := totalShares + sharesBought;
    newCost := totalCost + p.monthlyAmt;
    ghost var held := newShares;

    var currentMarketVal := newShares * newPrice;
    var dividendAmt := currentMarketVal * monthlyYieldRate;
    newDividends := totalDividendsReceived + dividendAmt;

    newCash := cashWallet;
    if p.reinvest {
      var sharesFromDiv := dividendAmt / newPrice;
      newShares := newShares + sharesFromDiv;
    } else {
      newCash := newCash + dividendAmt;
    }

    var stockAssets := newShares * newPrice;
    var totalAssets := stockAssets + newCash;

    var avgCost;
    if newShares > 0.0 {
      avgCost := newCost / newShares;
    } else {
      avgCost := 0.0;
    }

    ghost var after := SimState(newPrice, newShares, newCost, newDividends, newCash);
    MonthMatchesStep(p, before, newPrice, held, dividendAmt, after);
    RecordMatches(m, after, stockAssets, totalAssets, avgCost);
    row := Record(m, newCost, totalAssets, newDividends, newShares, newPrice, avgCost);
  }

  /** The loop body's intermediate values, as the code computes them, give
      exactly `Step`. */
  lemma MonthMatchesStep(p: Plan, before: SimState, price: real, held: real, dividend: real,
                         after: SimState)
    requires before.price > 0.0 && p.growth > -1.0
    requires price == before.price * (1.0 + p.growth)
    requires held == before.shares + p.monthlyAmt / price
    requires dividend == held * price * MonthlyYieldRate(p)
    requires after.price == price
    requires after.shares == (if p.reinvest then held + dividend / price else held)
    requires after.cost == before.cost + p.monthlyAmt
    requires after.dividends == before.dividends + dividend
    requires after.cash == (if p.reinvest then before.cash else before.cash + dividend)
    ensures after == Step(p, before)
  {
  }

  /** The record the loop appends is `RecordOf` the new state. */
  lemma RecordMatches(m: int, s: SimState, stockAssets: real, totalAssets: real, avgCost: real)
    requires stockAssets == s.shares * s.price
    requires totalAssets == stockAssets + s.cash
    requires avgCost == (if s.shares > 0.0 then s.cost / s.shares else 0.0)
    ensures Record(m, s.cost, totalAssets, s.dividends, s.shares, s.price, avgCost) == RecordOf(m, s)
  {
  }

  // ---------------------------------------------------------------------------
  // Properties of the fold
  // ---------------------------------------------------------------------------

  /** The cost basis after m months is m contributions; no month is skipped. */
  lemma {:induction false} CostAfter(p: Plan, m: nat)
    ensures CostAt(p, m) == (m as real) * p.monthlyAmt
  {
    if m > 0 {
      CostAfter(p, m - 1);
    }
  }

  lemma Reassociate(a: real, q: real, b: real)
    ensures (a * q) * b == a * (b * q)
  {
  }

  /** The simulated price after m months is the start price compounded m times. */
  lemma {:induction false} PriceAfter(p: Plan, m: nat)
    requires ValidPlan(p)
    ensures PriceAt(p, m) == p.startPrice * Power(1.0 + p.growth, m)
  {
    if m > 0 {
      PriceAfter(p, m - 1);
      Reassociate(p.startPrice, Power(1.0 + p.growth, m - 1), 1.0 + p.growth);
    }
  }

  /** With reinvestment the wallet stays empty; without it the wallet holds
      exactly the distributions received so far. */
  lemma {:induction false} CashAfter(p: Plan, m: nat)
    requires ValidPlan(p)
    ensures p.reinvest ==> CashAt(p, m) == 0.0
    ensures !p.reinvest ==> CashAt(p, m) == DividendsAt(p, m)
  {
    if m > 0 {
      CashAfter(p, m - 1);
    }
  }

  /** What month m adds: the purchase of monthly_amt / price shares, plus the
      distribution's worth of shares when reinvesting; the distribution itself is
      the post-purchase market value times the monthly yield rate. */
  lemma MonthIncrements(p: Plan, m: nat)
    requires ValidPlan(p) && m >= 1
    ensures var price := PriceAt(p, m);
            SharesAt(p, m) == SharesAt(p, m - 1) + p.monthlyAmt / price
                              + (if p.reinvest then DividendAt(p, m) / price else 0.0)
    ensures DividendAt(p, m)
            == (SharesAt(p, m - 1) + p.monthlyAmt / PriceAt(p, m)) * PriceAt(p, m) * MonthlyYieldRate(p)
    ensures DividendsAt(p, m) == DividendsAt(p, m - 1) + DividendAt(p, m)
    ensures CostAt(p, m) == CostAt(p, m - 1) + p.monthlyAmt
  {
    assert HeldAt(p, m) == SharesAt(p, m - 1) + p.monthlyAmt / PriceAt(p, m);
  }

  lemma FactorOut(h: real, d: real, price: real, rate: real)
    requires price > 0.0
    requires d == h * price * rate
    ensures h + d / price == h * (1.0 + rate)
  {
    assert d / price == h * rate;
  }

  /** Reinvesting scales the post-purchase holding by 1 + the monthly yield rate. */
  lemma ReinvestFactor(p: Plan, m: nat)
    requires ValidPlan(p) && m >= 1
    requires p.reinvest
    ensures SharesAt(p, m) == HeldAt(p, m) * (1.0 + MonthlyYieldRate(p))
  {
    assert SharesAt(p, m) == HeldAt(p, m) + DividendAt(p, m) / PriceAt(p, m);
    FactorOut(HeldAt(p, m), DividendAt(p, m), PriceAt(p, m), MonthlyYieldRate(p));
  }

  lemma NonNegativeProduct(a: real, b: real)
    requires a >= 0.0 && b >= 0.0
    ensures a * b >= 0.0
  {
  }

  lemma NonNegativeRatio(a: real, b: real)
    requires a >= 0.0 && b > 0.0
    ensures a / b >= 0.0
  {
  }

  /** With non-negative contributions and yield, a month never decreases shares,
      cost or distributions, and its distribution is never negative. */
  lemma {:induction false} MonthMonotone(p: Plan, m: nat)
    requires ValidPlan(p) && m >= 1
    requires p.monthlyAmt >= 0.0 && p.divYield >= 0.0
    ensures SharesAt(p, m - 1) >= 0.0
    ensures DividendAt(p, m) >= 0.0
    ensures SharesAt(p, m) >= SharesAt(p, m - 1)
    ensures CostAt(p, m) >= CostAt(p, m - 1)
    ensures DividendsAt(p, m) >= DividendsAt(p, m - 1)
  {
    if m > 1 {
      MonthMonotone(p, m - 1);
    }
    var price := PriceAt(p, m);
    NonNegativeRatio(p.monthlyAmt, price);
    var held := HeldAt(p, m);
    assert held == SharesAt(p, m - 1) + p.monthlyAmt / price;
    NonNegativeProduct(held, price);
    NonNegativeProduct(held * price, MonthlyYieldRate(p));
    assert DividendAt(p, m) == held * price * MonthlyYieldRate(p);
    NonNegativeRatio(DividendAt(p, m), price);
  }

  /** Running totals never decrease from one month to a later one. */
  lemma {:induction false} TotalsMonotone(p: Plan, i: nat, j: nat)
    requires ValidPlan(p)
    requires p.monthlyAmt >= 0.0 && p.divYield >= 0.0
    requires i <= j
    ensures SharesAt(p, i) <= SharesAt(p, j)
    ensures CostAt(p, i) <= CostAt(p, j)
    ensures DividendsAt(p, i) <= DividendsAt(p, j)
    decreases j - i
  {
    if i < j {
      TotalsMonotone(p, i, j - 1);
      MonthMonotone(p, j);
    }
  }

  // ---------------------------------------------------------------------------
  // Properties of the output records
  // ---------------------------------------------------------------------------

  /** What a record built from a state says, given the state's cost, price and
      wallet. */
  lemma RecordFacts(p: Plan, r: Record, m: nat, s: SimState)
    requires r == RecordOf(m, s)
    requires s.cost == (m as real) * p.monthlyAmt
    requires s.price == p.startPrice * Power(1.0 + p.growth, m) && s.price > 0.0
    requires p.reinvest ==> s.cash == 0.0
    requires !p.reinvest ==> s.cash == s.dividends
    ensures && r.month == m
            && r.totalCost == (m as real) * p.monthlyAmt
            && r.simPrice == p.startPrice * Power(1.0 + p.growth, m)
            && r.simPrice > 0.0
            && r.totalAssets == r.totalShares * r.simPrice + (if p.reinvest then 0.0 else r.totalDividends)
            && r.avgCost == (if r.totalShares > 0.0 then r.totalCost / r.totalShares else 0.0)
  {
  }

  /** The cost basis, price and wallet after m months, in terms of the plan. */
  lemma StateFacts(p: Plan, m: nat)
    requires ValidPlan(p)
    ensures StateAfter(p, m).cost == (m as real) * p.monthlyAmt
    ensures StateAfter(p, m).price == p.startPrice * Power(1.0 + p.growth, m)
    ensures StateAfter(p, m).price > 0.0
    ensures p.reinvest ==> StateAfter(p, m).cash == 0.0
    ensures !p.reinvest ==> StateAfter(p, m).cash == StateAfter(p, m).dividends
  {
    CostAfter(p, m);
    PriceAfter(p, m);
    CashAfter(p, m);
  }

  /** Every record of a projection: its month number, cost basis, price, asset
      total and average cost, in terms of the plan. */
  lemma ProjectionRecord(p: Plan, i: nat)
    requires ValidPlan(p)
    requires i < MonthCount(p.years)
    ensures |Projection(p)| == MonthCount(p.years)
    ensures var r := Projection(p)[i];
            && r.month == i + 1
            && r.totalCost == ((i + 1) as real) * p.monthlyAmt
            && r.simPrice == p.startPrice * Power(1.0 + p.growth, i + 1)
            && r.simPrice > 0.0
            && r.totalAssets == r.totalShares * r.simPrice + (if p.reinvest then 0.0 else r.totalDividends)
            && r.avgCost == (if r.totalShares > 0.0 then r.totalCost / r.totalShares else 0.0)
  {
    StateFacts(p, i + 1);
    RecordFacts(p, Projection(p)[i], i + 1, StateAfter(p, i + 1));
  }

  /** Across the records of a projection, cost basis, shares and distributions
      are non-decreasing when contributions and yield are non-negative. */
  lemma ProjectionMonotone(p: Plan, i: nat, j: nat)
    requires ValidPlan(p)
    requires p.monthlyAmt >= 0.0 && p.divYield >= 0.0
    requires i <= j < MonthCount(p.years)
    ensures |Projection(p)| == MonthCount(p.years)
    ensures Projection(p)[i].totalCost <= Projection(p)[j].totalCost
    ensures Projection(p)[i].totalShares <= Projection(p)[j].totalShares
    ensures Projection(p)[i].totalDividends <= Projection(p)[j].totalDividends
  {
    TotalsMonotone(p, i + 1, j + 1);
  }

  // ---------------------------------------------------------------------------
  // Reinvesting against holding cash
  // ---------------------------------------------------------------------------

  function WithReinvest(p: Plan, reinvest: bool): Plan
  {
    p.(reinvest := reinvest)
  }

  /** The simulated price does not depend on the reinvestment choice. */
  lemma {:induction false} PriceIndependentOfReinvest(p: Plan, m: nat)
    requires ValidPlan(p)
    ensures PriceAt(WithReinvest(p, true), m) == PriceAt(WithReinvest(p, false), m)
  {
    if m > 0 {
      PriceIndependentOfReinvest(p, m - 1);
    }
  }

  lemma GrowsByFactor(h: real, r: real)
    requires h > 0.0 && r > 0.0
    ensures h * (1.0 + r) > h
  {
    assert h * (1.0 + r) == h + h * r;
  }

  /** With a positive yield and positive contributions, reinvesting ends every
      month with strictly more shares than holding cash. */
  lemma {:induction false} ReinvestHoldsMoreShares(p: Plan, m: nat)
    requires ValidPlan(p)
    requires p.monthlyAmt > 0.0 && p.divYield > 0.0
    requires m >= 1
    ensures SharesAt(WithReinvest(p, true), m) > SharesAt(WithReinvest(p, false), m)
  {
    var pr, pc := WithReinvest(p, true), WithReinvest(p, false);
    if m > 1 {
      ReinvestHoldsMoreShares(p, m - 1);
    } else {
      assert SharesAt(pr, 0) == SharesAt(pc, 0) == 0.0;
    }
    PriceIndependentOfReinvest(p, m);
    MonthMonotone(pc, m);
    var bought := p.monthlyAmt / PriceAt(pr, m);
    NonNegativeRatio(p.monthlyAmt, PriceAt(pr, m));
    assert bought > 0.0;
    assert HeldAt(pr, m) == SharesAt(pr, m - 1) + bought;
    assert HeldAt(pc, m) == SharesAt(pc, m - 1) + bought;
    assert SharesAt(pc, m) == HeldAt(pc, m);
    ReinvestFactor(pr, m);
    GrowsByFactor(HeldAt(pr, m), MonthlyYieldRate(pr));
  }

  /** After the first month both choices hold the same total assets: reinvesting
      only turns the distribution into shares at the current price. */
  lemma FirstMonthAssetsAgree(p: Plan)
    requires ValidPlan(p)
    ensures TotalAssets(StateAfter(WithReinvest(p, true), 1)) == TotalAssets(StateAfter(WithReinvest(p, false), 1))
  {
    var pr, pc := WithReinvest(p, true), WithReinvest(p, false);
    PriceIndependentOfReinvest(p, 1);
    var price := PriceAt(pr, 1);
    assert HeldAt(pr, 1) == HeldAt(pc, 1);
    assert DividendAt(pr, 1) == DividendAt(pc, 1);
    var h, d := HeldAt(pr, 1), DividendAt(pr, 1);
    assert SharesAt(pr, 1) == h + d / price;
    assert SharesAt(pc, 1) == h;
    assert CashAt(pr, 1) == 0.0;
    assert CashAt(pc, 1) == d;
    assert (h + d / price) * price == h * price + d;
  }
}
