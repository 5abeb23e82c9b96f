/**
 The dollar-cost-averaging engine: for each scheduled day, in schedule order,
 buy `amount / price` shares at the resolved price and add them to the running
 total; the portfolio value is re-assigned to `shares * last price` after
 every purchase and stays at its initial 0 when nothing is bought.
 */
module Dca {
  import opened Outcomes
  import opened Prices

  /** Why a run stops without a result. */
  datatype DcaError =
    | EmptyPriceSeries        // the download returned no rows
    | EmptySchedule           // the custom schedule lists no dates
    | NoPriorPrice(day: int)  // an investment day precedes the whole series

  /** How the schedule was chosen; only a custom list is checked for emptiness. */
  datatype ScheduleKind = Monthly | Weekly | CustomDates

  /** The loop's final state: accumulated shares and the last assigned portfolio value. */
  datatype Holding = Holding(shares: real, value: real)

  /** The four figures a run reports. */
  datatype DcaReport = DcaReport(totalShares: real, portfolioValue: real,
                                 totalInvested: real, profitLoss: real)

  /** Every scheduled day has a quote on or before it. */
  predicate AllResolvable(s: PriceSeries, schedule: seq<int>) {
    forall k :: 0 <= k < |schedule| ==> HasPriorQuote(s, schedule[k])
  }

  /** Day `schedule[k]` is the first one in schedule order that cannot be priced. */
  predicate FirstUnresolvable(s: PriceSeries, schedule: seq<int>, k: int) {
    && 0 <= k < |schedule|
    && !HasPriorQuote(s, schedule[k])
    && forall j :: 0 <= j < k ==> HasPriorQuote(s, schedule[j])
  }

  /**
   One pass of the loop body for day `d`: resolve its price and add the
   shares `amount` buys at it. Once a day has failed, the run has stopped and
   later days change nothing.
   */
  function Step(s: PriceSeries, acc: Result<real, DcaError>, d: int, amount: real): (r: Result<real, DcaError>)
    requires ValidSeries(s)
    ensures acc.Err? ==> r == acc
    ensures acc.Ok? ==> (r.Ok? <==> HasPriorQuote(s, d))
    ensures acc.Ok? && r.Err? ==> r.error == NoPriorPrice(d)
  {
    match acc
    case Err(e) => Err(e)
    case Ok(shares) =>
      match ResolvePrice(s, d)
      case None => Err(NoPriorPrice(d))
      case Some(price) => Ok(shares + amount / price)
  }

  /**
   The share total the loop accumulates over `schedule`, starting from 0.
   It succeeds exactly when every day can be priced, and otherwise fails with
   a day of the schedule that precedes the whole series.
   */
  function Accumulate(s: PriceSeries, schedule: seq<int>, amount: real): (r: Result<real, DcaError>)
    requires ValidSeries(s)
    ensures r.Ok? <==> AllResolvable(s, schedule)
    ensures r.Err? ==> r.error.NoPriorPrice? && !HasPriorQuote(s, r.error.day) && r.error.day in schedule
    decreases |schedule|
  {
    if |schedule| == 0 then Ok(0.0)
    else
      var prefix := schedule[..|schedule| - 1];
      assert forall k :: 0 <= k < |prefix| ==> prefix[k] == schedule[k];
      Step(s, Accumulate(s, prefix, amount), schedule[|schedule| - 1], amount)
  }

  /** The fold over the first `i + 1` days is one more loop pass after the first `i`. */
  lemma AccumulateStep(s: PriceSeries, schedule: seq<int>, amount: real, i: int)
    requires ValidSeries(s)
    requires 0 <= i < |schedule|
    ensures Accumulate(s, schedule[..i + 1], amount)
            == Step(s, Accumulate(s, schedule[..i], amount), schedule[i], amount)
  {
    assert schedule[..i + 1][..i] == schedule[..i];
  }

  /**
   The loop pass for day `schedule[i]`, priced at `price`, adds `amount / price`
   shares to the total of the first `i` days.
   */
  lemma BuysAtResolvedPrice(s: PriceSeries, schedule: seq<int>, amount: real, i: int, shares: real, price: real)
    requires ValidSeries(s)
    requires 0 <= i < |schedule|
    requires Accumulate(s, schedule[..i], amount) == Ok(shares)
    requires ResolvePrice(s, schedule[i]) == Some(price)
    ensures Accumulate(s, schedule[..i + 1], amount) == Ok(shares + amount / price)
  {
    AccumulateStep(s, schedule, amount, i);
  }

  /** A run stops at the first day, in schedule order, that precedes the whole series. */
  lemma {:induction false} FailsAtFirstUnresolvable(s: PriceSeries, schedule: seq<int>, amount: real, k: int)
    requires ValidSeries(s)
    requires FirstUnresolvable(s, schedule, k)
    ensures Accumulate(s, schedule, amount) == Err(NoPriorPrice(schedule[k]))
    decreases |schedule|
  {
    var prefix := schedule[..|schedule| - 1];
    assert forall j :: 0 <= j < |prefix| ==> prefix[j] == schedule[j];
    if k < |prefix| {
      FailsAtFirstUnresolvable(s, prefix, amount, k);
    } else {
      assert AllResolvable(s, prefix);
    }
  }

  /**
   When every day before position `i` was priced and day `schedule[i]` cannot
   be, the whole run fails with that day: the loop stops there.
   */
  lemma StopsAtUnpricedDay(s: PriceSeries, schedule: seq<int>, amount: real, i: int)
    requires ValidSeries(s)
    requires 0 <= i < |schedule|
    requires Accumulate(s, schedule[..i], amount).Ok?
    requires !HasPriorQuote(s, schedule[i])
    ensures Accumulate(s, schedule, amount) == Err(NoPriorPrice(schedule[i]))
  {
    assert AllResolvable(s, schedule[..i]);
    assert forall j :: 0 <= j < i ==> schedule[..i][j] == schedule[j];
    assert FirstUnresolvable(s, schedule, i);
    FailsAtFirstUnresolvable(s, schedule, amount, i);
  }

  /**
   The portfolio value after `purchases` iterations holding `shares`: still
   the initial 0 when the loop body never ran, otherwise the value assigned by
   the last iteration, the shares priced at the last quote.
   */
  function PortfolioValue(s: PriceSeries, purchases: nat, shares: real): (r: real)
    requires |s| > 0
    ensures shares == 0.0 ==> r == 0.0
    ensures PositivePrices(s) ==> (r > 0.0 <==> purchases > 0 && shares > 0.0)
  {
    if purchases == 0 then 0.0 else shares * LastQuote(s).adjClose
  }

  /**
   The value the loop holds after `purchases` passes: still 0 if none ran,
   otherwise the last re-assignment.
   */
  lemma LoopLeavesPortfolioValue(s: PriceSeries, purchases: nat, shares: real, value: real)
    requires |s| > 0
    requires purchases == 0 ==> value == 0.0
    requires purchases > 0 ==> value == shares * LastQuote(s).adjClose
    ensures value == PortfolioValue(s, purchases, shares)
  {
  }

  /**
   Whatever the schedule, the value the loop leaves is its share total priced
   at the last quote: in the empty case both are 0.
   */
  lemma ValueIsSharesAtLastPrice(s: PriceSeries, schedule: seq<int>, amount: real, shares: real)
    requires ValidSeries(s) && |s| > 0
    requires Accumulate(s, schedule, amount) == Ok(shares)
    ensures PortfolioValue(s, |schedule|, shares) == shares * LastQuote(s).adjClose
  {
    if |schedule| == 0 {
      assert shares == 0.0;
    }
  }

  /**
   The price lookup as the loop body performs it: the exact quote if the day
   is listed, otherwise the last row of the series up to that day.
   */
  method LookUpPrice(s: PriceSeries, d: int) returns (price: Option<real>)
    requires ValidSeries(s)
    ensures price.Some? <==> HasPriorQuote(s, d)
    ensures forall i :: 0 <= i < |s| && s[i].day == d ==> price == Some(s[i].adjClose)
    ensures price.Some? ==> exists i :: LatestAtOrBefore(s, d, i) && price.value == s[i].adjClose
  {
    var exact := FindExact(s, d);
    if exact.Some? {
      return Some(s[exact.value].adjClose);
    }
    var prior := LastAtOrBefore(s, d);
    if prior.None? {
      return None;
    }
    return Some(s[prior.value].adjClose);
  }

  /** A price satisfying `LookUpPrice`'s contract is the resolved price of the day. */
  lemma LookedUpPriceIsResolved(s: PriceSeries, d: int, price: Option<real>)
    requires ValidSeries(s)
    requires price.Some?
    requires exists i :: LatestAtOrBefore(s, d, i) && price.value == s[i].adjClose
    ensures ResolvePrice(s, d) == price
  {
    var i :| LatestAtOrBefore(s, d, i) && price.value == s[i].adjClose;
    LatestPriorPriceIsResolved(s, d, i);
  }

  /**
   The loop of the source written imperatively: shares bought day by day in
   schedule order, the value re-assigned after every purchase, and a stop at
   the first day that cannot be priced.
   */
  method RunLoop(s: PriceSeries, schedule: seq<int>, amount: real) returns (r: Result<Holding, DcaError>)
    requires ValidSeries(s)
    ensures r.Ok? <==> AllResolvable(s, schedule)
    ensures r.Ok? ==> Accumulate(s, schedule, amount) == Ok(r.value.shares)
    ensures r.Ok? && |s| > 0 ==> r.value.value == PortfolioValue(s, |schedule|, r.value.shares)
    ensures r.Ok? && |schedule| == 0 ==> r.value == Holding(0.0, 0.0)
    ensures r.Err? ==> Accumulate(s, schedule, amount) == Err(r.error)
  {
    var value := 0.0;
    var shares := 0.0;
    var i := 0;
    while i < |schedule|
      invariant 0 <= i <= |schedule|
      invariant Accumulate(s, schedule[..i], amount) == Ok(shares)
      invariant i == 0 ==> value == 0.0 && shares == 0.0
      invariant i > 0 ==> |s| > 0 && value == shares * LastQuote(s).adjClose
    {
      var d := schedule[i];
      var price := LookUpPrice(s, d);
      if price.None? {
        StopsAtUnpricedDay(s, schedule, amount, i);
        return Err(NoPriorPrice(d));
      }
      LookedUpPriceIsResolved(s, d, price);
      BuysAtResolvedPrice(s, schedule, amount, i, shares, price.value);
      ghost var bought := schedule[..i + 1];
      shares := shares + amount / price.value;
      value := shares * LastQuote(s).adjClose;
      i := i + 1;
      assert bought == schedule[..i];
    }
    assert schedule[..i] == schedule;
    if |s| > 0 {
      LoopLeavesPortfolioValue(s, i, shares, value);
    }
    return Ok(Holding(shares, value));
  }

  /** Total invested: one contribution of `amount` per scheduled day. */
  function TotalInvested(schedule: seq<int>, amount: real): (r: real)
    ensures |schedule| == 0 ==> r == 0.0
    ensures amount >= 0.0 ==> r >= 0.0
    ensures amount > 0.0 ==> (r > 0.0 <==> |schedule| > 0)
  {
    |schedule| as real * amount
  }

  /** The contributions paid over `schedule`, added one scheduled day at a time. */
  function Contributions(schedule: seq<int>, amount: real): real
    decreases |schedule|
  {
    if |schedule| == 0 then 0.0 else Contributions(schedule[..|schedule| - 1], amount) + amount
  }

  /** The invested total is the sum of one contribution per scheduled day, repeats included. */
  lemma {:induction false} InvestedIsOneContributionPerDay(schedule: seq<int>, amount: real)
    ensures TotalInvested(schedule, amount) == Contributions(schedule, amount)
    decreases |schedule|
  {
    if |schedule| > 0 {
      var prefix := schedule[..|schedule| - 1];
      InvestedIsOneContributionPerDay(prefix, amount);
      assert |schedule| as real * amount == |prefix| as real * amount + amount;
    }
  }

  /** The four reported figures for a share total bought over `schedule`. */
  function Report(s: PriceSeries, schedule: seq<int>, amount: real, shares: real): (r: DcaReport)
    requires |s| > 0
    ensures r.totalShares == shares
    ensures r.totalInvested == |schedule| as real * amount
    ensures r.profitLoss == r.portfolioValue - r.totalInvested
    ensures |schedule| > 0 ==> r.portfolioValue == shares * LastQuote(s).adjClose
    ensures |schedule| == 0 ==> r.portfolioValue == 0.0
  {
    var value := PortfolioValue(s, |schedule|, shares);
    var invested := TotalInvested(schedule, amount);
    DcaReport(shares, value, invested, value - invested)
  }

  /**
   A whole run: the early stops on empty data and on an empty custom schedule,
   then the loop, then the derived totals.
   */
  function RunDca(s: PriceSeries, kind: ScheduleKind, schedule: seq<int>, amount: real): (r: Result<DcaReport, DcaError>)
    requires ValidSeries(s)
    ensures |s| == 0 ==> r == Err(EmptyPriceSeries)
    ensures |s| > 0 && kind == CustomDates && |schedule| == 0 ==> r == Err(EmptySchedule)
    ensures r.Ok? <==> |s| > 0 && (kind != CustomDates || |schedule| > 0) && AllResolvable(s, schedule)
    ensures r.Err? && r.error.NoPriorPrice? ==> !HasPriorQuote(s, r.error.day) && r.error.day in schedule
    ensures r.Ok? ==> r.value == Report(s, schedule, amount, Accumulate(s, schedule, amount).value)
  {
    if |s| == 0 then Err(EmptyPriceSeries)
    else if kind == CustomDates && |schedule| == 0 then Err(EmptySchedule)
    else
      match Accumulate(s, schedule, amount)
      case Err(e) => Err(e)
      case Ok(shares) => Ok(Report(s, schedule, amount, shares))
  }

  /**
   A run on a non-empty series stops with the first scheduled day, in
   schedule order, that precedes the whole series, whatever the kind of
   schedule and the amount.
   */
  lemma RunFailsAtFirstUnresolvable(s: PriceSeries, kind: ScheduleKind, schedule: seq<int>, amount: real, k: int)
    requires ValidSeries(s) && |s| > 0
    requires FirstUnresolvable(s, schedule, k)
    ensures RunDca(s, kind, schedule, amount) == Err(NoPriorPrice(schedule[k]))
  {
    FailsAtFirstUnresolvable(s, schedule, amount, k);
  }

  /**
   A successful run reports a portfolio value equal to its share total priced
   at the last quote, including the empty schedule where both are 0, and
   reports nothing but zeros when there was nothing to buy.
   */
  lemma RunValueIsSharesAtLastPrice(s: PriceSeries, kind: ScheduleKind, schedule: seq<int>, amount: real)
    requires ValidSeries(s)
    requires RunDca(s, kind, schedule, amount).Ok?
    ensures ValuedAtLastClose(s, RunDca(s, kind, schedule, amount).value)
    ensures |schedule| == 0 ==> RunDca(s, kind, schedule, amount).value == DcaReport(0.0, 0.0, 0.0, 0.0)
  {
    var shares := Accumulate(s, schedule, amount).value;
    if |schedule| == 0 {
      assert shares == 0.0;
    }
    ReportedValueIsSharesAtLastPrice(s, schedule, amount, shares, RunDca(s, kind, schedule, amount).value);
  }

  /** The report of a share total that is 0 when nothing was bought values it at the last close. */
  lemma ReportedValueIsSharesAtLastPrice(s: PriceSeries, schedule: seq<int>, amount: real, shares: real, report: DcaReport)
    requires |s| > 0
    requires report == Report(s, schedule, amount, shares)
    requires |schedule| == 0 ==> shares == 0.0
    ensures ValuedAtLastClose(s, report)
    ensures |schedule| == 0 ==> report == DcaReport(0.0, 0.0, 0.0, 0.0)
  {
  }

  /** The report's portfolio value is its share total priced at the last close. */
  predicate ValuedAtLastClose(s: PriceSeries, report: DcaReport)
    requires |s| > 0
  {
    report.portfolioValue == report.totalShares * LastQuote(s).adjClose
  }
}
