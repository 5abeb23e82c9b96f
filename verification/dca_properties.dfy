/**
 Properties of the DCA loop that relate several runs or the whole schedule:
 the share total is the sum of the individual purchases, it never shrinks,
 it scales with the amount, it does not depend on the order of the schedule
 (with exact reals), and a repeated day buys again each time.
 */
module DcaProperties {
  import opened Outcomes
  import opened Prices
  import opened Dca

  lemma SplitLast<T>(x: seq<T>)
    requires |x| > 0
    ensures x == x[..|x| - 1] + [x[|x| - 1]]
  {
  }

  lemma SplitAt<T>(x: seq<T>, i: int)
    requires 0 <= i <= |x|
    ensures x == x[..i] + x[i..]
  {
  }

  lemma SplitFirst<T>(x: seq<T>)
    requires |x| > 0
    ensures x == [x[0]] + x[1..]
  {
  }

  lemma SplitAround<T>(x: seq<T>, j: int)
    requires 0 <= j < |x|
    ensures x == x[..j] + ([x[j]] + x[j + 1..])
  {
  }

  /** The execution price of every scheduled day, in schedule order. */
  function ExecutionPrices(s: PriceSeries, schedule: seq<int>): (r: seq<real>)
    requires ValidSeries(s) && AllResolvable(s, schedule)
    ensures |r| == |schedule|
    ensures forall k :: 0 <= k < |schedule| ==> ResolvePrice(s, schedule[k]) == Some(r[k])
  {
    seq(|schedule|, k requires 0 <= k < |schedule| => ResolvePrice(s, schedule[k]).value)
  }

  predicate AllPositive(prices: seq<real>) {
    forall k :: 0 <= k < |prices| ==> prices[k] > 0.0
  }

  /**
   Reference total, independent of the loop: the shares `amount` buys at each
   of `prices`, added up; a price listed twice buys twice.
   */
  function SharesFor(amount: real, prices: seq<real>): real
    requires AllPositive(prices)
    decreases |prices|
  {
    if |prices| == 0 then 0.0
    else amount / prices[0] + SharesFor(amount, prices[1..])
  }

  lemma ExecutionPricesPositive(s: PriceSeries, schedule: seq<int>)
    requires ValidSeries(s) && AllResolvable(s, schedule)
    ensures AllPositive(ExecutionPrices(s, schedule))
  {
    var r := ExecutionPrices(s, schedule);
    forall k | 0 <= k < |r|
      ensures r[k] > 0.0
    {
      assert ResolvePrice(s, schedule[k]) == Some(r[k]);
    }
  }

  /** The prices of a concatenated schedule are the concatenated prices. */
  lemma ExecutionPricesAppend(s: PriceSeries, a: seq<int>, b: seq<int>)
    requires ValidSeries(s) && AllResolvable(s, a + b)
    ensures AllResolvable(s, a) && AllResolvable(s, b)
    ensures ExecutionPrices(s, a + b) == ExecutionPrices(s, a) + ExecutionPrices(s, b)
  {
    assert forall k :: 0 <= k < |a| ==> (a + b)[k] == a[k];
    assert forall k :: 0 <= k < |b| ==> (a + b)[|a| + k] == b[k];
    var r, p, q := ExecutionPrices(s, a + b), ExecutionPrices(s, a), ExecutionPrices(s, b);
    forall k | 0 <= k < |r|
      ensures r[k] == (p + q)[k]
    {
      if k < |a| {
        assert ResolvePrice(s, (a + b)[k]) == Some(p[k]);
      } else {
        assert ResolvePrice(s, (a + b)[|a| + (k - |a|)]) == Some(q[k - |a|]);
      }
    }
  }

  /** Splitting the prices splits the share total. */
  lemma {:induction false} SharesForAppend(amount: real, x: seq<real>, y: seq<real>)
    requires AllPositive(x + y)
    ensures AllPositive(x) && AllPositive(y)
    ensures SharesFor(amount, x + y) == SharesFor(amount, x) + SharesFor(amount, y)
    decreases |x|
  {
    assert forall k :: 0 <= k < |x| ==> (x + y)[k] == x[k];
    assert forall k :: 0 <= k < |y| ==> (x + y)[|x| + k] == y[k];
    if |x| == 0 {
      assert x + y == y;
    } else {
      assert (x + y)[1..] == x[1..] + y;
      SharesForAppend(amount, x[1..], y);
    }
  }

  /** The last iteration adds the last day's purchase to the shares of the earlier days. */
  lemma SharesStep(s: PriceSeries, schedule: seq<int>, amount: real)
    requires ValidSeries(s) && |schedule| > 0 && AllResolvable(s, schedule)
    ensures AllResolvable(s, schedule[..|schedule| - 1])
    ensures Accumulate(s, schedule, amount).value
            == Accumulate(s, schedule[..|schedule| - 1], amount).value
               + amount / ResolvePrice(s, schedule[|schedule| - 1]).value
  {
    var prefix := schedule[..|schedule| - 1];
    assert forall k :: 0 <= k < |prefix| ==> prefix[k] == schedule[k];
  }

  /**
   The loop's share total is exactly the sum over the schedule of
   `amount / resolved price`, each day counted once per occurrence.
   */
  lemma {:induction false} SharesAreSumOfPurchases(s: PriceSeries, schedule: seq<int>, amount: real)
    requires ValidSeries(s) && AllResolvable(s, schedule)
    ensures Accumulate(s, schedule, amount).Ok?
    ensures AllPositive(ExecutionPrices(s, schedule))
    ensures Accumulate(s, schedule, amount).value == SharesFor(amount, ExecutionPrices(s, schedule))
    decreases |schedule|
  {
    ExecutionPricesPositive(s, schedule);
    if |schedule| > 0 {
      var prefix := schedule[..|schedule| - 1];
      var d := schedule[|schedule| - 1];
      SharesStep(s, schedule, amount);
      SharesAreSumOfPurchases(s, prefix, amount);
      SplitLast(schedule);
      ExecutionPricesAppend(s, prefix, [d]);
      var p := ResolvePrice(s, d).value;
      assert ExecutionPrices(s, [d]) == [p];
      SharesForAppend(amount, ExecutionPrices(s, prefix), [p]);
      assert SharesFor(amount, [p]) == amount / p + SharesFor(amount, []);
    }
  }

  /** `SharesAreSumOfPurchases` for a run whose total is named `x`. */
  lemma SharesTotal(s: PriceSeries, schedule: seq<int>, amount: real, x: real)
    requires ValidSeries(s) && Accumulate(s, schedule, amount) == Ok(x)
    ensures AllPositive(ExecutionPrices(s, schedule))
    ensures x == SharesFor(amount, ExecutionPrices(s, schedule))
  {
    SharesAreSumOfPurchases(s, schedule, amount);
  }

  lemma {:induction false} SharesForSign(amount: real, prices: seq<real>)
    requires AllPositive(prices)
    ensures amount >= 0.0 ==> SharesFor(amount, prices) >= 0.0
    ensures amount > 0.0 && |prices| > 0 ==> SharesFor(amount, prices) > 0.0
    decreases |prices|
  {
    if |prices| > 0 {
      SharesForSign(amount, prices[1..]);
      QuotientSign(amount, prices[0]);
    }
  }

  lemma QuotientSign(amount: real, price: real)
    requires price > 0.0
    ensures amount >= 0.0 ==> amount / price >= 0.0
    ensures amount > 0.0 ==> amount / price > 0.0
  {
  }

  /**
   With a non-negative amount the share total never decreases from one
   iteration to a later one, and with a positive amount every further
   scheduled day strictly increases it.
   */
  lemma SharesNeverDecrease(s: PriceSeries, schedule: seq<int>, amount: real, i: int)
    requires ValidSeries(s) && AllResolvable(s, schedule)
    requires 0 <= i <= |schedule| && amount >= 0.0
    ensures AllResolvable(s, schedule[..i])
    ensures Accumulate(s, schedule[..i], amount).value <= Accumulate(s, schedule, amount).value
    ensures amount > 0.0 && i < |schedule| ==>
              Accumulate(s, schedule[..i], amount).value < Accumulate(s, schedule, amount).value
  {
    SplitAt(schedule, i);
    ExecutionPricesAppend(s, schedule[..i], schedule[i..]);
    SharesAreSumOfPurchases(s, schedule, amount);
    SharesAreSumOfPurchases(s, schedule[..i], amount);
    SharesAreSumOfPurchases(s, schedule[i..], amount);
    SharesForAppend(amount, ExecutionPrices(s, schedule[..i]), ExecutionPrices(s, schedule[i..]));
    SharesForSign(amount, ExecutionPrices(s, schedule[i..]));
  }

  lemma Distributes(k: real, x: real, y: real)
    ensures k * x + k * y == k * (x + y)
  {
  }

  lemma Associates(k: real, x: real, y: real)
    ensures (k * x) * y == k * (x * y)
  {
  }

  lemma QuotientScales(k: real, amount: real, price: real)
    requires price > 0.0
    ensures (k * amount) / price == k * (amount / price)
  {
  }

  /** Scaling the amount scales the share total bought at fixed prices. */
  lemma {:induction false} SharesForScales(amount: real, prices: seq<real>, k: real)
    requires AllPositive(prices)
    ensures SharesFor(k * amount, prices) == k * SharesFor(amount, prices)
    decreases |prices|
  {
    if |prices| > 0 {
      SharesForScales(amount, prices[1..], k);
      QuotientScales(k, amount, prices[0]);
      Distributes(k, amount / prices[0], SharesFor(amount, prices[1..]));
    }
  }

  /** `SharesForScales` for totals named `x` and `y`. */
  lemma ScaledTotal(amount: real, prices: seq<real>, k: real, scaled: real, x: real, y: real)
    requires AllPositive(prices) && scaled == k * amount
    requires x == SharesFor(amount, prices) && y == SharesFor(scaled, prices)
    ensures y == k * x
  {
    SharesForScales(amount, prices, k);
  }

  /**
   Scaling the amount scales the share total the loop accumulates: `x` and
   `y` are the totals for `amount` and for `scaled`, which is `k * amount`.
   */
  lemma SharesScale(s: PriceSeries, schedule: seq<int>, amount: real, k: real, scaled: real, x: real, y: real)
    requires ValidSeries(s) && scaled == k * amount
    requires Accumulate(s, schedule, amount) == Ok(x)
    requires Accumulate(s, schedule, scaled) == Ok(y)
    ensures y == k * x
  {
    SharesTotal(s, schedule, amount, x);
    SharesTotal(s, schedule, scaled, y);
    ScaledTotal(amount, ExecutionPrices(s, schedule), k, scaled, x, y);
  }

  /** Scaling the shares scales the portfolio value, zero or not. */
  lemma PortfolioValueScales(s: PriceSeries, n: nat, shares: real, k: real)
    requires |s| > 0
    ensures PortfolioValue(s, n, k * shares) == k * PortfolioValue(s, n, shares)
  {
    if n > 0 {
      Associates(k, shares, LastQuote(s).adjClose);
    }
  }

  /** The first day that cannot be priced exists whenever some day cannot. */
  lemma FirstUnresolvableExists(s: PriceSeries, schedule: seq<int>) returns (k: int)
    requires !AllResolvable(s, schedule)
    ensures FirstUnresolvable(s, schedule, k)
  {
    k := 0;
    while HasPriorQuote(s, schedule[k])
      invariant 0 <= k < |schedule|
      invariant forall j :: 0 <= j < k ==> HasPriorQuote(s, schedule[j])
      decreases |schedule| - k
    {
      k := k + 1;
      if k == |schedule| {
        assert AllResolvable(s, schedule);
        assert false;
      }
    }
  }

  lemma ScaledTotals(sv: real, bv: real, n: real, amount: real, k: real)
    requires sv == k * bv
    ensures n * (k * amount) == k * (n * amount)
    ensures sv - n * (k * amount) == k * (bv - n * amount)
  {
    Associates(n, k, amount);
    Associates(k, n, amount);
    assert n * k == k * n;
    Distributes(k, bv, -(n * amount));
  }

  /** Every figure of report `c` is `k` times the same figure of report `b`. */
  predicate ScaledBy(c: DcaReport, b: DcaReport, k: real) {
    && c.totalShares == k * b.totalShares
    && c.portfolioValue == k * b.portfolioValue
    && c.totalInvested == k * b.totalInvested
    && c.profitLoss == k * b.profitLoss
  }

  /**
   The report `c` on `k` times the amount and `y`, which is `k` times the
   shares `x`, is `k` times the report `b` on the amount and `x`.
   */
  lemma ReportScales(s: PriceSeries, schedule: seq<int>, amount: real, k: real, x: real, y: real, b: DcaReport, c: DcaReport)
    requires |s| > 0 && y == k * x
    requires b == Report(s, schedule, amount, x) && c == Report(s, schedule, k * amount, y)
    ensures ScaledBy(c, b, k)
  {
    var n := |schedule| as real;
    PortfolioValueScales(s, |schedule|, x, k);
    var bv := PortfolioValue(s, |schedule|, x);
    var sv := PortfolioValue(s, |schedule|, y);
    assert b == DcaReport(x, bv, n * amount, bv - n * amount);
    assert c == DcaReport(y, sv, n * (k * amount), sv - n * (k * amount));
    ScaledTotals(sv, bv, n, amount, k);
  }

  /**
   Multiplying the amount by `k` multiplies shares, portfolio value, total
   invested and profit/loss by `k`; whether the run fails, and with which
   error, does not depend on the amount.
   */
  lemma RunScales(s: PriceSeries, kind: ScheduleKind, schedule: seq<int>, amount: real, k: real)
    requires ValidSeries(s)
    ensures RunDca(s, kind, schedule, k * amount).Ok? <==> RunDca(s, kind, schedule, amount).Ok?
    ensures RunDca(s, kind, schedule, k * amount).Err? ==>
              RunDca(s, kind, schedule, k * amount).error == RunDca(s, kind, schedule, amount).error
    ensures RunDca(s, kind, schedule, amount).Ok? ==>
              && RunDca(s, kind, schedule, k * amount).Ok?
              && ScaledBy(RunDca(s, kind, schedule, k * amount).value, RunDca(s, kind, schedule, amount).value, k)
  {
    var base := RunDca(s, kind, schedule, amount);
    var scaled := RunDca(s, kind, schedule, k * amount);
    if base.Ok? {
      var x := Accumulate(s, schedule, amount).value;
      var y := Accumulate(s, schedule, k * amount).value;
      SharesScale(s, schedule, amount, k, k * amount, x, y);
      ReportScales(s, schedule, amount, k, x, y, base.value, scaled.value);
    } else if |s| > 0 && !(kind == CustomDates && |schedule| == 0) {
      var first := FirstUnresolvableExists(s, schedule);
      FailsAtFirstUnresolvable(s, schedule, amount, first);
      FailsAtFirstUnresolvable(s, schedule, k * amount, first);
    }
  }

  /** Every day of a schedule can be priced when every day of a permutation of it can. */
  lemma ResolvableOfPermutation(s: PriceSeries, a: seq<int>, b: seq<int>)
    requires multiset(a) == multiset(b) && AllResolvable(s, a)
    ensures AllResolvable(s, b)
  {
    forall k | 0 <= k < |b|
      ensures HasPriorQuote(s, b[k])
    {
      assert b[k] in multiset(b);
      assert b[k] in a;
    }
  }

  /** The purchase total of a schedule is its first day's purchase plus the rest. */
  lemma SharesForFirstDay(s: PriceSeries, a: seq<int>, amount: real)
    requires ValidSeries(s) && AllResolvable(s, a) && |a| > 0
    ensures HasPriorQuote(s, a[0]) && AllResolvable(s, a[1..])
    ensures AllPositive(ExecutionPrices(s, a)) && AllPositive(ExecutionPrices(s, a[1..]))
    ensures SharesFor(amount, ExecutionPrices(s, a))
            == amount / ResolvePrice(s, a[0]).value + SharesFor(amount, ExecutionPrices(s, a[1..]))
  {
    assert forall k :: 0 <= k < |a| - 1 ==> a[1..][k] == a[k + 1];
    ExecutionPricesPositive(s, a);
    ExecutionPricesPositive(s, a[1..]);
    var prices := ExecutionPrices(s, a);
    assert prices[1..] == ExecutionPrices(s, a[1..]);
  }

  /** The purchase total of two concatenated schedules. */
  lemma SharesForConcat(s: PriceSeries, a: seq<int>, b: seq<int>, amount: real)
    requires ValidSeries(s) && AllResolvable(s, a + b)
    ensures AllResolvable(s, a) && AllResolvable(s, b)
    ensures AllPositive(ExecutionPrices(s, a + b))
    ensures AllPositive(ExecutionPrices(s, a)) && AllPositive(ExecutionPrices(s, b))
    ensures SharesFor(amount, ExecutionPrices(s, a + b))
            == SharesFor(amount, ExecutionPrices(s, a)) + SharesFor(amount, ExecutionPrices(s, b))
  {
    ExecutionPricesAppend(s, a, b);
    ExecutionPricesPositive(s, a + b);
    SharesForAppend(amount, ExecutionPrices(s, a), ExecutionPrices(s, b));
  }

  /** The purchase total of a schedule split around its day `j`. */
  lemma SharesForSplitAround(s: PriceSeries, b: seq<int>, j: int, amount: real)
    requires ValidSeries(s) && AllResolvable(s, b) && 0 <= j < |b|
    ensures HasPriorQuote(s, b[j]) && AllResolvable(s, b[..j]) && AllResolvable(s, b[j + 1..])
    ensures AllPositive(ExecutionPrices(s, b))
    ensures AllPositive(ExecutionPrices(s, b[..j])) && AllPositive(ExecutionPrices(s, b[j + 1..]))
    ensures SharesFor(amount, ExecutionPrices(s, b))
            == SharesFor(amount, ExecutionPrices(s, b[..j]))
               + (amount / ResolvePrice(s, b[j]).value + SharesFor(amount, ExecutionPrices(s, b[j + 1..])))
  {
    var rest := b[j..];
    SplitAt(b, j);
    SharesForConcat(s, b[..j], rest, amount);
    assert rest[0] == b[j] && rest[1..] == b[j + 1..];
    SharesForFirstDay(s, rest, amount);
  }

  lemma Rearranged(fa: real, fb: real, q: real, ft: real, flr: real, fl: real, fr: real)
    requires fa == q + ft && ft == flr && flr == fl + fr && fb == fl + (q + fr)
    ensures fa == fb
  {
  }

  /** Removing the first element of `a` and a matching element of `b` keeps them permutations. */
  lemma RemoveMatched(a: seq<int>, b: seq<int>, j: int)
    requires |a| > 0 && 0 <= j < |b| && b[j] == a[0] && multiset(a) == multiset(b)
    ensures multiset(a[1..]) == multiset(b[..j] + b[j + 1..])
  {
    SplitFirst(a);
    SplitAround(b, j);
    var rest, others := multiset(a[1..]), multiset(b[..j] + b[j + 1..]);
    assert multiset(a) == multiset([a[0]]) + rest;
    assert others == multiset(b[..j]) + multiset(b[j + 1..]);
    assert multiset(b) == multiset(b[..j]) + (multiset([a[0]]) + multiset(b[j + 1..]));
    assert multiset(b) == multiset([a[0]]) + others;
    assert rest == multiset(a) - multiset([a[0]]);
    assert others == multiset(b) - multiset([a[0]]);
  }

  lemma IndexOf(b: seq<int>, x: int) returns (j: int)
    requires x in multiset(b)
    ensures 0 <= j < |b| && b[j] == x
  {
    assert x in b;
    j :| 0 <= j < |b| && b[j] == x;
  }

  /** With exact arithmetic the purchase total does not depend on the order of the schedule. */
  lemma {:induction false} SharesForPermutation(s: PriceSeries, a: seq<int>, b: seq<int>, amount: real)
    requires ValidSeries(s) && AllResolvable(s, a) && multiset(a) == multiset(b)
    ensures AllResolvable(s, b)
    ensures AllPositive(ExecutionPrices(s, a)) && AllPositive(ExecutionPrices(s, b))
    ensures SharesFor(amount, ExecutionPrices(s, a)) == SharesFor(amount, ExecutionPrices(s, b))
    decreases |a|
  {
    ResolvableOfPermutation(s, a, b);
    ExecutionPricesPositive(s, a);
    ExecutionPricesPositive(s, b);
    if |a| > 0 {
      var j := IndexOf(b, a[0]);
      var left, right := b[..j], b[j + 1..];
      RemoveMatched(a, b, j);
      SharesForFirstDay(s, a, amount);
      SharesForSplitAround(s, b, j, amount);
      SharesForPermutation(s, a[1..], left + right, amount);
      SharesForConcat(s, left, right, amount);
      Rearranged(SharesFor(amount, ExecutionPrices(s, a)), SharesFor(amount, ExecutionPrices(s, b)),
                 amount / ResolvePrice(s, a[0]).value, SharesFor(amount, ExecutionPrices(s, a[1..])),
                 SharesFor(amount, ExecutionPrices(s, left + right)),
                 SharesFor(amount, ExecutionPrices(s, left)), SharesFor(amount, ExecutionPrices(s, right)));
    }
  }

  /**
   With exact arithmetic the share total does not depend on the order in
   which the schedule lists its days, only on how often each day occurs.
   */
  lemma SharesIgnoreOrder(s: PriceSeries, a: seq<int>, b: seq<int>, amount: real)
    requires ValidSeries(s) && multiset(a) == multiset(b)
    ensures Accumulate(s, a, amount).Ok? <==> Accumulate(s, b, amount).Ok?
    ensures Accumulate(s, a, amount).Ok? ==>
              Accumulate(s, a, amount).value == Accumulate(s, b, amount).value
  {
    if AllResolvable(s, a) {
      SharesForPermutation(s, a, b, amount);
      SharesAreSumOfPurchases(s, a, amount);
      SharesAreSumOfPurchases(s, b, amount);
    } else if AllResolvable(s, b) {
      ResolvableOfPermutation(s, b, a);
    }
  }

  /** A day listed `n` times buys `n` times: duplicates are not collapsed. */
  lemma {:induction false} RepeatedDayBuysEachTime(s: PriceSeries, d: int, n: nat, amount: real)
    requires ValidSeries(s) && HasPriorQuote(s, d)
    ensures AllResolvable(s, seq(n, _ => d))
    ensures Accumulate(s, seq(n, _ => d), amount).Ok?
    ensures Accumulate(s, seq(n, _ => d), amount).value
            == n as real * (amount / ResolvePrice(s, d).value)
  {
    var schedule := seq(n, _ => d);
    if n > 0 {
      assert schedule[..n - 1] == seq(n - 1, _ => d);
      SharesStep(s, schedule, amount);
      RepeatedDayBuysEachTime(s, d, n - 1, amount);
    }
  }

  /** On a series whose every quote has the same price, every scheduled day resolves to it. */
  lemma FlatSeriesResolves(s: PriceSeries, c: real, d: int)
    requires ValidSeries(s) && HasPriorQuote(s, d)
    requires forall i :: 0 <= i < |s| ==> s[i].adjClose == c
    ensures ResolvePrice(s, d) == Some(c)
  {
    ResolvedPriceIsLatestPrior(s, d);
  }

  lemma FlatExecutionPrices(s: PriceSeries, schedule: seq<int>, c: real)
    requires ValidSeries(s) && AllResolvable(s, schedule)
    requires forall i :: 0 <= i < |s| ==> s[i].adjClose == c
    ensures forall k :: 0 <= k < |schedule| ==> ExecutionPrices(s, schedule)[k] == c
  {
    var prices := ExecutionPrices(s, schedule);
    forall k | 0 <= k < |schedule|
      ensures prices[k] == c
    {
      FlatSeriesResolves(s, c, schedule[k]);
    }
  }

  /** `n` purchases at the same price `c` buy `n` times `amount / c` shares. */
  lemma {:induction false} SharesForFlat(amount: real, prices: seq<real>, c: real, n: nat)
    requires c > 0.0 && n == |prices| && forall k :: 0 <= k < |prices| ==> prices[k] == c
    ensures AllPositive(prices)
    ensures SharesFor(amount, prices) == n as real * (amount / c)
    decreases |prices|
  {
    if |prices| > 0 {
      SharesForFlat(amount, prices[1..], c, n - 1);
    }
  }

  /** `SharesForFlat` for a total named `x`. */
  lemma FlatShares(amount: real, prices: seq<real>, c: real, n: nat, x: real)
    requires c > 0.0 && n == |prices| && forall k :: 0 <= k < |prices| ==> prices[k] == c
    requires AllPositive(prices) && x == SharesFor(amount, prices)
    ensures x == n as real * (amount / c)
  {
    SharesForFlat(amount, prices, c, n);
  }

  lemma BreaksEven(x: real, n: real, amount: real, c: real)
    requires c > 0.0 && x == n * (amount / c)
    ensures x * c == n * amount
  {
  }

  lemma FlatPricePositive(s: PriceSeries, c: real)
    requires ValidSeries(s) && |s| > 0
    requires forall i :: 0 <= i < |s| ==> s[i].adjClose == c
    ensures LastQuote(s).adjClose == c && c > 0.0
  {
    assert s[|s| - 1].adjClose == c;
  }

  /**
   The report `r` on shares `x`, bought at prices that all equal the last
   quote `c`, shows a value equal to the amount invested and no profit or loss.
   */
  lemma FlatReportBreaksEven(s: PriceSeries, schedule: seq<int>, amount: real, c: real, x: real,
                             prices: seq<real>, r: DcaReport)
    requires |s| > 0 && LastQuote(s).adjClose == c && c > 0.0
    requires |prices| == |schedule| && forall k :: 0 <= k < |prices| ==> prices[k] == c
    requires AllPositive(prices) && x == SharesFor(amount, prices)
    requires r == Report(s, schedule, amount, x)
    ensures r.totalShares == |schedule| as real * (amount / c)
    ensures r.portfolioValue == r.totalInvested && r.profitLoss == 0.0
  {
    FlatShares(amount, prices, c, |schedule|, x);
    if |schedule| > 0 {
      BreaksEven(x, |schedule| as real, amount, c);
    }
  }

  /**
   When the price never moves, a successful run ends with a portfolio worth
   exactly what was invested: every purchase buys `amount / c` shares, later
   valued at `c` each.
   */
  lemma FlatPriceBreaksEven(s: PriceSeries, kind: ScheduleKind, schedule: seq<int>, amount: real, c: real)
    requires ValidSeries(s)
    requires forall i :: 0 <= i < |s| ==> s[i].adjClose == c
    requires RunDca(s, kind, schedule, amount).Ok?
    ensures RunDca(s, kind, schedule, amount).value.totalShares == |schedule| as real * (amount / c)
    ensures RunDca(s, kind, schedule, amount).value.portfolioValue
            == RunDca(s, kind, schedule, amount).value.totalInvested
    ensures RunDca(s, kind, schedule, amount).value.profitLoss == 0.0
  {
    var x := Accumulate(s, schedule, amount).value;
    FlatPricePositive(s, c);
    SharesTotal(s, schedule, amount, x);
    FlatExecutionPrices(s, schedule, c);
    FlatReportBreaksEven(s, schedule, amount, c, x, ExecutionPrices(s, schedule), RunDca(s, kind, schedule, amount).value);
  }
}
