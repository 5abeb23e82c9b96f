/**
 Worked cases on a two-quote series with a gap, checking the model against
 the behaviour the DCA loop is meant to have on concrete data.
 */
module DcaExamples {
  import opened Outcomes
  import opened Prices
  import opened Dca
  import DcaProperties

  /** Day 1 closes at 10, nothing is quoted on day 2, day 3 closes at 30. */
  function GapSeries(): (s: PriceSeries)
    ensures ValidSeries(s)
  {
    [Quote(1, 10.0), Quote(3, 30.0)]
  }

  /**
   A quoted day uses its own close, a day in the gap or after the last
   quote uses the latest earlier close, a day before the first quote has
   no price.
   */
  lemma GapDaysUseEarlierQuote()
    ensures ResolvePrice(GapSeries(), 1) == Some(10.0)
    ensures ResolvePrice(GapSeries(), 2) == Some(10.0)
    ensures ResolvePrice(GapSeries(), 3) == Some(30.0)
    ensures ResolvePrice(GapSeries(), 7) == Some(30.0)
    ensures ResolvePrice(GapSeries(), 0) == None
  {
  }

  /**
   Investing 30 on days 1, 2 and 3 buys 3 + 3 + 1 shares, worth 7 * 30 at
   the last close against 90 invested.
   */
  lemma GapRun()
    ensures RunDca(GapSeries(), CustomDates, [1, 2, 3], 30.0) == Ok(DcaReport(7.0, 210.0, 90.0, 120.0))
  {
    var s := GapSeries();
    GapDaysUseEarlierQuote();
    assert [1, 2, 3][..2] == [1, 2] && [1, 2][..1] == [1] && [1][..0] == [];
    assert Accumulate(s, [1], 30.0) == Ok(3.0);
    assert Accumulate(s, [1, 2], 30.0) == Ok(6.0);
    assert Accumulate(s, [1, 2, 3], 30.0) == Ok(7.0);
  }

  /** A day before the first quote stops the whole run, naming that day. */
  lemma GapRunFailsBeforeHistory()
    ensures RunDca(GapSeries(), CustomDates, [2, 0, -1], 30.0) == Err(NoPriorPrice(0))
  {
  }

  /** An empty custom list is refused; an empty generated schedule reports zeros. */
  lemma EmptySchedules()
    ensures RunDca(GapSeries(), CustomDates, [], 30.0) == Err(EmptySchedule)
    ensures RunDca(GapSeries(), Monthly, [], 30.0) == Ok(DcaReport(0.0, 0.0, 0.0, 0.0))
    ensures RunDca([], Weekly, [1], 30.0) == Err(EmptyPriceSeries)
  {
  }

  /** Ten daily quotes at a flat 100, on days 1 to 10. */
  function FlatSeries(): (s: PriceSeries)
    ensures ValidSeries(s)
  {
    seq(10, i => Quote(i + 1, 100.0))
  }

  /**
   Investing 10 on each of the ten days buys 1 share in all, worth the 100
   invested, with no profit or loss.
   */
  lemma FlatTenDays()
    ensures RunDca(FlatSeries(), CustomDates, seq(10, i => i + 1), 10.0) == Ok(DcaReport(1.0, 100.0, 100.0, 0.0))
  {
    var s, schedule := FlatSeries(), seq(10, i => i + 1);
    assert AllResolvable(s, schedule);
    DcaProperties.FlatPriceBreaksEven(s, CustomDates, schedule, 10.0, 100.0);
  }
}
