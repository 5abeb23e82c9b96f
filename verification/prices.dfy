/**
 The historical price series the DCA engine reads, and the resolution of an
 investment date to an execution price.

 A date is an integer day number. The series is the "Adj Close" column of the
 downloaded data: quotes in strictly ascending day order with positive prices.
 Prices are exact reals standing in for float64.
 */
module Prices {
  import opened Outcomes

  /** One row of the series: a trading day and its adjusted close. */
  datatype Quote = Quote(day: int, adjClose: real)

  type PriceSeries = seq<Quote>

  /** Days strictly increase along the series (a sorted, duplicate-free index). */
  ghost predicate Ascending(s: PriceSeries) {
    forall i, j :: 0 <= i < j < |s| ==> s[i].day < s[j].day
  }

  ghost predicate PositivePrices(s: PriceSeries) {
    forall i :: 0 <= i < |s| ==> s[i].adjClose > 0.0
  }

  /** What the download collaborator delivers: sorted by day, every price positive. */
  ghost predicate ValidSeries(s: PriceSeries) {
    Ascending(s) && PositivePrices(s)
  }

  /** The series has a quote on or before day `d`, so a price can be resolved for it. */
  predicate HasPriorQuote(s: PriceSeries, d: int) {
    |s| > 0 && s[0].day <= d
  }

  /** Quote `i` is the latest one dated on or before day `d`: every later quote is after `d`. */
  ghost predicate LatestAtOrBefore(s: PriceSeries, d: int, i: int) {
    && 0 <= i < |s|
    && s[i].day <= d
    && forall j :: i < j < |s| ==> d < s[j].day
  }

  /** The most recent quote of the series (the `.iloc[-1]` row). */
  function LastQuote(s: PriceSeries): Quote
    requires |s| > 0
  {
    s[|s| - 1]
  }

  /** The position of the quote dated exactly `d` (the `date in data.index` test). */
  function FindExact(s: PriceSeries, d: int): (r: Option<nat>)
    ensures r.Some? ==> r.value < |s| && s[r.value].day == d
    ensures r.Some? ==> forall j :: 0 <= j < r.value ==> s[j].day != d
    ensures r.None? <==> forall i :: 0 <= i < |s| ==> s[i].day != d
  {
    if |s| == 0 then None
    else if s[0].day == d then Some(0)
    else
      match FindExact(s[1..], d)
      case None => None
      case Some(i) => Some(i + 1)
  }

  /**
   The position of the last quote dated on or before `d`: the last row of the
   slice `.loc[:d]`. None when that slice is empty.
   */
  function LastAtOrBefore(s: PriceSeries, d: int): (r: Option<nat>)
    ensures r.Some? ==> r.value < |s| && s[r.value].day <= d
    ensures r.Some? ==> forall j :: r.value < j < |s| ==> d < s[j].day
    ensures r.None? <==> forall j :: 0 <= j < |s| ==> d < s[j].day
  {
    if |s| == 0 then None
    else if s[|s| - 1].day <= d then Some(|s| - 1)
    else LastAtOrBefore(s[..|s| - 1], d)
  }

  /**
   The row whose price is used for an investment on day `d`: the exact quote
   when there is one, otherwise the latest earlier quote. It never picks a
   quote dated after `d`, and fails exactly when `d` precedes the whole series.
   */
  function ResolveIndex(s: PriceSeries, d: int): (r: Option<nat>)
    requires Ascending(s)
    ensures r.Some? <==> HasPriorQuote(s, d)
    ensures r.Some? ==> LatestAtOrBefore(s, d, r.value)
    ensures forall i :: 0 <= i < |s| && s[i].day == d ==> r == Some(i)
  {
    match FindExact(s, d)
    case Some(i) => Some(i)
    case None => LastAtOrBefore(s, d)
  }

  /** The execution price for day `d` (`close_price` in the loop). */
  function ResolvePrice(s: PriceSeries, d: int): (r: Option<real>)
    requires ValidSeries(s)
    ensures r.Some? <==> HasPriorQuote(s, d)
    ensures r.Some? ==> r.value > 0.0
  {
    match ResolveIndex(s, d)
    case None => None
    case Some(i) => Some(s[i].adjClose)
  }

  /**
   The price used for day `d` is that day's own close when the series lists
   it, and otherwise the close of the latest quote before `d`, never of a
   later one.
   */
  lemma ResolvedPriceIsLatestPrior(s: PriceSeries, d: int)
    requires ValidSeries(s)
    ensures forall i :: 0 <= i < |s| && s[i].day == d ==> ResolvePrice(s, d) == Some(s[i].adjClose)
    ensures ResolvePrice(s, d).Some? ==>
              exists i :: LatestAtOrBefore(s, d, i) && ResolvePrice(s, d).value == s[i].adjClose
  {
    var r := ResolveIndex(s, d);
    if r.Some? {
      assert LatestAtOrBefore(s, d, r.value);
    }
  }

  /**
   The converse of `ResolvedPriceIsLatestPrior`: on a valid series the latest
   quote on or before `d` is unique, so its close is the resolved price.
   */
  lemma LatestPriorPriceIsResolved(s: PriceSeries, d: int, i: int)
    requires ValidSeries(s)
    requires LatestAtOrBefore(s, d, i)
    ensures ResolvePrice(s, d) == Some(s[i].adjClose)
  {
    assert HasPriorQuote(s, d);
    var j := ResolveIndex(s, d).value;
    assert LatestAtOrBefore(s, d, j);
  }

  /**
   On an ascending series the exact-match branch is the fallback's answer too:
   the latest quote on or before a listed day is that day's own quote.
   */
  lemma ExactMatchIsLatestPrior(s: PriceSeries, i: nat)
    requires Ascending(s)
    requires i < |s|
    ensures LastAtOrBefore(s, s[i].day) == Some(i)
  {
  }
}
