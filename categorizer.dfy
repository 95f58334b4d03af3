/**
 * The fixed threshold bands of the distribution charts (one band per metric per unit) and
 * the colour each conditional style of the detail table selects. Both are pure, total
 * classifications of a single number.
 */
module Categorizer {
  import Aggregator

  const FEW_TRIPS := 3
  const MANY_TRIPS := 5
  const REVENUE_TARGET: real := 4000000.0
  const SHORT_DISTANCE: real := 5000.0
  const LONG_DISTANCE: real := 8000.0
  const IDLE_DAYS := 7

  datatype TripsBand = FewerThanThree | ThreeToFive | MoreThanFive
  datatype RevenueBand = BelowFourMillion | FourMillionOrMore
  datatype DistanceBand = Below5k | From5kTo8k | Above8k

  /** Line 130. */
  function TripsBandOf(trips: int): (b: TripsBand)
    ensures b == FewerThanThree <==> trips < FEW_TRIPS
    ensures b == ThreeToFive <==> FEW_TRIPS <= trips <= MANY_TRIPS
    ensures b == MoreThanFive <==> MANY_TRIPS < trips
  {
    if trips < FEW_TRIPS then FewerThanThree else if trips > MANY_TRIPS then MoreThanFive else ThreeToFive
  }

  /** Line 131. */
  function RevenueBandOf(revenue: real): (b: RevenueBand)
    ensures b == BelowFourMillion <==> revenue < REVENUE_TARGET
    ensures b == FourMillionOrMore <==> REVENUE_TARGET <= revenue
  {
    if revenue < REVENUE_TARGET then BelowFourMillion else FourMillionOrMore
  }

  /** Line 132. */
  function DistanceBandOf(km: real): (b: DistanceBand)
    ensures b == Below5k <==> km < SHORT_DISTANCE
    ensures b == From5kTo8k <==> SHORT_DISTANCE <= km <= LONG_DISTANCE
    ensures b == Above8k <==> LONG_DISTANCE < km
  {
    if km < SHORT_DISTANCE then Below5k else if km > LONG_DISTANCE then Above8k else From5kTo8k
  }

  /** The chart labels of lines 130-132. */
  function TripsLabel(b: TripsBand): string
  {
    match b
    case FewerThanThree => "< 3"
    case ThreeToFive => "3-5"
    case MoreThanFive => "> 5"
  }

  function RevenueLabel(b: RevenueBand): string
  {
    match b
    case BelowFourMillion => "< $4M"
    case FourMillionOrMore => ">= $4M"
  }

  function DistanceLabel(b: DistanceBand): string
  {
    match b
    case Below5k => "< 5k"
    case From5kTo8k => "5k-8k"
    case Above8k => "> 8k"
  }

  /** Position of a band from the lowest (0) upwards. */
  function TripsRank(b: TripsBand): nat
  {
    match b
    case FewerThanThree => 0
    case ThreeToFive => 1
    case MoreThanFive => 2
  }

  function DistanceRank(b: DistanceBand): nat
  {
    match b
    case Below5k => 0
    case From5kTo8k => 1
    case Above8k => 2
  }

  /** The colour a conditional style selects; `Plain` is the empty style string. */
  datatype Colour = Red | Yellow | Green | Plain

  /** Line 153. */
  function TripsColour(trips: int): (c: Colour)
    ensures c != Plain
    ensures c == Red <==> trips < FEW_TRIPS
    ensures c == Yellow <==> FEW_TRIPS <= trips <= MANY_TRIPS
    ensures c == Green <==> MANY_TRIPS < trips
  {
    if trips < FEW_TRIPS then Red else if trips > MANY_TRIPS then Green else Yellow
  }

  /** Line 156. */
  function RevenueColour(revenue: real): (c: Colour)
    ensures c == Red || c == Green
    ensures c == Green <==> REVENUE_TARGET <= revenue
  {
    if revenue < REVENUE_TARGET then Red else Green
  }

  /** Line 159: the middle distance band gets no style. */
  function DistanceColour(km: real): (c: Colour)
    ensures c != Yellow
    ensures c == Red <==> km < SHORT_DISTANCE
    ensures c == Plain <==> SHORT_DISTANCE <= km <= LONG_DISTANCE
    ensures c == Green <==> LONG_DISTANCE < km
  {
    if km < SHORT_DISTANCE then Red else if km > LONG_DISTANCE then Green else Plain
  }

  /** Line 162: only more than a week without trips is flagged. */
  function InactivityColour(days: int): (c: Colour)
    ensures c == Red || c == Plain
    ensures c == Red <==> IDLE_DAYS < days
  {
    if days > IDLE_DAYS then Red else Plain
  }

  /** The `*_Cat` columns of one summary row. */
  datatype Categories = Categories(trips: TripsBand, revenue: RevenueBand, distance: DistanceBand)

  /** The styles of one row of the detail table. */
  datatype Semaphore = Semaphore(trips: Colour, revenue: Colour, distance: Colour, inactivity: Colour)

  function Categorize(u: Aggregator.UnitSummary): Categories
  {
    Categories(TripsBandOf(u.trips), RevenueBandOf(u.revenue), DistanceBandOf(u.distance))
  }

  function Style(u: Aggregator.UnitSummary): Semaphore
  {
    Semaphore(TripsColour(u.trips), RevenueColour(u.revenue), DistanceColour(u.distance), InactivityColour(u.inactivityDays))
  }

  /** Lines 130-132 applied to every summary row; no row's category depends on another row. */
  function CategorizeAll(units: seq<Aggregator.UnitSummary>): (r: seq<Categories>)
    ensures |r| == |units|
    ensures forall i :: 0 <= i < |units| ==> r[i].trips == TripsBandOf(units[i].trips)
    ensures forall i :: 0 <= i < |units| ==> r[i].revenue == RevenueBandOf(units[i].revenue)
    ensures forall i :: 0 <= i < |units| ==> r[i].distance == DistanceBandOf(units[i].distance)
  {
    seq(|units|, i requires 0 <= i < |units| => Categorize(units[i]))
  }

  /** Lines 153-162 applied to every row of the detail table. */
  function StyleAll(units: seq<Aggregator.UnitSummary>): (r: seq<Semaphore>)
    ensures |r| == |units|
    ensures forall i :: 0 <= i < |units| ==> r[i] == Style(units[i])
  {
    seq(|units|, i requires 0 <= i < |units| => Style(units[i]))
  }

  /** Lines 130-132: the bands are boundary-exact. */
  lemma BandBoundaries()
    ensures TripsLabel(TripsBandOf(2)) == "< 3"
    ensures TripsLabel(TripsBandOf(3)) == "3-5" && TripsLabel(TripsBandOf(5)) == "3-5"
    ensures TripsLabel(TripsBandOf(6)) == "> 5"
    ensures RevenueLabel(RevenueBandOf(3999999.99)) == "< $4M"
    ensures RevenueLabel(RevenueBandOf(4000000.0)) == ">= $4M"
    ensures DistanceLabel(DistanceBandOf(4999.99)) == "< 5k"
    ensures DistanceLabel(DistanceBandOf(5000.0)) == "5k-8k" && DistanceLabel(DistanceBandOf(8000.0)) == "5k-8k"
    ensures DistanceLabel(DistanceBandOf(8000.01)) == "> 8k"
    ensures InactivityColour(7) == Plain && InactivityColour(8) == Red
  {
  }

  /** The bands never decrease as the metric grows. */
  lemma BandsMonotone(x: real, y: real, m: int, n: int)
    requires x <= y && m <= n
    ensures TripsRank(TripsBandOf(m)) <= TripsRank(TripsBandOf(n))
    ensures RevenueBandOf(x) == FourMillionOrMore ==> RevenueBandOf(y) == FourMillionOrMore
    ensures DistanceRank(DistanceBandOf(x)) <= DistanceRank(DistanceBandOf(y))
  {
  }

  /**
   * Lines 153-162 against lines 130-132: the trips and revenue styles are the chart bands
   * coloured low-red, middle-yellow, high-green; the distance style leaves the middle band
   * plain; inactivity is flagged exactly above seven days.
   */
  lemma ColoursFollowBands(trips: int, revenue: real, km: real, days: int)
    ensures TripsColour(trips) == Red <==> TripsBandOf(trips) == FewerThanThree
    ensures TripsColour(trips) == Yellow <==> TripsBandOf(trips) == ThreeToFive
    ensures TripsColour(trips) == Green <==> TripsBandOf(trips) == MoreThanFive
    ensures RevenueColour(revenue) == Red <==> RevenueBandOf(revenue) == BelowFourMillion
    ensures RevenueColour(revenue) == Green <==> RevenueBandOf(revenue) == FourMillionOrMore
    ensures DistanceColour(km) == Red <==> DistanceBandOf(km) == Below5k
    ensures DistanceColour(km) == Plain <==> DistanceBandOf(km) == From5kTo8k
    ensures DistanceColour(km) == Green <==> DistanceBandOf(km) == Above8k
    ensures InactivityColour(days) == Red <==> days > IDLE_DAYS
  {
  }

  /** Different bands get different chart labels, so the bar charts count each band apart. */
  lemma LabelsDistinct(a: TripsBand, b: TripsBand, c: DistanceBand, d: DistanceBand)
    ensures a != b ==> TripsLabel(a) != TripsLabel(b)
    ensures c != d ==> DistanceLabel(c) != DistanceLabel(d)
    ensures RevenueLabel(BelowFourMillion) != RevenueLabel(FourMillionOrMore)
  {
  }
}
