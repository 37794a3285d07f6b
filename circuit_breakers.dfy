/**
  * Stock price bands and the index circuit-breaker classifier
  * (indian_market/circuit_breakers.py).
  *
  * Prices and percentages are reals. A time of day is a whole number of
  * seconds since midnight; every threshold the classifier compares against
  * falls on a whole second, so dropping the fraction of a second changes no
  * comparison.
  */
module CircuitBreakers {
  import opened Orders

  /** A band entry is a bare percentage or, for F&O stocks, a record that also carries a cooling period. */
  datatype BandEntry = Percent(band: real) | WithCooling(band: real, coolingPeriod: int)

  const StockPriceBands: map<string, BandEntry> := map[
    "category_1" := Percent(0.02),
    "category_2" := Percent(0.05),
    "category_3" := Percent(0.10),
    "fno_stocks" := WithCooling(0.10, 15),
    "default" := Percent(0.20)
  ]

  /** The band of a stock category; a category missing from the table takes the default entry. */
  function PriceBand(category: string): (band: real)
    ensures 0.02 <= band <= 0.20
    ensures category !in StockPriceBands ==> band == StockPriceBands["default"].band
  {
    var entry := if category in StockPriceBands then StockPriceBands[category] else StockPriceBands["default"];
    entry.band
  }

  /** The band of every category: 2%, 5% and 10% for categories 1 to 3, 10% for F&O stocks, 20% otherwise. */
  lemma PriceBandTable(category: string)
    ensures PriceBand(category) ==
      if category == "category_1" then 0.02
      else if category == "category_2" then 0.05
      else if category == "category_3" then 0.10
      else if category == "fno_stocks" then 0.10
      else 0.20
  {
  }

  /** The monitor's state, fixed when it is built: nothing ever sets the halt flag again. */
  datatype CircuitBreakerMonitor = CircuitBreakerMonitor(
    referencePrice: real,
    stockCategory: string,
    marketHalted: bool,
    haltEndTime: Option<int>,
    priceBand: real,
    upperBand: real,
    lowerBand: real)

  function NewMonitor(referencePrice: real, stockCategory: string := "default"): (m: CircuitBreakerMonitor)
    ensures !m.marketHalted && m.haltEndTime.None?
    ensures m.referencePrice == referencePrice && m.priceBand == PriceBand(stockCategory)
    ensures m.upperBand - referencePrice == referencePrice - m.lowerBand == m.priceBand * referencePrice
    ensures referencePrice > 0.0 ==> m.lowerBand < referencePrice < m.upperBand
  {
    var band := PriceBand(stockCategory);
    CircuitBreakerMonitor(referencePrice, stockCategory, false, None, band,
      referencePrice * (1.0 + band), referencePrice * (1.0 - band))
  }

  /** Whether a price lies within the daily band, both ends included. */
  predicate CheckPriceBand(m: CircuitBreakerMonitor, orderPrice: real) {
    m.lowerBand <= orderPrice <= m.upperBand
  }

  function Abs(x: real): real {
    if x < 0.0 then -x else x
  }

  /**
    * For a monitor built with a positive reference price, a price is within
    * the band exactly when it is no further from the reference than the
    * band's share of it.
    */
  lemma CheckPriceBandRelative(referencePrice: real, stockCategory: string, orderPrice: real)
    requires referencePrice > 0.0
    ensures CheckPriceBand(NewMonitor(referencePrice, stockCategory), orderPrice) <==>
            Abs(orderPrice - referencePrice) <= PriceBand(stockCategory) * referencePrice
  {
  }

  /* ---------------------------------------------------------------------- */
  /* Index circuit breakers                                                  */
  /* ---------------------------------------------------------------------- */

  datatype HaltAction = HaltMinutes(minutes: int) | CloseMarket | HaltForDay

  /** A rule of the index table: an action per time bucket, or one action at any time. */
  datatype HaltRule = ByTime(before1pm: HaltAction, from1pmTo230pm: HaltAction, after230pm: HaltAction) | AnyTime(action: HaltAction)

  const IndexCircuitBreakers: map<real, HaltRule> := map[
    0.10 := ByTime(HaltMinutes(45), HaltMinutes(15), HaltMinutes(0)),
    0.15 := ByTime(HaltMinutes(105), HaltMinutes(45), CloseMarket),
    0.20 := AnyTime(HaltForDay)
  ]

  /** 13:00 and 14:30 in seconds since midnight. */
  const OnePm := 13 * 3600
  const HalfPastTwoPm := 14 * 3600 + 30 * 60

  /** The outcome of the classifier; the 20% rule reports no level, only its action. */
  datatype HaltInfo = NotTriggered | Triggered(level: Option<real>, action: HaltAction)

  /** The relative move of a price away from the reference. */
  function PriceChange(m: CircuitBreakerMonitor, currentPrice: real): real
    requires m.referencePrice != 0.0
  {
    Abs(currentPrice - m.referencePrice) / m.referencePrice
  }

  /** The largest of the thresholds 0.20, 0.15 and 0.10 that the move reaches, or 0 when it reaches none. */
  function TriggeredLevel(change: real): (level: real)
    ensures level == 0.0 || level in IndexCircuitBreakers
    ensures level != 0.0 ==> level <= change
    ensures forall t :: t in IndexCircuitBreakers && t <= change ==> t <= level
  {
    if change >= 0.20 then 0.20
    else if change >= 0.15 then 0.15
    else if change >= 0.10 then 0.10
    else 0.0
  }

  /** A larger move never triggers a lower level. */
  lemma TriggeredLevelMonotone(c1: real, c2: real)
    requires c1 <= c2
    ensures TriggeredLevel(c1) <= TriggeredLevel(c2)
  {
  }

  function CheckIndexCircuitBreaker(m: CircuitBreakerMonitor, currentPrice: real, currentTime: int): HaltInfo
    requires m.referencePrice != 0.0
  {
    var level := TriggeredLevel(PriceChange(m, currentPrice));
    if level == 0.0 then NotTriggered
    else
      match IndexCircuitBreakers[level]
      case AnyTime(action) => Triggered(None, action)
      case ByTime(before, between, after) =>
        var action :=
          if currentTime < OnePm then before
          else if OnePm <= currentTime < HalfPastTwoPm then between
          else after;
        Triggered(Some(level), action)
  }

  /**
    * The classifier in full: a move below 10% never triggers; a move of 20%
    * or more halts for the day whatever the time; a move from 10% (or 15%)
    * halts for 45, 15 or 0 minutes (or 105, 45 minutes or closes the
    * market) before 13:00, until 14:30, or after.
    */
  lemma CheckIndexCircuitBreakerTable(m: CircuitBreakerMonitor, currentPrice: real, currentTime: int)
    requires m.referencePrice != 0.0
    ensures var change := PriceChange(m, currentPrice);
      var before := currentTime < OnePm;
      var between := OnePm <= currentTime < HalfPastTwoPm;
      CheckIndexCircuitBreaker(m, currentPrice, currentTime) ==
        if change < 0.10 then NotTriggered
        else if change >= 0.20 then Triggered(None, HaltForDay)
        else if change >= 0.15 then
          Triggered(Some(0.15), if before then HaltMinutes(105) else if between then HaltMinutes(45) else CloseMarket)
        else
          Triggered(Some(0.10), HaltMinutes(if before then 45 else if between then 15 else 0))
  {
  }

  /** Against a negative reference price the move is negative and nothing ever triggers. */
  lemma NegativeReferenceNeverTriggers(m: CircuitBreakerMonitor, currentPrice: real, currentTime: int)
    requires m.referencePrice < 0.0
    ensures CheckIndexCircuitBreaker(m, currentPrice, currentTime) == NotTriggered
  {
  }
}
