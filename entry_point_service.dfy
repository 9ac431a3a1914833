/** The two public operations of the entry-point service: the live entry
    check for the freshest candle window, and the enumeration of historical
    entry points.

    Both depend on two collaborators that are not part of this model and are
    taken as parameters: the open-position query (a predicate on the ticker)
    and the crossover computation (a function from candles to an optional
    crossover sequence; `None` stands for a missing result). The indicator
    configuration is only forwarded to the crossover computation and never
    branches the decision, so it is folded into that parameter. */
module EntryPointService {
  import opened EntryRules
  import opened HistoricalEntries

  datatype Option<T> = None | Some(value: T)

  /** One unit of price history. The service reads only the ticker and the
      time; the prices are for the crossover computation. */
  datatype Candle = Candle(ticker: string, time: int, open: real, high: real, low: real, close: real)

  /** Input failures, which reach the caller as errors rather than as "no
      entry": reading the ticker of an empty candle window, reading the time
      of the last crossover of an empty crossover list, and filtering a
      missing crossover list. */
  datatype Failure = NoCandles | NoCrossovers | MissingCrossovers

  datatype Result<T> = Ok(value: T) | Err(failure: Failure)

  /** A live signal: the last crossover is stamped with the last candle's time
      and is an entry relative to the crossover before it. */
  ghost predicate LiveSignal(candles: seq<Candle>, crossovers: seq<Crossover>) {
    && |candles| > 0
    && |crossovers| >= 2
    && crossovers[|crossovers| - 1].time == candles[|candles| - 1].time
    && EntrySignal(crossovers[|crossovers| - 2], crossovers[|crossovers| - 1])
  }

  /** Should a position be opened now? Gates, in order: an open position for
      the ticker, a missing crossover result, a last crossover that is not on
      the last candle; then the pair verification decides. */
  function ShouldEnter(
    candles: seq<Candle>,
    hasOpenPosition: string -> bool,
    calculatePositiveCrossovers: seq<Candle> -> Option<seq<Crossover>>
  ): (r: Result<bool>)
    ensures r.Err? <==>
              |candles| == 0 ||
              (!hasOpenPosition(candles[0].ticker) && calculatePositiveCrossovers(candles) == Some([]))
    ensures r.Err? ==> r.failure == (if |candles| == 0 then NoCandles else NoCrossovers)
    ensures r == Ok(true) <==>
              && |candles| > 0
              && !hasOpenPosition(candles[0].ticker)
              && calculatePositiveCrossovers(candles).Some?
              && LiveSignal(candles, calculatePositiveCrossovers(candles).value)
  {
    if |candles| == 0 then Err(NoCandles)
    else
      var ticker := candles[0].ticker;
      if hasOpenPosition(ticker) then Ok(false)
      else match calculatePositiveCrossovers(candles)
        case None => Ok(false)
        case Some(crossovers) =>
          if |crossovers| == 0 then Err(NoCrossovers)
          else
            var recentCrossover := crossovers[|crossovers| - 1];
            var recentCandle := candles[|candles| - 1];
            if recentCrossover.time != recentCandle.time then Ok(false)
            else Ok(ShouldEnterFromCrossovers(crossovers))
  }

  /** An open position answers "no" before any crossover is requested: the
      answer is the same whatever the crossover computation would return. */
  lemma OpenPositionShortCircuits(
    candles: seq<Candle>,
    hasOpenPosition: string -> bool,
    source1: seq<Candle> -> Option<seq<Crossover>>,
    source2: seq<Candle> -> Option<seq<Crossover>>
  )
    requires |candles| > 0 && hasOpenPosition(candles[0].ticker)
    ensures ShouldEnter(candles, hasOpenPosition, source1) == Ok(false)
    ensures ShouldEnter(candles, hasOpenPosition, source2) == Ok(false)
  {
  }

  /** A missing crossover result is no entry. */
  lemma MissingCrossoversNoEntry(
    candles: seq<Candle>,
    hasOpenPosition: string -> bool,
    calculatePositiveCrossovers: seq<Candle> -> Option<seq<Crossover>>
  )
    requires |candles| > 0 && !hasOpenPosition(candles[0].ticker)
    requires calculatePositiveCrossovers(candles) == None
    ensures ShouldEnter(candles, hasOpenPosition, calculatePositiveCrossovers) == Ok(false)
  {
  }

  /** A last crossover that is not on the last candle is stale: no entry. When
      it is on the last candle, the answer is exactly the pair verification. */
  lemma FreshnessGate(
    candles: seq<Candle>,
    hasOpenPosition: string -> bool,
    calculatePositiveCrossovers: seq<Candle> -> Option<seq<Crossover>>,
    crossovers: seq<Crossover>
  )
    requires |candles| > 0 && !hasOpenPosition(candles[0].ticker)
    requires calculatePositiveCrossovers(candles) == Some(crossovers) && |crossovers| > 0
    ensures ShouldEnter(candles, hasOpenPosition, calculatePositiveCrossovers) ==
            if crossovers[|crossovers| - 1].time != candles[|candles| - 1].time then Ok(false)
            else Ok(ShouldEnterFromCrossovers(crossovers))
  {
  }

  /** Every crossover of the history that would have been an entry when it was
      the latest one: the crossover list is computed once for the whole
      window and filtered prefix by prefix. */
  function HistoricalEntryPoints(
    candles: seq<Candle>,
    calculatePositiveCrossovers: seq<Candle> -> Option<seq<Crossover>>
  ): (r: Result<seq<Crossover>>)
    ensures r.Err? <==> |candles| == 0 || calculatePositiveCrossovers(candles).None?
    ensures r.Err? ==> r.failure == (if |candles| == 0 then NoCandles else MissingCrossovers)
    ensures r.Ok? ==> r.value == ForwardScan(calculatePositiveCrossovers(candles).value)
  {
    if |candles| == 0 then Err(NoCandles)
    else match calculatePositiveCrossovers(candles)
      case None => Err(MissingCrossovers)
      case Some(crossovers) =>
        HistoricalIsForwardScan(crossovers);
        Ok(HistoricalFilter(crossovers))
  }
}
