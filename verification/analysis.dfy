/**
  The exported analysis: configuration checks, then extraction, outlier
  filtering, threshold counting and result assembly.

  The two collaborators the analysis calls and that are not part of this
  model are parameters: `quartiles` (the 25th and 75th percentile of a column,
  `None` when the estimator throws) and `roundToInc` (rounding to a multiple
  of an increment).
*/
module Analysis {
  import opened Numbers
  import opened Extraction
  import opened OutlierFilter
  import opened Probability

  datatype Config = Config(
    lookbehindCandles: int,
    lookaheadCandles: int,
    groupSizeForPctPriceIncreaseProbability: real)

  datatype AnalysisError =
    | InvalidLookbehind   // "lookbehindCandles must be a positive integer"
    | InvalidLookahead    // "lookaheadCandles must be a positive integer"
    | InvalidGroupSize    // "groupSizeForPctPriceIncreaseProbability must be a positive number"
    | UndefinedCandle     // a negative lookbehind reads the property of a missing candle
    | QuantileFailure     // the quartile estimator threw on one of the columns

  datatype Result<T> = Ok(value: T) | Err(error: AnalysisError)

  datatype Report = Report(
    events: seq<Event>,
    bullishEngulfingEventCount: nat,
    lookaheadCandles: int,
    lookbehindCandles: int,
    probabilities: seq<ProbabilityPoint>,
    controlProbabilities: seq<ProbabilityPoint>)

  /** The whole analysis as one function of its inputs. */
  function Analysis(candles: seq<Candle>, config: Config,
                    quartiles: seq<Num> -> Option<Quartiles>, roundToInc: (Num, real) -> Num): Result<Report>
  {
    var lookbehind := config.lookbehindCandles;
    var lookahead := config.lookaheadCandles;
    var groupSize := config.groupSizeForPctPriceIncreaseProbability;
    if lookbehind == 0 then Err(InvalidLookbehind)
    else if lookahead == 0 then Err(InvalidLookahead)
    else if groupSize <= 0.0 then Err(InvalidGroupSize)
    else if lookbehind < 0 then Err(UndefinedCandle)
    else
      var unfiltered := Events(candles, lookbehind, lookahead);
      match FencesFor(unfiltered, quartiles)
      case None => Err(QuantileFailure)
      case Some(fences) =>
        var events := Filter(unfiltered, fences);
        KeptEventsAreFinite(unfiltered, fences);
        var grid := Grid(GridStart(events, roundToInc, groupSize), HighestMaxChange(events), groupSize);
        Ok(Report(events, CountEngulfing(events), lookahead, lookbehind,
                  EngulfingCurve(events, grid), ControlCurve(events, grid)))
  }

  /**
    The exported function. The checks throw before any candle is read:
    a zero lookbehind, then a zero lookahead, then a group size that is not
    positive. Negative window sizes are not rejected.
  */
  method Analyze(candles: seq<Candle>, config: Config,
                 quartiles: seq<Num> -> Option<Quartiles>, roundToInc: (Num, real) -> Num)
    returns (result: Result<Report>)
    ensures result == Analysis(candles, config, quartiles, roundToInc)
    ensures config.lookbehindCandles == 0 ==> result == Err(InvalidLookbehind)
    ensures config.lookbehindCandles != 0 && config.lookaheadCandles == 0 ==> result == Err(InvalidLookahead)
    ensures (config.lookbehindCandles != 0 && config.lookaheadCandles != 0
             && config.groupSizeForPctPriceIncreaseProbability <= 0.0) ==> result == Err(InvalidGroupSize)
    ensures result.Ok? ==> result.value.lookbehindCandles == config.lookbehindCandles >= 1
                           && result.value.lookaheadCandles == config.lookaheadCandles
  {
    var lookbehindCandles := config.lookbehindCandles;
    var lookaheadCandles := config.lookaheadCandles;
    var groupSize := config.groupSizeForPctPriceIncreaseProbability;
    if lookbehindCandles == 0 {
      return Err(InvalidLookbehind);
    }
    if lookaheadCandles == 0 {
      return Err(InvalidLookahead);
    }
    if groupSize <= 0.0 {
      return Err(InvalidGroupSize);
    }
    if lookbehindCandles < 0 {
      return Err(UndefinedCandle);
    }

    var unfilteredEvents := ExtractEvents(candles, lookbehindCandles, lookaheadCandles);
    assert unfilteredEvents == Events(candles, lookbehindCandles, lookaheadCandles);

    var fences := FencesFor(unfilteredEvents, quartiles);
    if fences.None? {
      return Err(QuantileFailure);
    }
    var events := Filter(unfilteredEvents, fences.value);
    KeptEventsAreFinite(unfilteredEvents, fences.value);

    var overallMinPctPriceChange := GridStart(events, roundToInc, groupSize);
    var overallMaxPctPriceChange := HighestMaxChange(events);
    var grid := Grid(overallMinPctPriceChange, overallMaxPctPriceChange, groupSize);
    GridAscending(overallMinPctPriceChange, overallMaxPctPriceChange, groupSize);
    var probabilityCounts, controlProbabilityCounts := CountByThreshold(events, grid);

    var bullishEngulfingEventCount := CountEngulfing(events);
    var probabilities, controlProbabilities :=
      BuildCurves(grid, probabilityCounts, controlProbabilityCounts, bullishEngulfingEventCount, |events|);
    assert probabilities == EngulfingCurve(events, grid);
    assert controlProbabilities == ControlCurve(events, grid);

    result := Ok(Report(events, bullishEngulfingEventCount, lookaheadCandles, lookbehindCandles,
                        probabilities, controlProbabilities));
  }

  /* ---------------------------------------------------------------------- */
  /* What a report promises                                                 */
  /* ---------------------------------------------------------------------- */

  /**
    The error cases, in the order the analysis meets them: configuration,
    then a negative lookbehind (which reaches a missing candle), then the
    quartile estimator.
  */
  lemma AnalysisErrors(candles: seq<Candle>, config: Config,
                       quartiles: seq<Num> -> Option<Quartiles>, roundToInc: (Num, real) -> Num)
    ensures var r := Analysis(candles, config, quartiles, roundToInc);
      var valid := config.lookbehindCandles != 0 && config.lookaheadCandles != 0
                   && config.groupSizeForPctPriceIncreaseProbability > 0.0;
      && (r == Err(InvalidLookbehind) <==> config.lookbehindCandles == 0)
      && (r == Err(InvalidLookahead) <==> config.lookbehindCandles != 0 && config.lookaheadCandles == 0)
      && (r == Err(InvalidGroupSize) <==> config.lookbehindCandles != 0 && config.lookaheadCandles != 0
                                          && config.groupSizeForPctPriceIncreaseProbability <= 0.0)
      && (r == Err(UndefinedCandle) <==> valid && config.lookbehindCandles < 0)
      && (r == Err(QuantileFailure) <==>
            (valid && config.lookbehindCandles > 0
             && FencesFor(Events(candles, config.lookbehindCandles, config.lookaheadCandles), quartiles).None?))
  {
  }

  /**
    The reported events are an in-order selection of the extracted events:
    one per candle from `lookbehindCandles` on, kept exactly when inside the
    fences; every kept metric is finite, and the engulfing count is the
    number of kept events with the flag set.
  */
  lemma ReportEvents(candles: seq<Candle>, config: Config,
                     quartiles: seq<Num> -> Option<Quartiles>, roundToInc: (Num, real) -> Num)
    returns (fences: Fences, positions: seq<nat>)
    requires Analysis(candles, config, quartiles, roundToInc).Ok?
    ensures config.lookbehindCandles >= 1
    ensures FencesFor(Events(candles, config.lookbehindCandles, config.lookaheadCandles), quartiles) == Some(fences)
    ensures var report := Analysis(candles, config, quartiles, roundToInc).value;
      var unfiltered := Events(candles, config.lookbehindCandles, config.lookaheadCandles);
      && |positions| == |report.events| <= |unfiltered|
      && (forall k :: 0 <= k < |positions| ==>
            positions[k] < |unfiltered| && report.events[k] == unfiltered[positions[k]])
      && (forall k, k' :: 0 <= k < k' < |positions| ==> positions[k] < positions[k'])
      && (forall j :: 0 <= j < |unfiltered| ==> (j in positions <==> Keep(unfiltered[j], fences)))
      && (forall e :: e in report.events ==>
            e.pctVolumeChange.Finite? && e.maxPctPriceChange.Finite? && e.minPctPriceChange.Finite?)
      && report.bullishEngulfingEventCount == CountEngulfing(report.events)
  {
    var unfiltered := Events(candles, config.lookbehindCandles, config.lookaheadCandles);
    fences := FencesFor(unfiltered, quartiles).value;
    positions := FilterSelectsInOrder(unfiltered, fences);
    KeptEventsAreFinite(unfiltered, fences);
  }

  /** A successful report, taken apart: the kept events and the grid its curves are built on. */
  lemma ReportParts(candles: seq<Candle>, config: Config,
                    quartiles: seq<Num> -> Option<Quartiles>, roundToInc: (Num, real) -> Num)
    returns (events: seq<Event>, grid: seq<real>)
    requires Analysis(candles, config, quartiles, roundToInc).Ok?
    ensures config.groupSizeForPctPriceIncreaseProbability > 0.0
    ensures forall e :: e in events ==> e.maxPctPriceChange.Finite?
    ensures var start := GridStart(events, roundToInc, config.groupSizeForPctPriceIncreaseProbability);
      start != NegInf && HighestMaxChange(events) != PosInf
      && grid == Grid(start, HighestMaxChange(events), config.groupSizeForPctPriceIncreaseProbability)
    ensures var r := Analysis(candles, config, quartiles, roundToInc).value;
      && r.events == events
      && r.bullishEngulfingEventCount == CountEngulfing(events)
      && r.probabilities == EngulfingCurve(events, grid)
      && r.controlProbabilities == ControlCurve(events, grid)
    ensures forall k, k' :: 0 <= k < k' < |grid| ==> grid[k] < grid[k']
    ensures events == [] ==> grid == []
  {
    var unfiltered := Events(candles, config.lookbehindCandles, config.lookaheadCandles);
    var fences := FencesFor(unfiltered, quartiles).value;
    events := Filter(unfiltered, fences);
    KeptEventsAreFinite(unfiltered, fences);
    var g := config.groupSizeForPctPriceIncreaseProbability;
    grid := Grid(GridStart(events, roundToInc, g), HighestMaxChange(events), g);
    GridAscending(GridStart(events, roundToInc, g), HighestMaxChange(events), g);
  }

  /**
    The two curves share one grid: the same length and the same threshold at
    every position, starting at a non-negative threshold, stepping by the
    group size and never passing the largest kept maximum change, which
    bounds every kept event's maximum change.
  */
  lemma ReportThresholds(candles: seq<Candle>, config: Config,
                         quartiles: seq<Num> -> Option<Quartiles>, roundToInc: (Num, real) -> Num)
    requires Analysis(candles, config, quartiles, roundToInc).Ok?
    ensures var r := Analysis(candles, config, quartiles, roundToInc).value;
      var g := config.groupSizeForPctPriceIncreaseProbability;
      && |r.probabilities| == |r.controlProbabilities|
      && (forall k :: 0 <= k < |r.probabilities| ==>
            r.probabilities[k].pctPriceChange == r.controlProbabilities[k].pctPriceChange)
      && (r.probabilities != [] ==> r.events != [] && r.probabilities[0].pctPriceChange >= 0.0)
      && (forall k :: 0 <= k < |r.probabilities| - 1 ==>
            r.probabilities[k + 1].pctPriceChange == r.probabilities[k].pctPriceChange + g)
      && (forall k, e :: 0 <= k < |r.probabilities| && e in r.events ==>
            r.probabilities[k].pctPriceChange <= HighestMaxChange(r.events).r
            && e.maxPctPriceChange.r <= HighestMaxChange(r.events).r)
  {
    var events, grid := ReportParts(candles, config, quartiles, roundToInc);
  }

  /**
    Control probabilities lie in [0, 1] and never rise along the grid;
    engulfing probabilities do the same when there are engulfing events, and
    are NaN when there are none.
  */
  lemma ReportProbabilities(candles: seq<Candle>, config: Config,
                            quartiles: seq<Num> -> Option<Quartiles>, roundToInc: (Num, real) -> Num)
    requires Analysis(candles, config, quartiles, roundToInc).Ok?
    ensures var r := Analysis(candles, config, quartiles, roundToInc).value;
      && (forall k :: 0 <= k < |r.controlProbabilities| ==>
            var p := r.controlProbabilities[k].probability; p.Finite? && 0.0 <= p.r <= 1.0)
      && (forall k, k' :: 0 <= k < k' < |r.controlProbabilities| ==>
            r.controlProbabilities[k'].probability.r <= r.controlProbabilities[k].probability.r)
      && (r.bullishEngulfingEventCount > 0 ==>
            (forall k :: 0 <= k < |r.probabilities| ==>
               var p := r.probabilities[k].probability; p.Finite? && 0.0 <= p.r <= 1.0)
            && (forall k, k' :: 0 <= k < k' < |r.probabilities| ==>
                  r.probabilities[k'].probability.r <= r.probabilities[k].probability.r))
      && (r.bullishEngulfingEventCount == 0 ==>
            forall k :: 0 <= k < |r.probabilities| ==> r.probabilities[k].probability.NaN?)
  {
    var events, grid := ReportParts(candles, config, quartiles, roundToInc);
    CurvesOnAscendingGrid(events, grid);
  }

  /**
    A worked scenario: five candles, a lookbehind of two and a lookahead of
    one. Candle 3 out-grows and out-trades candles 1 and 2, and candle 4's
    high is 5% above candle 3's. Three events are extracted (candles 2, 3
    and 4); only candle 3's is engulfing, with a maximum change of 5%.
  */
  lemma FiveCandleScenario()
    ensures var candles := [
        Candle(0, 10.0, 11.0, 9.5, 10.5, 100.0),
        Candle(60, 10.0, 10.5, 9.8, 10.2, 120.0),
        Candle(120, 10.2, 10.4, 9.9, 10.0, 110.0),
        Candle(180, 10.0, 11.0, 9.9, 11.0, 200.0),
        Candle(240, 11.0, 11.55, 10.9, 11.2, 90.0)];
      var events := Events(candles, 2, 1);
      && |events| == 3
      && !events[0].isBullishEngulfing && events[1].isBullishEngulfing && !events[2].isBullishEngulfing
      && events[1].maxPctPriceChange == Finite(0.05)
      && events[2].maxPctPriceChange == NegInf
  {
    var candles := [
        Candle(0, 10.0, 11.0, 9.5, 10.5, 100.0),
        Candle(60, 10.0, 10.5, 9.8, 10.2, 120.0),
        Candle(120, 10.2, 10.4, 9.9, 10.0, 110.0),
        Candle(180, 10.0, 11.0, 9.9, 11.0, 200.0),
        Candle(240, 11.0, 11.55, 10.9, 11.2, 90.0)];
    BullishEngulfingIff(candles, 2, 2, 1);
    BullishEngulfingIff(candles, 3, 2, 1);
    BullishEngulfingIff(candles, 4, 2, 1);
    assert candles[4..5] == [candles[4]];
    EmptyLookaheadSentinels(candles, 4, 2, 1);
  }
}
