# Bullish engulfing analysis — a Dafny model

This project models the analysis function of a technical-analysis library.
The function takes a time-ordered series of candles (open, high, low,
close, volume) and a configuration. It runs four stages:

1. **Extraction.** It emits one event per candle that has a full lookbehind
   window. Each event records whether the candle is "bullish engulfing":
   its body is positive, and both its body and its volume are larger than
   every candle in the lookbehind window. Each event also records the percent
   volume change and the highest and lowest price of the lookahead window,
   as percent changes.
2. **Outlier filter.** It drops events outside interquartile-range fences on
   three metrics, keeping the order of the rest.
3. **Threshold counting.** For a grid of thresholds, it counts the events whose
   maximum price change exceeds each threshold (control). It counts the
   engulfing ones among them separately.
4. **Assembly.** It turns the two count tables into two probability curves and
   returns them with the kept events and the number of engulfing events.

How the model is built:

- `numbers.dfy` (`Numbers`): JavaScript numbers as exact reals plus the two
  infinities and NaN. Division, subtraction, `Math.max`/`Math.min` and `<`
  follow JavaScript's rules for these values. The model therefore keeps the
  `-Infinity`/`Infinity` starting values of the scans, the `x / 0` of a zero
  volume, and the `0 / 0` of a curve with no engulfing events.
- `extraction.dfy` (`Extraction`): the candle and event records. The two
  window scans are loops proved against recursive specification functions.
  The extraction loop is proved to emit exactly one event per candle index
  from `lookbehindCandles` on. Lemmas state what the scans compute.
- `outlier_filter.dfy` (`OutlierFilter`): the fences and the filter. The
  quartile estimator is an external library, so it is a parameter here.
- `probability.dfy` (`Probability`): the threshold grid `start + k*groupSize`.
  The two count tables are `map`s updated in place by nested loops. The curve
  assembly loop follows.
- `analysis.dfy` (`Analysis`): the configuration checks and the method
  `Analyze`. `Analyze` is proved equal to the function `Analysis`, and lemmas
  state what a report promises.

The external rounding helper `roundToInc` is also a parameter.

The `pctVolumeChange` fences reproduce the code exactly. They are centred on
the quartiles of `maxPctPriceChange` and widened by the volume column's own
IQR. `OutlierFilter.VolumeFencesIgnoreVolumeCentre` states what this implies.

Window sizes follow the code, not its error messages:

- The messages ask for positive integer window sizes. The code only rejects a
  window size of zero. A negative lookahead is accepted and gives empty
  lookahead windows. A negative lookbehind passes the checks, but the
  extraction loop then reads a candle that does not exist. In JavaScript that
  throws a `TypeError`. The model reports this as `UndefinedCandle`.

## Model

| member | source | states |
|---|---|---|
| `Extraction.ScanLookbehind` | lib/analyze_bullish_engulfing.js:38-43 | the two running maxima, from -Infinity, equal the largest body height and the largest volume of exactly the `lookbehindCandles` candles before `i` |
| `Extraction.ScanLookahead` | lib/analyze_bullish_engulfing.js:56-60 | the running maximum high and minimum low, from -Infinity and Infinity, are those of exactly the candles `i+1 .. min(i+lookahead, n-1)`; the window is empty for the last candle or a non-positive lookahead |
| `Extraction.LookaheadEnd` | lib/analyze_bullish_engulfing.js:57 | the lookahead window never leaves the series: it ends at `i+1+lookahead` clipped to `n`, and is empty when the window size is not positive |
| `Extraction.ExtractEvents` | lib/analyze_bullish_engulfing.js:29-73 | exactly one event per candle index `lookbehind <= i < n`, in input order (`max(0, n - lookbehind)` events), each the event of that candle's full windows |
| `Extraction.BelowMaxBodyHeight` | lib/analyze_bullish_engulfing.js:41 | the running body-height maximum is below `h` iff every body in the window is below `h` |
| `Extraction.BelowMaxVolume` | lib/analyze_bullish_engulfing.js:42 | the running volume maximum is below `v` iff every volume in the window is below `v` |
| `Extraction.MaxVolumeIsMaximum` | lib/analyze_bullish_engulfing.js:42 | on a non-empty window the running volume maximum is the volume of one of its candles and no candle's volume exceeds it |
| `Extraction.MaxHighIsMaximum` | lib/analyze_bullish_engulfing.js:58 | on a non-empty window the running maximum is a high of the window and bounds every high |
| `Extraction.MinLowIsMinimum` | lib/analyze_bullish_engulfing.js:59 | on a non-empty window the running minimum is a low of the window and bounds every low from below |
| `Extraction.BullishEngulfingIff` | lib/analyze_bullish_engulfing.js:46-50 | a candle is bullish engulfing iff `close - open > 0`, `close - open` exceeds `abs(close[k] - open[k])` for every `k` in `i-lookbehind .. i-1`, and its volume exceeds every `volume[k]` there |
| `Extraction.PctVolumeChangeIsRatio` | lib/analyze_bullish_engulfing.js:53 | when some lookbehind candle traded (positive volume), the volume change is finite and equals the candle's volume over the largest window volume, minus one |
| `Extraction.PctPriceChangeIsExtreme` | lib/analyze_bullish_engulfing.js:56-62 | with a positive high and a non-empty lookahead window, both changes are finite; the maximum change bounds and is reached by some `high[k]/high[i] - 1`, and the minimum change likewise for `low[k]/high[i] - 1` |
| `Extraction.EmptyLookaheadSentinels` | lib/analyze_bullish_engulfing.js:56-62 | for the last candle (or a non-positive lookahead) the changes are infinities: with a non-negative high the maximum change is -Infinity and the minimum change Infinity, with a negative high the reverse |
| `OutlierFilter.FencesFor` | lib/analyze_bullish_engulfing.js:75-82 | fences exist iff the quartile estimator succeeds on all three metric columns |
| `OutlierFilter.Filter` | lib/analyze_bullish_engulfing.js:84-93 | the kept events are no more than the input, and each is an input event that lies strictly inside all six fences |
| `OutlierFilter.FilterSelectsInOrder` | lib/analyze_bullish_engulfing.js:84-93 | the kept events are the input events at a strictly increasing list of positions, and a position is on the list iff its event passes all six fence comparisons |
| `OutlierFilter.FilterAppend` | lib/analyze_bullish_engulfing.js:84 | filtering a concatenation is concatenating the filtered parts (the filter never reorders) |
| `OutlierFilter.FilterMembership` | lib/analyze_bullish_engulfing.js:84-93 | an event is kept iff it is an input event inside every fence |
| `OutlierFilter.KeptEventsAreFinite` | lib/analyze_bullish_engulfing.js:85-92 | no infinity or NaN survives the strict fence comparisons: every kept metric is finite |
| `OutlierFilter.LastCandleIsDropped` | lib/analyze_bullish_engulfing.js:56-93 | the last candle's event (an infinite maximum change) is never kept, whatever the quartiles and whatever its high |
| `OutlierFilter.VolumeFencesIgnoreVolumeCentre` | lib/analyze_bullish_engulfing.js:75-87 | the volume fences use the maximum-change quartiles: shifting both volume quartiles by the same amount changes no fence |
| `Probability.CountsOrdered` | lib/analyze_bullish_engulfing.js:105-115 | at every threshold, engulfing count <= control count <= number of events, and engulfing count <= number of engulfing events |
| `Probability.CountsNonIncreasing` | lib/analyze_bullish_engulfing.js:108 | both counts are non-increasing as the threshold grows (the counted condition is `maxPctPriceChange > t`) |
| `Probability.CountsBelowAllChanges` | lib/analyze_bullish_engulfing.js:108-111 | below every kept maximum change, the control count is the number of events and the engulfing count the number of engulfing events |
| `Probability.HighestMaxChange` | lib/analyze_bullish_engulfing.js:99 | the top of the grid is -Infinity without events; over finite changes it is finite, no event's maximum change exceeds it, and some event's maximum change equals it |
| `Probability.GridStart` | lib/analyze_bullish_engulfing.js:98 | the first threshold is never below zero and never -Infinity |
| `Probability.GridCountExact` | lib/analyze_bullish_engulfing.js:107 | the k-th step `start + k*groupSize` is within `end` iff `k` is below the number of grid points |
| `Probability.Grid` | lib/analyze_bullish_engulfing.js:107 | the thresholds start at `start`, step by `groupSize`, all lie at or below `end`, and the next step would pass `end`; no thresholds unless both bounds are finite |
| `Probability.GridAscending` | lib/analyze_bullish_engulfing.js:107 | grid thresholds are strictly increasing, so they are distinct table keys |
| `Probability.CountByThreshold` | lib/analyze_bullish_engulfing.js:102-115 | after the nested loops, each table holds at every grid threshold that threshold's control or engulfing count, and holds no other key and no zero entry |
| `Probability.CountEvent` | lib/analyze_bullish_engulfing.js:106-113 | the inner loop adds one, for one event, to the control entry of exactly the thresholds the event exceeds, and to the engulfing entry too when the event is engulfing; every other entry is unchanged |
| `Probability.CountsStep` | lib/analyze_bullish_engulfing.js:104-113 | counting one more event raises the control count at a threshold by one iff it exceeds the threshold, and the engulfing count iff it also is engulfing |
| `Probability.Ratio` | lib/analyze_bullish_engulfing.js:121-122 | a count over a positive total is finite and non-negative, and at most 1 when the count is at most the total; 0/0 is NaN |
| `Probability.RatioMonotonic` | lib/analyze_bullish_engulfing.js:121-122 | over one positive total, a smaller count gives a smaller or equal probability |
| `Probability.BuildCurves` | lib/analyze_bullish_engulfing.js:118-125 | one point per grid threshold on each curve, in grid order, with equal thresholds, the table count over the engulfing total and over the event count |
| `Probability.CurveValues` | lib/analyze_bullish_engulfing.js:119-122 | control probabilities are in [0,1] when there are events; engulfing probabilities are in [0,1] when there are engulfing events, NaN when there are none |
| `Probability.CurvesNonIncreasing` | lib/analyze_bullish_engulfing.js:107-122 | along an ascending grid neither curve rises |
| `Probability.CurvesOnAscendingGrid` | lib/analyze_bullish_engulfing.js:107-124 | over a strictly ascending grid, control probabilities are in [0,1] and never rise; engulfing probabilities do the same when there are engulfing events and are NaN when there are none |
| `Analysis.Analyze` | lib/analyze_bullish_engulfing.js:22-135 | the method computes `Analysis`; the three configuration errors come first and in order; a report echoes both window sizes |
| `Analysis.AnalysisErrors` | lib/analyze_bullish_engulfing.js:23-27 | a zero lookbehind, then a zero lookahead, then a group size `<= 0` throw, each iff its condition; negative windows pass the checks, and a negative lookbehind fails later on a missing candle |
| `Analysis.ReportEvents` | lib/analyze_bullish_engulfing.js:84-129 | reported events are an order-preserving selection of the extracted events, kept iff inside the fences computed from the estimator; every kept metric is finite; `bullishEngulfingEventCount` counts the flagged kept events |
| `Analysis.ReportThresholds` | lib/analyze_bullish_engulfing.js:118-134 | both curves have the same length and the same threshold at each position; they start at >= 0, step by `groupSize`, and stay at or below the largest kept change, which bounds every kept event's change |
| `Analysis.ReportProbabilities` | lib/analyze_bullish_engulfing.js:119-134 | control probabilities are in [0,1] and non-increasing along the grid; engulfing probabilities are too when there are engulfing events, and NaN otherwise |
| `Analysis.FiveCandleScenario` | lib/analyze_bullish_engulfing.js:31-73 | on five candles with lookbehind 2 and lookahead 1, three events are produced; only candle 3's is engulfing, with maximum change exactly 0.05, and the last candle's maximum change is -Infinity |

## Left out

- Presentation formatting (lib/analyze_bullish_engulfing.js:66-67): an event keeps the raw closing price and unix-seconds time. The currency and UTC date strings are not produced.
- The quartile estimator (mathjs `quantileSeq`, lines 75, 78, 81) is a function parameter. The model does not fix its interpolation method. It does not decide when the estimator throws, for instance on an empty column. The estimator reports that by returning `None`.
- The rounding helper `roundToInc` (line 98) is a function parameter. The file that defines it is not part of this model.
- Floating-point rounding: numbers are exact reals, and zero is always positive zero.
- The grid is `start + k*groupSize` rather than repeated floating-point addition. Table keys are reals, not their string forms.
- Input candles hold finite values. NaN or infinite prices and volumes are not modelled.
- Configuration values are integers for the two window sizes and a real for the group size. A missing (`undefined`), NaN or fractional option is not modelled.
- The implicit global loop counters (lines 105, 107, 120) have no effect on the result. They are ordinary local variables here.
- The input is assumed sorted by time, but the code never checks or uses that order. The model does not state it either.
