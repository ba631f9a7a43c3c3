/**
  The probability builder: the threshold grid, the two count tables filled in
  place over the filtered events, and the two probability curves read off
  them.
*/
module Probability {
  import opened Numbers
  import opened Extraction

  /** One point of a probability curve. */
  datatype ProbabilityPoint = ProbabilityPoint(pctPriceChange: real, probability: Num)

  /* ---------------------------------------------------------------------- */
  /* What is counted                                                        */
  /* ---------------------------------------------------------------------- */

  /** Does the event's maximum price change exceed threshold `t` (strictly)? */
  predicate Exceeds(e: Event, t: real) {
    Less(Finite(t), e.maxPctPriceChange)
  }

  /** The control count at threshold `t`: events whose maximum change exceeds `t`. */
  function ControlCount(events: seq<Event>, t: real): nat {
    if events == [] then 0
    else ControlCount(events[..|events| - 1], t) + (if Exceeds(events[|events| - 1], t) then 1 else 0)
  }

  /** The engulfing count at threshold `t`: engulfing events whose maximum change exceeds `t`. */
  function EngulfingCount(events: seq<Event>, t: real): nat {
    if events == [] then 0
    else
      var e := events[|events| - 1];
      EngulfingCount(events[..|events| - 1], t) + (if Exceeds(e, t) && e.isBullishEngulfing then 1 else 0)
  }

  /** The number of engulfing events. */
  function CountEngulfing(events: seq<Event>): nat {
    if events == [] then 0
    else CountEngulfing(events[..|events| - 1]) + (if events[|events| - 1].isBullishEngulfing then 1 else 0)
  }

  /** At every threshold: engulfing count <= control count <= number of events, and engulfing count <= engulfing events. */
  lemma {:induction false} CountsOrdered(events: seq<Event>, t: real)
    ensures EngulfingCount(events, t) <= ControlCount(events, t) <= |events|
    ensures EngulfingCount(events, t) <= CountEngulfing(events)
  {
    if events != [] {
      CountsOrdered(events[..|events| - 1], t);
    }
  }

  /** Both counts are non-increasing in the threshold. */
  lemma {:induction false} CountsNonIncreasing(events: seq<Event>, t1: real, t2: real)
    requires t1 <= t2
    ensures ControlCount(events, t2) <= ControlCount(events, t1)
    ensures EngulfingCount(events, t2) <= EngulfingCount(events, t1)
  {
    if events != [] {
      CountsNonIncreasing(events[..|events| - 1], t1, t2);
    }
  }

  /** Below every finite maximum change, each event is counted: the control count is the number of events. */
  lemma {:induction false} CountsBelowAllChanges(events: seq<Event>, t: real)
    requires forall e :: e in events ==> e.maxPctPriceChange.Finite? && t < e.maxPctPriceChange.r
    ensures ControlCount(events, t) == |events|
    ensures EngulfingCount(events, t) == CountEngulfing(events)
  {
    if events != [] {
      assert forall e :: e in events[..|events| - 1] ==> e in events;
      CountsBelowAllChanges(events[..|events| - 1], t);
    }
  }

  /* ---------------------------------------------------------------------- */
  /* The grid                                                               */
  /* ---------------------------------------------------------------------- */

  /** `Math.min` over the minimum changes, from Infinity. */
  function LowestMinChange(events: seq<Event>): (r: Num)
    ensures events == [] ==> r == PosInf
  {
    if events == [] then PosInf
    else Min(LowestMinChange(events[..|events| - 1]), events[|events| - 1].minPctPriceChange)
  }

  /** `Math.max` over the maximum changes, from -Infinity. */
  function HighestMaxChange(events: seq<Event>): (r: Num)
    ensures events == [] ==> r == NegInf
    ensures (forall e :: e in events ==> e.maxPctPriceChange.Finite?) && events != [] ==>
      && r.Finite?
      && (forall e :: e in events ==> e.maxPctPriceChange.r <= r.r)
      && (exists e :: e in events && e.maxPctPriceChange == r)
  {
    if events == [] then NegInf
    else
      var front := events[..|events| - 1];
      assert forall e :: e in front ==> e in events;
      assert forall e :: e in events ==> e in front || e == events[|events| - 1];
      Max(HighestMaxChange(front), events[|events| - 1].maxPctPriceChange)
  }

  /**
    The first threshold: the rounded lowest minimum change, but never below
    zero. `roundToInc` is the external rounding helper.
  */
  function GridStart(events: seq<Event>, roundToInc: (Num, real) -> Num, groupSize: real): (start: Num)
    ensures start != NegInf && (start.Finite? ==> start.r >= 0.0)
  {
    Max(Finite(0.0), roundToInc(LowestMinChange(events), groupSize))
  }

  /** How many steps of `groupSize` from `start` stay at or below `end`. */
  function GridCount(start: real, end: real, groupSize: real): nat
    requires groupSize > 0.0
  {
    if start <= end then
      var q := (end - start) / groupSize;
      assert q >= 0.0;
      q.Floor + 1
    else 0
  }

  /** The k-th step from `start` is within `end` exactly when k is below the grid count. */
  lemma GridCountExact(start: real, end: real, groupSize: real, k: nat)
    requires groupSize > 0.0
    ensures start + (k as real) * groupSize <= end <==> k < GridCount(start, end, groupSize)
  {
    var kr := k as real;
    assert kr * groupSize >= 0.0;
    if start <= end {
      var q := (end - start) / groupSize;
      assert q * groupSize == end - start;
      assert kr <= q <==> k <= q.Floor;
      if kr <= q {
        assert (q - kr) * groupSize >= 0.0;
      } else {
        assert (kr - q) * groupSize > 0.0;
        assert (kr - q) * groupSize == kr * groupSize - q * groupSize;
        assert start + kr * groupSize > end;
        assert k >= GridCount(start, end, groupSize);
      }
    }
  }

  /**
    The thresholds the loops step through: `start`, `start + groupSize`, ...
    while at most `end`. A start or end that is not finite gives no
    threshold (an infinite end is excluded: the loops would not stop).
  */
  function Grid(start: Num, end: Num, groupSize: real): (grid: seq<real>)
    requires groupSize > 0.0
    requires start != NegInf && end != PosInf
    ensures grid != [] ==> start.Finite? && end.Finite? && grid[0] == start.r
    ensures forall k :: 0 <= k < |grid| ==> grid[k] <= end.r
    ensures forall k :: 0 <= k < |grid| - 1 ==> grid[k + 1] == grid[k] + groupSize
    ensures start.Finite? && end.Finite? ==> end.r < start.r + (|grid| as real) * groupSize
  {
    if start.Finite? && end.Finite? then
      var n := GridCount(start.r, end.r, groupSize);
      var grid := seq(n, k requires 0 <= k < n => start.r + (k as real) * groupSize);
      GridSteps(start.r, end.r, groupSize, grid);
      grid
    else []
  }

  /** The facts `Grid` promises about its steps from a finite start. */
  lemma GridSteps(start: real, end: real, groupSize: real, grid: seq<real>)
    requires groupSize > 0.0
    requires |grid| == GridCount(start, end, groupSize)
    requires forall k :: 0 <= k < |grid| ==> grid[k] == start + (k as real) * groupSize
    ensures forall k :: 0 <= k < |grid| ==> grid[k] <= end
    ensures forall k :: 0 <= k < |grid| - 1 ==> grid[k + 1] == grid[k] + groupSize
    ensures end < start + (|grid| as real) * groupSize
  {
    forall k | 0 <= k < |grid| ensures grid[k] <= end {
      GridCountExact(start, end, groupSize, k);
    }
    forall k | 0 <= k < |grid| - 1 ensures grid[k + 1] == grid[k] + groupSize {
      assert ((k + 1) as real) * groupSize == (k as real) * groupSize + groupSize;
    }
    GridCountExact(start, end, groupSize, |grid|);
  }

  /** Grid thresholds ascend strictly. */
  lemma GridAscending(start: Num, end: Num, groupSize: real)
    requires groupSize > 0.0
    requires start != NegInf && end != PosInf
    ensures var grid := Grid(start, end, groupSize);
      forall k, k' :: 0 <= k < k' < |grid| ==> grid[k] < grid[k']
  {
    var grid := Grid(start, end, groupSize);
    forall k, k' | 0 <= k < k' < |grid|
      ensures grid[k] < grid[k']
    {
      var j := k;
      while j < k'
        invariant k <= j <= k'
        invariant grid[k] <= grid[j]
        invariant j > k ==> grid[k] < grid[j]
      {
        j := j + 1;
      }
    }
  }

  /* ---------------------------------------------------------------------- */
  /* The count tables                                                       */
  /* ---------------------------------------------------------------------- */

  /** `counts[t] || 0` */
  function Lookup(counts: map<real, nat>, t: real): nat {
    if t in counts then counts[t] else 0
  }

  /** A table only holds grid thresholds, each with a positive count. */
  predicate KeysOnGrid(counts: map<real, nat>, grid: seq<real>) {
    forall t :: t in counts ==> t in grid && counts[t] > 0
  }

  /**
    The counting loops: for each event, and each threshold it exceeds, add
    one to the control table, and to the engulfing table as well when the
    event is engulfing. Afterwards each table holds, at each grid threshold,
    the count of that threshold.
  */
  method CountByThreshold(events: seq<Event>, grid: seq<real>)
    returns (probabilityCounts: map<real, nat>, controlProbabilityCounts: map<real, nat>)
    requires forall k, k' :: 0 <= k < k' < |grid| ==> grid[k] < grid[k']
    ensures KeysOnGrid(probabilityCounts, grid) && KeysOnGrid(controlProbabilityCounts, grid)
    ensures forall k :: 0 <= k < |grid| ==> Lookup(controlProbabilityCounts, grid[k]) == ControlCount(events, grid[k])
    ensures forall k :: 0 <= k < |grid| ==> Lookup(probabilityCounts, grid[k]) == EngulfingCount(events, grid[k])
  {
    probabilityCounts, controlProbabilityCounts := map[], map[];
    var i := 0;
    while i < |events|
      invariant 0 <= i <= |events|
      invariant KeysOnGrid(probabilityCounts, grid) && KeysOnGrid(controlProbabilityCounts, grid)
      invariant forall k :: 0 <= k < |grid| ==> Lookup(controlProbabilityCounts, grid[k]) == ControlCount(events[..i], grid[k])
      invariant forall k :: 0 <= k < |grid| ==> Lookup(probabilityCounts, grid[k]) == EngulfingCount(events[..i], grid[k])
    {
      probabilityCounts, controlProbabilityCounts := CountEvent(events[i], grid, probabilityCounts, controlProbabilityCounts);
      forall k | 0 <= k < |grid|
        ensures Lookup(controlProbabilityCounts, grid[k]) == ControlCount(events[..i + 1], grid[k])
        ensures Lookup(probabilityCounts, grid[k]) == EngulfingCount(events[..i + 1], grid[k])
      {
        CountsStep(events, i, grid[k]);
      }
      i := i + 1;
    }
    assert events[..|events|] == events;
  }

  /**
    The inner counting loop for one event: every grid threshold the event
    exceeds gets one more in the control table, and one more in the engulfing
    table when the event is engulfing; nothing else changes.
  */
  method CountEvent(event: Event, grid: seq<real>, probabilityCounts: map<real, nat>, controlProbabilityCounts: map<real, nat>)
    returns (probabilityCounts': map<real, nat>, controlProbabilityCounts': map<real, nat>)
    requires forall k, k' :: 0 <= k < k' < |grid| ==> grid[k] < grid[k']
    requires KeysOnGrid(probabilityCounts, grid) && KeysOnGrid(controlProbabilityCounts, grid)
    ensures KeysOnGrid(probabilityCounts', grid) && KeysOnGrid(controlProbabilityCounts', grid)
    ensures forall k :: 0 <= k < |grid| ==>
      Lookup(controlProbabilityCounts', grid[k])
        == Lookup(controlProbabilityCounts, grid[k]) + (if Exceeds(event, grid[k]) then 1 else 0)
    ensures forall k :: 0 <= k < |grid| ==>
      Lookup(probabilityCounts', grid[k])
        == Lookup(probabilityCounts, grid[k]) + (if Exceeds(event, grid[k]) && event.isBullishEngulfing then 1 else 0)
  {
    probabilityCounts', controlProbabilityCounts' := probabilityCounts, controlProbabilityCounts;
    var k := 0;
    while k < |grid|
      invariant 0 <= k <= |grid|
      invariant KeysOnGrid(probabilityCounts', grid) && KeysOnGrid(controlProbabilityCounts', grid)
      invariant forall k' :: 0 <= k' < |grid| ==>
        Lookup(controlProbabilityCounts', grid[k'])
          == Lookup(controlProbabilityCounts, grid[k']) + (if k' < k && Exceeds(event, grid[k']) then 1 else 0)
      invariant forall k' :: 0 <= k' < |grid| ==>
        Lookup(probabilityCounts', grid[k'])
          == Lookup(probabilityCounts, grid[k'])
             + (if k' < k && Exceeds(event, grid[k']) && event.isBullishEngulfing then 1 else 0)
    {
      var j := grid[k];
      if Less(Finite(j), event.maxPctPriceChange) {
        controlProbabilityCounts' := controlProbabilityCounts'[j := Lookup(controlProbabilityCounts', j) + 1];
        if event.isBullishEngulfing {
          probabilityCounts' := probabilityCounts'[j := Lookup(probabilityCounts', j) + 1];
        }
      }
      k := k + 1;
    }
  }

  /** Counting one more event adds one to each count it falls under. */
  lemma CountsStep(events: seq<Event>, i: int, t: real)
    requires 0 <= i < |events|
    ensures ControlCount(events[..i + 1], t) == ControlCount(events[..i], t) + (if Exceeds(events[i], t) then 1 else 0)
    ensures EngulfingCount(events[..i + 1], t)
      == EngulfingCount(events[..i], t) + (if Exceeds(events[i], t) && events[i].isBullishEngulfing then 1 else 0)
  {
    assert events[..i + 1][..i] == events[..i];
  }

  /* ---------------------------------------------------------------------- */
  /* The curves                                                             */
  /* ---------------------------------------------------------------------- */

  /** `count / total` as the analysis divides: 0/0 is NaN. */
  function Ratio(count: nat, total: nat): (r: Num)
    ensures total > 0 ==> r.Finite? && r.r >= 0.0
    ensures total > 0 && count <= total ==> r.r <= 1.0
    ensures total == 0 && count == 0 ==> r.NaN?
  {
    Div(Finite(count as real), Finite(total as real))
  }

  /** Ratios over one positive total grow with the count. */
  lemma RatioMonotonic(c1: nat, c2: nat, total: nat)
    requires c1 <= c2 && total > 0
    ensures Ratio(c1, total).r <= Ratio(c2, total).r
  {
    DivMonotonic(c1 as real, c2 as real, total as real);
  }

  /**
    The assembly loop: one point per grid threshold on each curve, with the
    table counts divided by the number of engulfing events and by the number
    of events.
  */
  method BuildCurves(grid: seq<real>, probabilityCounts: map<real, nat>, controlProbabilityCounts: map<real, nat>,
                     bullishEngulfingEventCount: nat, eventCount: nat)
    returns (probabilities: seq<ProbabilityPoint>, controlProbabilities: seq<ProbabilityPoint>)
    ensures |probabilities| == |grid| && |controlProbabilities| == |grid|
    ensures forall k :: 0 <= k < |grid| ==>
      probabilities[k] == ProbabilityPoint(grid[k], Ratio(Lookup(probabilityCounts, grid[k]), bullishEngulfingEventCount))
    ensures forall k :: 0 <= k < |grid| ==>
      controlProbabilities[k] == ProbabilityPoint(grid[k], Ratio(Lookup(controlProbabilityCounts, grid[k]), eventCount))
  {
    probabilities, controlProbabilities := [], [];
    var k := 0;
    while k < |grid|
      invariant 0 <= k <= |grid|
      invariant |probabilities| == k && |controlProbabilities| == k
      invariant forall k' :: 0 <= k' < k ==>
        probabilities[k'] == ProbabilityPoint(grid[k'], Ratio(Lookup(probabilityCounts, grid[k']), bullishEngulfingEventCount))
      invariant forall k' :: 0 <= k' < k ==>
        controlProbabilities[k'] == ProbabilityPoint(grid[k'], Ratio(Lookup(controlProbabilityCounts, grid[k']), eventCount))
    {
      var i := grid[k];
      var probability := Ratio(Lookup(probabilityCounts, i), bullishEngulfingEventCount);
      var controlProbability := Ratio(Lookup(controlProbabilityCounts, i), eventCount);
      probabilities := probabilities + [ProbabilityPoint(i, probability)];
      controlProbabilities := controlProbabilities + [ProbabilityPoint(i, controlProbability)];
      k := k + 1;
    }
  }

  /** The engulfing curve over `grid`, stated on the counts. */
  function EngulfingCurve(events: seq<Event>, grid: seq<real>): seq<ProbabilityPoint> {
    seq(|grid|, k requires 0 <= k < |grid| =>
      ProbabilityPoint(grid[k], Ratio(EngulfingCount(events, grid[k]), CountEngulfing(events))))
  }

  /** The control curve over `grid`, stated on the counts. */
  function ControlCurve(events: seq<Event>, grid: seq<real>): seq<ProbabilityPoint> {
    seq(|grid|, k requires 0 <= k < |grid| =>
      ProbabilityPoint(grid[k], Ratio(ControlCount(events, grid[k]), |events|)))
  }

  /**
    Every control probability lies in [0, 1] when there are events; every
    engulfing probability lies in [0, 1] when there are engulfing events and
    is NaN when there are none.
  */
  lemma CurveValues(events: seq<Event>, grid: seq<real>)
    ensures events != [] ==> forall k :: 0 <= k < |grid| ==>
      var p := ControlCurve(events, grid)[k].probability; p.Finite? && 0.0 <= p.r <= 1.0
    ensures CountEngulfing(events) > 0 ==> forall k :: 0 <= k < |grid| ==>
      var p := EngulfingCurve(events, grid)[k].probability; p.Finite? && 0.0 <= p.r <= 1.0
    ensures CountEngulfing(events) == 0 ==> forall k :: 0 <= k < |grid| ==>
      EngulfingCurve(events, grid)[k].probability.NaN?
  {
    forall k | 0 <= k < |grid| {
      CountsOrdered(events, grid[k]);
    }
  }

  /** Along an ascending grid, neither curve ever rises. */
  lemma CurvesNonIncreasing(events: seq<Event>, grid: seq<real>, k: int, k': int)
    requires 0 <= k < k' < |grid| && grid[k] <= grid[k']
    ensures events != [] ==>
      ControlCurve(events, grid)[k'].probability.r <= ControlCurve(events, grid)[k].probability.r
    ensures CountEngulfing(events) > 0 ==>
      EngulfingCurve(events, grid)[k'].probability.r <= EngulfingCurve(events, grid)[k].probability.r
  {
    CountsNonIncreasing(events, grid[k], grid[k']);
    CountsOrdered(events, grid[k]);
    CountsOrdered(events, grid[k']);
    if events != [] {
      RatioMonotonic(ControlCount(events, grid[k']), ControlCount(events, grid[k]), |events|);
    }
    if CountEngulfing(events) > 0 {
      RatioMonotonic(EngulfingCount(events, grid[k']), EngulfingCount(events, grid[k]), CountEngulfing(events));
    }
  }
  /**
    Over a strictly ascending grid (empty when there are no events), every
    control probability lies in [0, 1] and the control curve never rises;
    the engulfing curve does the same when there are engulfing events and is
    NaN throughout when there are none.
  */
  lemma CurvesOnAscendingGrid(events: seq<Event>, grid: seq<real>)
    requires forall k, k' :: 0 <= k < k' < |grid| ==> grid[k] < grid[k']
    requires events == [] ==> grid == []
    ensures forall k :: 0 <= k < |grid| ==>
      var p := ControlCurve(events, grid)[k].probability; p.Finite? && 0.0 <= p.r <= 1.0
    ensures forall k, k' :: 0 <= k < k' < |grid| ==>
      ControlCurve(events, grid)[k'].probability.r <= ControlCurve(events, grid)[k].probability.r
    ensures CountEngulfing(events) > 0 ==>
      && (forall k :: 0 <= k < |grid| ==>
            var p := EngulfingCurve(events, grid)[k].probability; p.Finite? && 0.0 <= p.r <= 1.0)
      && (forall k, k' :: 0 <= k < k' < |grid| ==>
            EngulfingCurve(events, grid)[k'].probability.r <= EngulfingCurve(events, grid)[k].probability.r)
    ensures CountEngulfing(events) == 0 ==> forall k :: 0 <= k < |grid| ==>
      EngulfingCurve(events, grid)[k].probability.NaN?
  {
    CurveValues(events, grid);
    forall k, k' | 0 <= k < k' < |grid|
      ensures events != [] ==>
        ControlCurve(events, grid)[k'].probability.r <= ControlCurve(events, grid)[k].probability.r
      ensures CountEngulfing(events) > 0 ==>
        EngulfingCurve(events, grid)[k'].probability.r <= EngulfingCurve(events, grid)[k].probability.r
    {
      CurvesNonIncreasing(events, grid, k, k');
    }
  }

}
