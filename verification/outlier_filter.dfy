/**
  The interquartile-range outlier filter over the extracted events. The
  quartiles come from an external estimator, which is a parameter here; the
  filter keeps an event when each of its three metrics lies strictly inside
  its two fences.
*/
module OutlierFilter {
  import opened Numbers
  import opened Extraction

  /** The 25th and 75th percentile of one metric column. */
  datatype Quartiles = Quartiles(q25: Num, q75: Num)

  /** A lower and an upper fence for each of the three metrics. */
  datatype Fences = Fences(
    volumeLow: Num, volumeHigh: Num,
    maxChangeLow: Num, maxChangeHigh: Num,
    minChangeLow: Num, minChangeHigh: Num)

  /** 1.5 times the interquartile range: how far a fence lies outside its quartile. */
  function ScaledIqr(q: Quartiles): Num {
    Scale(Sub(q.q75, q.q25), 1.5)
  }

  /**
    The six fences. The volume fences are centred on the quartiles of the
    maximum price change and only widened by the volume's own IQR, as the
    analysis does.
  */
  function MakeFences(pctVolumeChange: Quartiles, maxPctPriceChange: Quartiles, minPctPriceChange: Quartiles): Fences {
    Fences(
      Sub(maxPctPriceChange.q25, ScaledIqr(pctVolumeChange)),
      Add(maxPctPriceChange.q75, ScaledIqr(pctVolumeChange)),
      Sub(maxPctPriceChange.q25, ScaledIqr(maxPctPriceChange)),
      Add(maxPctPriceChange.q75, ScaledIqr(maxPctPriceChange)),
      Sub(minPctPriceChange.q25, ScaledIqr(minPctPriceChange)),
      Add(minPctPriceChange.q75, ScaledIqr(minPctPriceChange)))
  }

  function PctVolumeChanges(events: seq<Event>): seq<Num> {
    seq(|events|, k requires 0 <= k < |events| => events[k].pctVolumeChange)
  }

  function MaxPctPriceChanges(events: seq<Event>): seq<Num> {
    seq(|events|, k requires 0 <= k < |events| => events[k].maxPctPriceChange)
  }

  function MinPctPriceChanges(events: seq<Event>): seq<Num> {
    seq(|events|, k requires 0 <= k < |events| => events[k].minPctPriceChange)
  }

  /**
    The fences of `events`, given the quartile estimator; `None` when the
    estimator fails on one of the three columns.
  */
  function FencesFor(events: seq<Event>, quartiles: seq<Num> -> Option<Quartiles>): (r: Option<Fences>)
    ensures r.Some? <==>
      quartiles(PctVolumeChanges(events)).Some? && quartiles(MaxPctPriceChanges(events)).Some?
      && quartiles(MinPctPriceChanges(events)).Some?
  {
    match (quartiles(PctVolumeChanges(events)), quartiles(MaxPctPriceChanges(events)), quartiles(MinPctPriceChanges(events)))
    case (Some(v), Some(mx), Some(mn)) => Some(MakeFences(v, mx, mn))
    case _ => None
  }

  /** All six strict fence comparisons. */
  predicate Keep(e: Event, f: Fences) {
    && Less(f.volumeLow, e.pctVolumeChange)
    && Less(e.pctVolumeChange, f.volumeHigh)
    && Less(f.maxChangeLow, e.maxPctPriceChange)
    && Less(e.maxPctPriceChange, f.maxChangeHigh)
    && Less(f.minChangeLow, e.minPctPriceChange)
    && Less(e.minPctPriceChange, f.minChangeHigh)
  }

  /** The events that pass every fence, in their original order. */
  function Filter(events: seq<Event>, f: Fences): (kept: seq<Event>)
    ensures |kept| <= |events|
    ensures forall e :: e in kept ==> e in events && Keep(e, f)
  {
    if events == [] then []
    else (if Keep(events[0], f) then [events[0]] else []) + Filter(events[1..], f)
  }

  /** Adds one to every position. */
  function Shift(positions: seq<nat>): (shifted: seq<nat>)
    ensures |shifted| == |positions|
    ensures forall k :: 0 <= k < |positions| ==> shifted[k] == positions[k] + 1
  {
    seq(|positions|, k requires 0 <= k < |positions| => positions[k] + 1)
  }

  /** The positions of `events` whose event passes the fences, in increasing order. */
  function KeptPositions(events: seq<Event>, f: Fences): (positions: seq<nat>)
    ensures forall k :: 0 <= k < |positions| ==> positions[k] < |events|
  {
    if events == [] then []
    else (if Keep(events[0], f) then [0] else []) + Shift(KeptPositions(events[1..], f))
  }

  /**
    The filter is an order-preserving selection: `idx` lists, in increasing
    order, exactly the positions of `events` whose event passes the fences,
    and the kept events are the events at those positions.
  */
  lemma FilterSelectsInOrder(events: seq<Event>, f: Fences) returns (idx: seq<nat>)
    ensures |idx| == |Filter(events, f)|
    ensures forall k :: 0 <= k < |idx| ==> idx[k] < |events| && Filter(events, f)[k] == events[idx[k]]
    ensures forall k, k' :: 0 <= k < k' < |idx| ==> idx[k] < idx[k']
    ensures forall j :: 0 <= j < |events| ==> (j in idx <==> Keep(events[j], f))
  {
    idx := KeptPositions(events, f);
    KeptPositionsSelect(events, f);
    KeptPositionsIncrease(events, f);
    forall j | 0 <= j < |events| ensures j in idx <==> Keep(events[j], f) {
      KeptPositionsMembership(events, f, j);
    }
  }

  lemma {:induction false} KeptPositionsSelect(events: seq<Event>, f: Fences)
    ensures |KeptPositions(events, f)| == |Filter(events, f)|
    ensures forall k :: 0 <= k < |KeptPositions(events, f)| ==>
      Filter(events, f)[k] == events[KeptPositions(events, f)[k]]
  {
    if events != [] {
      var rest := events[1..];
      KeptPositionsSelect(rest, f);
      var p, kept := KeptPositions(rest, f), Filter(rest, f);
      var head := if Keep(events[0], f) then [0] else [];
      assert KeptPositions(events, f) == head + Shift(p);
      assert Filter(events, f) == (if Keep(events[0], f) then [events[0]] else []) + kept;
      forall k | |head| <= k < |KeptPositions(events, f)|
        ensures Filter(events, f)[k] == events[KeptPositions(events, f)[k]]
      {
        assert kept[k - |head|] == rest[p[k - |head|]];
      }
    }
  }

  lemma {:induction false} KeptPositionsIncrease(events: seq<Event>, f: Fences)
    ensures forall k, k' :: 0 <= k < k' < |KeptPositions(events, f)| ==>
      KeptPositions(events, f)[k] < KeptPositions(events, f)[k']
  {
    if events != [] {
      KeptPositionsIncrease(events[1..], f);
    }
  }

  lemma {:induction false} KeptPositionsMembership(events: seq<Event>, f: Fences, j: int)
    requires 0 <= j < |events|
    ensures j in KeptPositions(events, f) <==> Keep(events[j], f)
  {
    var p := KeptPositions(events[1..], f);
    var head: seq<nat> := if Keep(events[0], f) then [0] else [];
    assert KeptPositions(events, f) == head + Shift(p);
    ShiftMembership(p, j);
    if j > 0 {
      KeptPositionsMembership(events[1..], f, j - 1);
      assert events[1..][j - 1] == events[j];
    }
  }

  /** A position is in the shifted list iff its predecessor is in the original list. */
  lemma ShiftMembership(p: seq<nat>, j: int)
    requires j >= 0
    ensures j in Shift(p) <==> j > 0 && j - 1 in p
  {
    if j > 0 && j - 1 in p {
      var k :| 0 <= k < |p| && p[k] == j - 1;
      assert Shift(p)[k] == j;
    }
  }

  /** Filtering distributes over concatenation, so it never reorders events. */
  lemma {:induction false} FilterAppend(a: seq<Event>, b: seq<Event>, f: Fences)
    ensures Filter(a + b, f) == Filter(a, f) + Filter(b, f)
  {
    if a == [] {
      assert a + b == b;
    } else {
      var head := if Keep(a[0], f) then [a[0]] else [];
      assert (a + b)[0] == a[0];
      assert (a + b)[1..] == a[1..] + b;
      calc {
        Filter(a + b, f);
        head + Filter(a[1..] + b, f);
        { FilterAppend(a[1..], b, f); }
        head + (Filter(a[1..], f) + Filter(b, f));
        (head + Filter(a[1..], f)) + Filter(b, f);
        Filter(a, f) + Filter(b, f);
      }
    }
  }

  /** An event passes the filter exactly when it is one of the events and lies inside every fence. */
  lemma {:induction false} FilterMembership(events: seq<Event>, f: Fences, e: Event)
    ensures e in Filter(events, f) <==> e in events && Keep(e, f)
  {
    if events != [] {
      FilterMembership(events[1..], f, e);
      assert e in events ==> e == events[0] || e in events[1..];
    }
  }

  /** Every metric of a kept event is finite: no infinity or NaN survives the strict fences. */
  lemma KeptEventsAreFinite(events: seq<Event>, f: Fences)
    ensures forall e :: e in Filter(events, f) ==>
      e.pctVolumeChange.Finite? && e.maxPctPriceChange.Finite? && e.minPctPriceChange.Finite?
  {
    forall e | e in Filter(events, f)
      ensures e.pctVolumeChange.Finite? && e.maxPctPriceChange.Finite? && e.minPctPriceChange.Finite?
    {
      BetweenIsFinite(f.volumeLow, e.pctVolumeChange, f.volumeHigh);
      BetweenIsFinite(f.maxChangeLow, e.maxPctPriceChange, f.maxChangeHigh);
      BetweenIsFinite(f.minChangeLow, e.minPctPriceChange, f.minChangeHigh);
    }
  }

  /**
    The event of the last candle (empty lookahead window) never survives the
    filter, whatever the fences: its maximum change is an infinity.
  */
  lemma LastCandleIsDropped(candles: seq<Candle>, lookbehind: int, lookahead: int, f: Fences)
    requires 1 <= lookbehind < |candles|
    ensures EventAt(candles, |candles| - 1, lookbehind, lookahead) !in Filter(Events(candles, lookbehind, lookahead), f)
  {
    var e := EventAt(candles, |candles| - 1, lookbehind, lookahead);
    EmptyLookaheadSentinels(candles, |candles| - 1, lookbehind, lookahead);
    assert !Keep(e, f);
  }

  /**
    The volume fences depend on the volume quartiles only through their
    spread: shifting both volume quartiles by the same amount leaves every
    fence, and so the filter, unchanged.
  */
  lemma VolumeFencesIgnoreVolumeCentre(v25: real, v75: real, shift: real, mx: Quartiles, mn: Quartiles)
    ensures MakeFences(Quartiles(Finite(v25 + shift), Finite(v75 + shift)), mx, mn)
         == MakeFences(Quartiles(Finite(v25), Finite(v75)), mx, mn)
  {
    assert (v75 + shift) - (v25 + shift) == v75 - v25;
  }
}
