/**
  Event extraction: for every candle that has a full lookbehind window, the
  engulfing classification against that window and the price extremes of the
  (clipped) lookahead window after it.
*/
module Extraction {
  import opened Numbers

  datatype Candle = Candle(time: int, open: real, high: real, low: real, close: real, volume: real)

  /**
    One analysed candle. `price` is the closing price and `time` the
    unix-seconds timestamp, both kept unformatted.
  */
  datatype Event = Event(
    price: real,
    time: int,
    pctVolumeChange: Num,
    maxPctPriceChange: Num,
    minPctPriceChange: Num,
    isBullishEngulfing: bool)

  function Abs(x: real): real {
    if x < 0.0 then -x else x
  }

  /** Height of a candle's body, `|close - open|`. */
  function BodyHeight(c: Candle): real {
    Abs(c.close - c.open)
  }

  /*
    Specification of the lookbehind scan. The scan starts from -Infinity and
    reads the window from its last candle backwards, so the window grows at
    its front.
  */

  function MaxBodyHeight(window: seq<Candle>): (r: Num)
    ensures window == [] <==> r == NegInf
    ensures window != [] ==> r.Finite?
  {
    if window == [] then NegInf
    else Max(MaxBodyHeight(window[1..]), Finite(BodyHeight(window[0])))
  }

  function MaxVolume(window: seq<Candle>): (r: Num)
    ensures window == [] <==> r == NegInf
    ensures window != [] ==> r.Finite?
  {
    if window == [] then NegInf
    else Max(MaxVolume(window[1..]), Finite(window[0].volume))
  }

  /*
    Specification of the lookahead scan. The scan starts from -Infinity
    (maximum) and Infinity (minimum) and reads the window forwards, so the
    window grows at its end.
  */

  function MaxHigh(window: seq<Candle>): (r: Num)
    ensures window == [] <==> r == NegInf
    ensures window != [] ==> r.Finite?
  {
    if window == [] then NegInf
    else Max(MaxHigh(window[..|window| - 1]), Finite(window[|window| - 1].high))
  }

  function MinLow(window: seq<Candle>): (r: Num)
    ensures window == [] <==> r == PosInf
    ensures window != [] ==> r.Finite?
  {
    if window == [] then PosInf
    else Min(MinLow(window[..|window| - 1]), Finite(window[|window| - 1].low))
  }

  /**
    One past the last index of candle `i`'s lookahead window: the next
    `lookahead` candles, clipped at the end of the series; a window size that
    is not positive gives an empty window.
  */
  function LookaheadEnd(i: int, lookahead: int, n: int): (end: int)
    requires i < n
    ensures i + 1 <= end <= n
    ensures lookahead >= 0 && i + 1 + lookahead <= n ==> end == i + 1 + lookahead
    ensures lookahead >= 0 && i + 1 + lookahead > n ==> end == n
    ensures lookahead <= 0 ==> end == i + 1
  {
    if lookahead <= 0 then i + 1
    else if i + 1 + lookahead < n then i + 1 + lookahead
    else n
  }

  /** The three-part engulfing test of a candle against the maxima of its lookbehind window. */
  predicate IsBullishEngulfing(candle: Candle, maxRecentCandleHeight: Num, maxRecentCandleVolume: Num) {
    var candleHeight := candle.close - candle.open;
    candleHeight > 0.0
    && Less(maxRecentCandleHeight, Finite(candleHeight))
    && Less(maxRecentCandleVolume, Finite(candle.volume))
  }

  /** The event recorded for `candle` from the results of its two scans. */
  function Classify(candle: Candle, maxRecentCandleHeight: Num, maxRecentCandleVolume: Num,
                    lookaheadMaxPrice: Num, lookaheadMinPrice: Num): Event
  {
    Event(
      candle.close,
      candle.time,
      Sub(Div(Finite(candle.volume), maxRecentCandleVolume), Finite(1.0)),
      Sub(Div(lookaheadMaxPrice, Finite(candle.high)), Finite(1.0)),
      Sub(Div(lookaheadMinPrice, Finite(candle.high)), Finite(1.0)),
      IsBullishEngulfing(candle, maxRecentCandleHeight, maxRecentCandleVolume))
  }

  /** The event of candle `i`, stated on the two windows. */
  function EventAt(candles: seq<Candle>, i: int, lookbehind: int, lookahead: int): Event
    requires 1 <= lookbehind <= i < |candles|
  {
    var window := candles[i - lookbehind..i];
    var ahead := candles[i + 1..LookaheadEnd(i, lookahead, |candles|)];
    Classify(candles[i], MaxBodyHeight(window), MaxVolume(window), MaxHigh(ahead), MinLow(ahead))
  }

  /** All events, one per candle index from `lookbehind` to the end, in input order. */
  function Events(candles: seq<Candle>, lookbehind: int, lookahead: int): seq<Event>
    requires lookbehind >= 1
  {
    seq(if |candles| > lookbehind then |candles| - lookbehind else 0,
        k requires 0 <= k < |candles| - lookbehind => EventAt(candles, lookbehind + k, lookbehind, lookahead))
  }

  /* ---------------------------------------------------------------------- */
  /* The scans                                                              */
  /* ---------------------------------------------------------------------- */

  /** Maxima of body height and volume over the `lookbehindCandles` candles before `i`. */
  method ScanLookbehind(candles: seq<Candle>, i: int, lookbehindCandles: int)
    returns (maxRecentCandleHeight: Num, maxRecentCandleVolume: Num)
    requires 1 <= lookbehindCandles <= i <= |candles|
    ensures maxRecentCandleHeight == MaxBodyHeight(candles[i - lookbehindCandles..i])
    ensures maxRecentCandleVolume == MaxVolume(candles[i - lookbehindCandles..i])
  {
    maxRecentCandleHeight, maxRecentCandleVolume := NegInf, NegInf;
    var j := 1;
    while j <= lookbehindCandles
      invariant 1 <= j <= lookbehindCandles + 1
      invariant maxRecentCandleHeight == MaxBodyHeight(candles[i - (j - 1)..i])
      invariant maxRecentCandleVolume == MaxVolume(candles[i - (j - 1)..i])
    {
      var recentCandle := candles[i - j];
      assert candles[i - j..i][1..] == candles[i - (j - 1)..i];
      maxRecentCandleHeight := Max(maxRecentCandleHeight, Finite(Abs(recentCandle.close - recentCandle.open)));
      maxRecentCandleVolume := Max(maxRecentCandleVolume, Finite(recentCandle.volume));
      j := j + 1;
    }
  }

  /** Highest high and lowest low over the lookahead window of candle `i`. */
  method ScanLookahead(candles: seq<Candle>, i: int, lookaheadCandles: int)
    returns (lookaheadMaxPrice: Num, lookaheadMinPrice: Num)
    requires 0 <= i < |candles|
    ensures lookaheadMaxPrice == MaxHigh(candles[i + 1..LookaheadEnd(i, lookaheadCandles, |candles|)])
    ensures lookaheadMinPrice == MinLow(candles[i + 1..LookaheadEnd(i, lookaheadCandles, |candles|)])
  {
    lookaheadMaxPrice, lookaheadMinPrice := NegInf, PosInf;
    var j := 1;
    while j <= lookaheadCandles && i + j < |candles|
      invariant 1 <= j && i + j <= |candles|
      invariant j - 1 <= lookaheadCandles || j == 1
      invariant lookaheadMaxPrice == MaxHigh(candles[i + 1..i + j])
      invariant lookaheadMinPrice == MinLow(candles[i + 1..i + j])
    {
      assert candles[i + 1..i + j + 1][..j - 1] == candles[i + 1..i + j];
      lookaheadMaxPrice := Max(lookaheadMaxPrice, Finite(candles[i + j].high));
      lookaheadMinPrice := Min(lookaheadMinPrice, Finite(candles[i + j].low));
      j := j + 1;
    }
  }

  /**
    The extraction loop: one event per candle index `i` with
    `lookbehindCandles <= i < |candles|`, in input order.
  */
  method ExtractEvents(candles: seq<Candle>, lookbehindCandles: int, lookaheadCandles: int)
    returns (unfilteredEvents: seq<Event>)
    requires lookbehindCandles >= 1
    ensures |unfilteredEvents| == if |candles| > lookbehindCandles then |candles| - lookbehindCandles else 0
    ensures forall k :: 0 <= k < |unfilteredEvents| ==>
      unfilteredEvents[k] == EventAt(candles, lookbehindCandles + k, lookbehindCandles, lookaheadCandles)
  {
    unfilteredEvents := [];
    var i := lookbehindCandles;
    while i < |candles|
      invariant lookbehindCandles <= i
      invariant i <= |candles| || i == lookbehindCandles
      invariant |unfilteredEvents| == i - lookbehindCandles
      invariant forall k :: 0 <= k < |unfilteredEvents| ==>
        unfilteredEvents[k] == EventAt(candles, lookbehindCandles + k, lookbehindCandles, lookaheadCandles)
    {
      var candle := candles[i];
      var maxRecentCandleHeight, maxRecentCandleVolume := ScanLookbehind(candles, i, lookbehindCandles);
      var lookaheadMaxPrice, lookaheadMinPrice := ScanLookahead(candles, i, lookaheadCandles);
      var event := Classify(candle, maxRecentCandleHeight, maxRecentCandleVolume, lookaheadMaxPrice, lookaheadMinPrice);
      unfilteredEvents := unfilteredEvents + [event];
      i := i + 1;
    }
  }

  /* ---------------------------------------------------------------------- */
  /* What the scans compute                                                 */
  /* ---------------------------------------------------------------------- */

  /** The running body-height maximum is below `h` exactly when every body in the window is. */
  lemma {:induction false} BelowMaxBodyHeight(window: seq<Candle>, h: real)
    ensures Less(MaxBodyHeight(window), Finite(h)) <==> forall k :: 0 <= k < |window| ==> BodyHeight(window[k]) < h
  {
    if window != [] {
      BelowMaxBodyHeight(window[1..], h);
      assert forall k :: 1 <= k < |window| ==> window[k] == window[1..][k - 1];
    }
  }

  /** The running volume maximum is below `v` exactly when every volume in the window is. */
  lemma {:induction false} BelowMaxVolume(window: seq<Candle>, v: real)
    ensures Less(MaxVolume(window), Finite(v)) <==> forall k :: 0 <= k < |window| ==> window[k].volume < v
  {
    if window != [] {
      BelowMaxVolume(window[1..], v);
      assert forall k :: 1 <= k < |window| ==> window[k] == window[1..][k - 1];
    }
  }

  /** A non-empty lookahead window's running maximum is its highest high. */
  lemma {:induction false} MaxHighIsMaximum(window: seq<Candle>)
    requires window != []
    ensures forall k :: 0 <= k < |window| ==> window[k].high <= MaxHigh(window).r
    ensures exists k :: 0 <= k < |window| && window[k].high == MaxHigh(window).r
  {
    var last := |window| - 1;
    if last == 0 {
      assert window[0].high == MaxHigh(window).r;
    } else {
      var front := window[..last];
      MaxHighIsMaximum(front);
      var k :| 0 <= k < |front| && front[k].high == MaxHigh(front).r;
      if MaxHigh(front).r < window[last].high {
        assert window[last].high == MaxHigh(window).r;
      } else {
        assert window[k].high == MaxHigh(window).r;
      }
    }
  }

  /** A non-empty lookahead window's running minimum is its lowest low. */
  lemma {:induction false} MinLowIsMinimum(window: seq<Candle>)
    requires window != []
    ensures forall k :: 0 <= k < |window| ==> MinLow(window).r <= window[k].low
    ensures exists k :: 0 <= k < |window| && window[k].low == MinLow(window).r
  {
    var last := |window| - 1;
    if last == 0 {
      assert window[0].low == MinLow(window).r;
    } else {
      var front := window[..last];
      MinLowIsMinimum(front);
      var k :| 0 <= k < |front| && front[k].low == MinLow(front).r;
      if window[last].low < MinLow(front).r {
        assert window[last].low == MinLow(window).r;
      } else {
        assert window[k].low == MinLow(window).r;
      }
    }
  }

  /**
    Candle `i` is bullish engulfing exactly when its body is positive, taller
    than every body in the `lookbehind` candles before it, and its volume is
    greater than every one of theirs.
  */
  lemma BullishEngulfingIff(candles: seq<Candle>, i: int, lookbehind: int, lookahead: int)
    requires 1 <= lookbehind <= i < |candles|
    ensures EventAt(candles, i, lookbehind, lookahead).isBullishEngulfing <==>
      && candles[i].close - candles[i].open > 0.0
      && (forall k :: i - lookbehind <= k < i ==> BodyHeight(candles[k]) < candles[i].close - candles[i].open)
      && (forall k :: i - lookbehind <= k < i ==> candles[k].volume < candles[i].volume)
  {
    var window := candles[i - lookbehind..i];
    BelowMaxBodyHeight(window, candles[i].close - candles[i].open);
    BelowMaxVolume(window, candles[i].volume);
    assert forall k :: i - lookbehind <= k < i ==> candles[k] == window[k - (i - lookbehind)];
  }

  /**
    With a positive high, the percent changes of candle `i` bound those of
    every candle of its non-empty lookahead window, and are reached by one of
    them.
  */
  lemma PctPriceChangeIsExtreme(candles: seq<Candle>, i: int, lookbehind: int, lookahead: int)
    requires 1 <= lookbehind <= i < |candles|
    requires candles[i].high > 0.0
    requires i + 1 < LookaheadEnd(i, lookahead, |candles|)
    ensures var e := EventAt(candles, i, lookbehind, lookahead);
      && e.maxPctPriceChange.Finite? && e.minPctPriceChange.Finite?
      && (forall k :: i < k < LookaheadEnd(i, lookahead, |candles|) ==>
            candles[k].high / candles[i].high - 1.0 <= e.maxPctPriceChange.r
            && e.minPctPriceChange.r <= candles[k].low / candles[i].high - 1.0)
      && (exists k :: i < k < LookaheadEnd(i, lookahead, |candles|) &&
            candles[k].high / candles[i].high - 1.0 == e.maxPctPriceChange.r)
      && (exists k :: i < k < LookaheadEnd(i, lookahead, |candles|) &&
            candles[k].low / candles[i].high - 1.0 == e.minPctPriceChange.r)
  {
    var end := LookaheadEnd(i, lookahead, |candles|);
    var ahead := candles[i + 1..end];
    var h := candles[i].high;
    MaxHighIsMaximum(ahead);
    MinLowIsMinimum(ahead);
    var m, w := MaxHigh(ahead).r, MinLow(ahead).r;
    forall k | i < k < end
      ensures candles[k].high / h <= m / h && w / h <= candles[k].low / h
    {
      assert candles[k] == ahead[k - (i + 1)];
      DivMonotonic(candles[k].high, m, h);
      DivMonotonic(w, candles[k].low, h);
    }
    var a :| 0 <= a < |ahead| && ahead[a].high == m;
    assert candles[i + 1 + a].high == m;
    var b :| 0 <= b < |ahead| && ahead[b].low == w;
    assert candles[i + 1 + b].low == w;
  }

  lemma DivMonotonic(x: real, y: real, h: real)
    requires x <= y && h > 0.0
    ensures x / h <= y / h
  {
    assert y / h - x / h == (y - x) / h;
  }

  /**
    When the lookahead window is empty (the last candle, or a window size
    that is not positive), the sentinels survive the division by the high:
    with a high that is not negative the maximum change is -Infinity and the
    minimum change Infinity; a negative high swaps their signs.
  */
  lemma EmptyLookaheadSentinels(candles: seq<Candle>, i: int, lookbehind: int, lookahead: int)
    requires 1 <= lookbehind <= i < |candles|
    requires i == |candles| - 1 || lookahead <= 0
    ensures candles[i].high >= 0.0 ==>
      && EventAt(candles, i, lookbehind, lookahead).maxPctPriceChange == NegInf
      && EventAt(candles, i, lookbehind, lookahead).minPctPriceChange == PosInf
    ensures candles[i].high < 0.0 ==>
      && EventAt(candles, i, lookbehind, lookahead).maxPctPriceChange == PosInf
      && EventAt(candles, i, lookbehind, lookahead).minPctPriceChange == NegInf
  {
    assert candles[i + 1..LookaheadEnd(i, lookahead, |candles|)] == [];
  }

  /**
    When some candle in the lookbehind window has positive volume, the
    volume change is the finite ratio to the window's largest volume, minus one.
  */
  lemma PctVolumeChangeIsRatio(candles: seq<Candle>, i: int, lookbehind: int, lookahead: int)
    requires 1 <= lookbehind <= i < |candles|
    requires exists k :: i - lookbehind <= k < i && candles[k].volume > 0.0
    ensures var e := EventAt(candles, i, lookbehind, lookahead);
      && e.pctVolumeChange.Finite?
      && exists k :: i - lookbehind <= k < i &&
           candles[k].volume > 0.0 &&
           e.pctVolumeChange.r == candles[i].volume / candles[k].volume - 1.0 &&
           forall k' :: i - lookbehind <= k' < i ==> candles[k'].volume <= candles[k].volume
  {
    var window := candles[i - lookbehind..i];
    var k := MaxVolumeIsMaximum(window);
    assert window[k] == candles[i - lookbehind + k];
    assert forall k' :: i - lookbehind <= k' < i ==> candles[k'] == window[k' - (i - lookbehind)];
  }

  /** A non-empty lookbehind window's running volume maximum is one of its volumes, and the largest. */
  lemma {:induction false} MaxVolumeIsMaximum(window: seq<Candle>) returns (at: nat)
    requires window != []
    ensures at < |window| && MaxVolume(window) == Finite(window[at].volume)
    ensures forall k :: 0 <= k < |window| ==> window[k].volume <= window[at].volume
  {
    if |window| == 1 {
      at := 0;
    } else {
      var rest := MaxVolumeIsMaximum(window[1..]);
      assert forall k :: 1 <= k < |window| ==> window[k] == window[1..][k - 1];
      if window[1..][rest].volume < window[0].volume {
        at := 0;
      } else {
        at := rest + 1;
      }
    }
  }
}
