/** The time-binned heatmap of process.py (`get_locations`, lines 17-85):
    samples in E7 coordinates are binned into the pixels of a bounding box,
    each placed sample adding a time weight to its pixel. */
module Heatmap {
  import opened Wrappers
  import opened Numeric

  /** One entry of the location history. The timestamp is already an
      integer and the minute of the day (UTC) is already computed. */
  datatype Sample = Sample(latitudeE7: int, longitudeE7: int, timestamp: int, minuteOfDay: int)

  /** The bounding box in E7 coordinates and the scaling factor. */
  datatype Window = Window(x0: int, x1: int, y0: int, y1: int, scalingFactor: int)

  /** `minutes_since_last_midnight_filter`: both ends are kept. */
  datatype MinuteRange = MinuteRange(lo: int, hi: int)

  type Matrix = seq<seq<real>>

  /** `1000 * 60`. */
  const MillisPerMinute: real := 60000.0

  /** Python's true division of two integers. */
  function Ratio(a: int, b: int): real
    requires b != 0
  {
    a as real / b as real
  }

  /** The scaling factor is not zero and both truncated dimensions are
      non-negative: otherwise lines 55-59 raise. */
  predicate Sizable(w: Window) {
    w.scalingFactor != 0 &&
    TruncToInt(Ratio(w.y1 - w.y0, w.scalingFactor)) >= 0 &&
    TruncToInt(Ratio(w.x1 - w.x0, w.scalingFactor)) >= 0
  }

  /** `height_in_pixels` (line 55). */
  function Height(w: Window): nat
    requires Sizable(w)
  {
    TruncToInt(Ratio(w.y1 - w.y0, w.scalingFactor))
  }

  /** `width_in_pixels` (line 56). */
  function Width(w: Window): nat
    requires Sizable(w)
  {
    TruncToInt(Ratio(w.x1 - w.x0, w.scalingFactor))
  }

  /** `int()` truncates each ratio toward zero: a non-negative ratio is
      floored, and a negative one above -1 gives 0. */
  lemma DimensionsTruncate(w: Window)
    requires Sizable(w)
    ensures var hr := Ratio(w.y1 - w.y0, w.scalingFactor);
      (hr >= 0.0 ==> Height(w) as real <= hr < Height(w) as real + 1.0) &&
      (hr < 0.0 ==> Height(w) == 0 && -1.0 < hr)
    ensures var wr := Ratio(w.x1 - w.x0, w.scalingFactor);
      (wr >= 0.0 ==> Width(w) as real <= wr < Width(w) as real + 1.0) &&
      (wr < 0.0 ==> Width(w) == 0 && -1.0 < wr)
  {
  }

  lemma FloorOfRatio(a: int, b: int)
    requires a >= 0 && b > 0
    ensures Ratio(a, b).Floor == a / b
  {
    var q, r := a / b, a % b;
    assert a == q * b + r;
    assert (q * b) as real == q as real * b as real;
    assert a as real / b as real == q as real + r as real / b as real;
    assert 0.0 <= r as real / b as real < 1.0;
  }

  /** For a well-ordered box and a positive factor the matrix is
      `(y1 - y0) div S` by `(x1 - x0) div S`. */
  lemma HeightIsFloorDiv(w: Window)
    requires w.scalingFactor > 0 && w.y1 >= w.y0 && w.x1 >= w.x0
    ensures Sizable(w)
    ensures Height(w) == (w.y1 - w.y0) / w.scalingFactor
    ensures Width(w) == (w.x1 - w.x0) / w.scalingFactor
  {
    FloorOfRatio(w.y1 - w.y0, w.scalingFactor);
    FloorOfRatio(w.x1 - w.x0, w.scalingFactor);
  }

  /** Column of a sample (line 71). */
  function PixelX(s: Sample, w: Window): int
    requires w.scalingFactor != 0
  {
    RoundHalfEven(Ratio(s.longitudeE7 - w.x0, w.scalingFactor))
  }

  /** Row of a sample (line 72). */
  function PixelY(s: Sample, w: Window): int
    requires w.scalingFactor != 0
  {
    RoundHalfEven(Ratio(s.latitudeE7 - w.y0, w.scalingFactor))
  }

  /** A sample's pixel is the nearest integer to its scaled offset in each
      direction, ties going to the even one. */
  lemma PixelNearest(s: Sample, w: Window)
    requires w.scalingFactor != 0
    ensures var dx := PixelX(s, w) as real - Ratio(s.longitudeE7 - w.x0, w.scalingFactor);
      -0.5 <= dx <= 0.5 && (dx in {0.5, -0.5} ==> PixelX(s, w) % 2 == 0)
    ensures var dy := PixelY(s, w) as real - Ratio(s.latitudeE7 - w.y0, w.scalingFactor);
      -0.5 <= dy <= 0.5 && (dy in {0.5, -0.5} ==> PixelY(s, w) % 2 == 0)
  {
  }

  /** Lines 64-70: without a filter every sample passes; with one, a sample
      passes unless its minute lies below the lower or above the upper end. */
  predicate PassesFilter(f: Option<MinuteRange>, minute: int): (r: bool)
    ensures !r <==> f.Some? && (minute < f.value.lo || minute > f.value.hi)
  {
    f.None? || (f.value.lo <= minute && minute <= f.value.hi)
  }

  /** Lines 73-74: the pixel lies inside the matrix. */
  predicate InRect(s: Sample, w: Window)
    requires Sizable(w)
  {
    0 <= PixelX(s, w) < Width(w) && 0 <= PixelY(s, w) < Height(w)
  }

  /** Sample `i` passes the filter and lands inside the matrix. */
  predicate Placed(samples: seq<Sample>, w: Window, f: Option<MinuteRange>, i: nat)
    requires Sizable(w) && i < |samples|
  {
    PassesFilter(f, samples[i].minuteOfDay) && InRect(samples[i], w)
  }

  /** Lines 77-83: current minus next timestamp over a minute's worth of
      milliseconds, the next sample of the whole list being used whether
      or not it passes the filter; the last sample weighs 1. */
  function Weight(samples: seq<Sample>, i: nat): real
    requires i < |samples|
  {
    if i + 1 < |samples| then (samples[i].timestamp - samples[i + 1].timestamp) as real / MillisPerMinute
    else 1.0
  }

  /** What sample `i` adds to pixel `(y, x)`. */
  function Contribution(samples: seq<Sample>, w: Window, f: Option<MinuteRange>, i: nat, y: int, x: int): real
    requires Sizable(w) && i < |samples|
  {
    if Placed(samples, w, f, i) && PixelY(samples[i], w) == y && PixelX(samples[i], w) == x
    then Weight(samples, i) else 0.0
  }

  /** Pixel `(y, x)` after the first `n` samples; a position outside the
      matrix receives nothing. */
  function CellWeight(samples: seq<Sample>, w: Window, f: Option<MinuteRange>, n: nat, y: int, x: int): (r: real)
    requires Sizable(w) && n <= |samples|
    ensures !(0 <= y < Height(w) && 0 <= x < Width(w)) ==> r == 0.0
  {
    if n == 0 then 0.0
    else CellWeight(samples, w, f, n - 1, y, x) + Contribution(samples, w, f, n - 1, y, x)
  }

  /** The whole matrix `get_locations` returns. */
  function PlaceMatrix(samples: seq<Sample>, w: Window, f: Option<MinuteRange>): (m: Matrix)
    requires Sizable(w)
    ensures |m| == Height(w)
    ensures forall y :: 0 <= y < |m| ==> |m[y]| == Width(w)
  {
    seq(Height(w), y requires 0 <= y < Height(w) =>
      seq(Width(w), x requires 0 <= x < Width(w) => CellWeight(samples, w, f, |samples|, y, x)))
  }

  /** `skipped` after the first `n` samples: those not placed, never more
      than the samples processed. */
  function SkippedCount(samples: seq<Sample>, w: Window, f: Option<MinuteRange>, n: nat): (r: nat)
    requires Sizable(w) && n <= |samples|
    ensures r <= n
  {
    if n == 0 then 0
    else SkippedCount(samples, w, f, n - 1) + (if Placed(samples, w, f, n - 1) then 0 else 1)
  }

  /** Samples among the first `n` removed by the time filter. */
  function FilteredCount(samples: seq<Sample>, f: Option<MinuteRange>, n: nat): nat
    requires n <= |samples|
  {
    if n == 0 then 0
    else FilteredCount(samples, f, n - 1) + (if PassesFilter(f, samples[n - 1].minuteOfDay) then 0 else 1)
  }

  /** Samples among the first `n` that pass the filter but fall outside. */
  function OutsideCount(samples: seq<Sample>, w: Window, f: Option<MinuteRange>, n: nat): nat
    requires Sizable(w) && n <= |samples|
  {
    if n == 0 then 0
    else
      var outside := PassesFilter(f, samples[n - 1].minuteOfDay) && !InRect(samples[n - 1], w);
      OutsideCount(samples, w, f, n - 1) + (if outside then 1 else 0)
  }

  /** `skipped` is the time-filtered samples plus those outside the
      rectangle, and never exceeds `processed`. */
  lemma {:induction false} SkippedSplit(samples: seq<Sample>, w: Window, f: Option<MinuteRange>, n: nat)
    requires Sizable(w) && n <= |samples|
    ensures SkippedCount(samples, w, f, n) == FilteredCount(samples, f, n) + OutsideCount(samples, w, f, n)
    ensures SkippedCount(samples, w, f, n) <= n
  {
    if n > 0 {
      SkippedSplit(samples, w, f, n - 1);
    }
  }

  /** Every sample skipped exactly when none is placed. */
  lemma {:induction false} AllSkippedIff(samples: seq<Sample>, w: Window, f: Option<MinuteRange>, n: nat)
    requires Sizable(w) && n <= |samples|
    ensures SkippedCount(samples, w, f, n) == n <==> forall i :: 0 <= i < n ==> !Placed(samples, w, f, i)
  {
    if n > 0 {
      AllSkippedIff(samples, w, f, n - 1);
      SkippedSplit(samples, w, f, n - 1);
    }
  }

  /** A pixel no placed sample maps to stays at zero. */
  lemma {:induction false} UnvisitedPixelIsZero(samples: seq<Sample>, w: Window, f: Option<MinuteRange>, n: nat, y: int, x: int)
    requires Sizable(w) && n <= |samples|
    requires forall i :: 0 <= i < n && Placed(samples, w, f, i) ==>
      PixelY(samples[i], w) != y || PixelX(samples[i], w) != x
    ensures CellWeight(samples, w, f, n, y, x) == 0.0
  {
    if n > 0 {
      UnvisitedPixelIsZero(samples, w, f, n - 1, y, x);
    }
  }

  /** When every sample is skipped the whole matrix is zero. */
  lemma AllSkippedMeansZero(samples: seq<Sample>, w: Window, f: Option<MinuteRange>)
    requires Sizable(w)
    requires SkippedCount(samples, w, f, |samples|) == |samples|
    ensures forall y, x :: 0 <= y < Height(w) && 0 <= x < Width(w) ==>
      PlaceMatrix(samples, w, f)[y][x] == 0.0
  {
    AllSkippedIff(samples, w, f, |samples|);
    forall y, x | 0 <= y < Height(w) && 0 <= x < Width(w)
      ensures PlaceMatrix(samples, w, f)[y][x] == 0.0
    {
      UnvisitedPixelIsZero(samples, w, f, |samples|, y, x);
    }
  }

  /** A sample exactly on the upper longitude or latitude edge is never
      placed: its pixel rounds to at least the width (or height). */
  lemma UpperEdgeExcluded(s: Sample, w: Window)
    requires w.scalingFactor > 0 && w.y1 >= w.y0 && w.x1 >= w.x0
    requires s.longitudeE7 == w.x1 || s.latitudeE7 == w.y1
    ensures Sizable(w) && !InRect(s, w)
  {
    HeightIsFloorDiv(w);
    RoundAtLeastFloor(Ratio(w.x1 - w.x0, w.scalingFactor));
    RoundAtLeastFloor(Ratio(w.y1 - w.y0, w.scalingFactor));
  }

  /** The last sample weighs 1; any other weighs less than zero exactly
      when the next sample is later, and zero exactly when both share a
      timestamp, so chronologically ordered samples subtract time. */
  lemma WeightSign(samples: seq<Sample>, i: nat)
    requires i < |samples|
    ensures i + 1 == |samples| ==> Weight(samples, i) == 1.0
    ensures i + 1 < |samples| ==>
      (Weight(samples, i) < 0.0 <==> samples[i].timestamp < samples[i + 1].timestamp)
    ensures i + 1 < |samples| ==>
      (Weight(samples, i) == 0.0 <==> samples[i].timestamp == samples[i + 1].timestamp)
  {
  }

  /** Lines 55-85. */
  method GetLocations(samples: seq<Sample>, w: Window, f: Option<MinuteRange>)
    returns (placeMap: array2<real>, processed: nat, skipped: nat)
    requires Sizable(w)
    ensures fresh(placeMap)
    ensures placeMap.Length0 == Height(w) && placeMap.Length1 == Width(w)
    ensures processed == |samples|
    ensures skipped == SkippedCount(samples, w, f, |samples|)
    ensures forall y, x :: 0 <= y < Height(w) && 0 <= x < Width(w) ==>
      placeMap[y, x] == CellWeight(samples, w, f, |samples|, y, x)
  {
    var heightInPixels := TruncToInt(Ratio(w.y1 - w.y0, w.scalingFactor));
    var widthInPixels := TruncToInt(Ratio(w.x1 - w.x0, w.scalingFactor));
    placeMap := new real[heightInPixels, widthInPixels]((_, _) => 0.0);
    processed, skipped := 0, 0;
    for i := 0 to |samples|
      invariant processed == i
      invariant skipped == SkippedCount(samples, w, f, i)
      invariant forall y, x :: 0 <= y < Height(w) && 0 <= x < Width(w) ==>
        placeMap[y, x] == CellWeight(samples, w, f, i, y, x)
    {
      processed := processed + 1;
      var loc := samples[i];
      if f.Some? {
        if loc.minuteOfDay < f.value.lo || loc.minuteOfDay > f.value.hi {
          skipped := skipped + 1;
          continue;
        }
      }
      var x := RoundHalfEven(Ratio(loc.longitudeE7 - w.x0, w.scalingFactor));
      var y := RoundHalfEven(Ratio(loc.latitudeE7 - w.y0, w.scalingFactor));
      if x >= placeMap.Length1 || y >= placeMap.Length0 || x < 0 || y < 0 {
        skipped := skipped + 1;
      } else {
        if i + 1 < |samples| {
          placeMap[y, x] := placeMap[y, x] + (loc.timestamp - samples[i + 1].timestamp) as real / MillisPerMinute;
        } else {
          placeMap[y, x] := placeMap[y, x] + 1.0;
        }
      }
    }
  }
}
