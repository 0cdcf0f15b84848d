/** The frame loop of process.py's `main` (lines 102-115, 124-155,
    189-208): one baseline frame over all samples, then one frame per
    15-minute bin, each normalised by percentile breakpoints and blended into
    a moving average, with one file name recorded per time frame. */
module Frames {
  import opened Wrappers
  import opened Numeric
  import opened Heatmap

  /** `len(bins)` with `bins = range(1, 100)`. */
  const PercentileCount: nat := 99
  /** `minutes_step`. */
  const MinutesStep: nat := 15
  /** `len(all_minutes_starts)`: the 15-minute bins of a day. */
  const BinsPerDay: nat := 96
  /** `[None] + all_minutes_starts`. */
  const FrameCount: nat := 97
  /** `frame_persistence_factor`. */
  const Persistence: real := 4.0

  predicate IsShape(m: Matrix, h: nat, w: nat) {
    |m| == h && forall y :: 0 <= y < h ==> |m[y]| == w
  }

  predicate SameShape(a: Matrix, b: Matrix) {
    |a| == |b| && forall y :: 0 <= y < |a| ==> |a[y]| == |b[y]|
  }

  predicate InUnit(m: Matrix) {
    forall y, x :: 0 <= y < |m| && 0 <= x < |m[y]| ==> 0.0 <= m[y][x] <= 1.0
  }

  predicate Sorted(s: seq<real>) {
    forall i, j :: 0 <= i <= j < |s| ==> s[i] <= s[j]
  }

  /** A numpy array read as a nested list. */
  function ToMatrix(a: array2<real>): (m: Matrix)
    reads a
    ensures IsShape(m, a.Length0, a.Length1)
    ensures forall y, x :: 0 <= y < a.Length0 && 0 <= x < a.Length1 ==> m[y][x] == a[y, x]
  {
    seq(a.Length0, y requires 0 <= y < a.Length0 reads a =>
      seq(a.Length1, x requires 0 <= x < a.Length1 reads a => a[y, x]))
  }

  /** Two matrices of one shape with the same entries are equal. */
  lemma MatrixExtensionality(a: Matrix, b: Matrix)
    requires SameShape(a, b)
    requires forall y, x :: 0 <= y < |a| && 0 <= x < |a[y]| ==> a[y][x] == b[y][x]
    ensures a == b
  {
    forall y | 0 <= y < |a|
      ensures a[y] == b[y]
    {
    }
  }

  // ---------------------------------------------------------------------
  // Normalisation (lines 136-143)

  /** `np.searchsorted(breaks, v)` with the default side: the number of
      breakpoints strictly below `v`. */
  function CountBelow(breaks: seq<real>, v: real): (r: nat)
    ensures r <= |breaks|
  {
    if breaks == [] then 0
    else CountBelow(breaks[..|breaks| - 1], v) + (if breaks[|breaks| - 1] < v then 1 else 0)
  }

  /** On sorted breakpoints the count is the insertion point: everything
      before it is below `v` and everything from it on is at least `v`. */
  lemma {:induction false} CountBelowIsInsertionPoint(breaks: seq<real>, v: real)
    requires Sorted(breaks)
    ensures forall i :: 0 <= i < CountBelow(breaks, v) ==> breaks[i] < v
    ensures forall i :: CountBelow(breaks, v) <= i < |breaks| ==> v <= breaks[i]
  {
    if breaks != [] {
      var init := breaks[..|breaks| - 1];
      assert Sorted(init);
      CountBelowIsInsertionPoint(init, v);
    }
  }

  /** A larger value never lands before a smaller one. */
  lemma {:induction false} CountBelowMonotone(breaks: seq<real>, u: real, v: real)
    requires u <= v
    ensures CountBelow(breaks, u) <= CountBelow(breaks, v)
  {
    if breaks != [] {
      CountBelowMonotone(breaks[..|breaks| - 1], u, v);
    }
  }

  /** Line 142: each value becomes its insertion point over `len(bins)`. */
  function Normalize(m: Matrix, breaks: seq<real>): (r: Matrix)
    ensures SameShape(r, m)
  {
    seq(|m|, y requires 0 <= y < |m| =>
      seq(|m[y]|, x requires 0 <= x < |m[y]| => CountBelow(breaks, m[y][x]) as real / PercentileCount as real))
  }

  /** With at most 99 breakpoints every normalised value lies in [0, 1]. */
  lemma NormalizeInUnit(m: Matrix, breaks: seq<real>)
    requires |breaks| <= PercentileCount
    ensures InUnit(Normalize(m, breaks))
  {
  }

  /** Normalisation keeps the order of any two values of the matrix. */
  lemma NormalizeMonotone(m: Matrix, breaks: seq<real>, y1: nat, x1: nat, y2: nat, x2: nat)
    requires y1 < |m| && x1 < |m[y1]| && y2 < |m| && x2 < |m[y2]|
    requires m[y1][x1] <= m[y2][x2]
    ensures Normalize(m, breaks)[y1][x1] <= Normalize(m, breaks)[y2][x2]
  {
    CountBelowMonotone(breaks, m[y1][x1], m[y2][x2]);
  }

  /** `place_map_blurred.flatten()` (line 136): the rows, in order. */
  function Flatten(m: Matrix): seq<real> {
    if m == [] then [] else Flatten(m[..|m| - 1]) + m[|m| - 1]
  }

  /** The non-zero entries of a row, in order. */
  function NonzeroRow(row: seq<real>): seq<real> {
    if row == [] then []
    else NonzeroRow(row[..|row| - 1]) + (if row[|row| - 1] != 0.0 then [row[|row| - 1]] else [])
  }

  /** The filter keeps each non-zero value as often as the row holds it,
      and no zero. */
  lemma {:induction false} NonzeroRowCounts(row: seq<real>)
    ensures multiset(NonzeroRow(row))[0.0] == 0
    ensures forall v :: v != 0.0 ==> multiset(NonzeroRow(row))[v] == multiset(row)[v]
  {
    if row != [] {
      NonzeroRowCounts(row[..|row| - 1]);
      assert row == row[..|row| - 1] + [row[|row| - 1]];
    }
  }

  /** Filtering distributes over concatenation, so the filter keeps the
      order of its input. */
  lemma {:induction false} NonzeroRowAppend(a: seq<real>, b: seq<real>)
    ensures NonzeroRow(a + b) == NonzeroRow(a) + NonzeroRow(b)
    decreases |b|
  {
    if b == [] {
      assert a + b == a;
    } else {
      var init := b[..|b| - 1];
      assert (a + b)[..|a + b| - 1] == a + init;
      NonzeroRowAppend(a, init);
    }
  }

  /** `flattened[np.nonzero(flattened)]`: the non-zero entries row by row. */
  function NonzeroValues(m: Matrix): seq<real> {
    if m == [] then []
    else NonzeroValues(m[..|m| - 1]) + NonzeroRow(m[|m| - 1])
  }

  /** The selection holds each non-zero value as often as the matrix does,
      and no zero. */
  lemma {:induction false} NonzeroValuesCounts(m: Matrix)
    ensures multiset(NonzeroValues(m))[0.0] == 0
    ensures forall v :: v != 0.0 ==> multiset(NonzeroValues(m))[v] == multiset(Flatten(m))[v]
  {
    if m != [] {
      NonzeroValuesCounts(m[..|m| - 1]);
      NonzeroRowCounts(m[|m| - 1]);
    }
  }

  /** The selection is the non-zero entries of the flattened matrix, in
      row-major order. */
  lemma {:induction false} NonzeroValuesRowMajor(m: Matrix)
    ensures NonzeroValues(m) == NonzeroRow(Flatten(m))
  {
    if m != [] {
      var init := m[..|m| - 1];
      NonzeroValuesRowMajor(init);
      NonzeroRowAppend(Flatten(init), m[|m| - 1]);
    }
  }

  /** Every non-zero entry of the matrix is among the selected values. */
  lemma NonzeroEntrySelected(m: Matrix, y: nat, x: nat)
    requires y < |m| && x < |m[y]| && m[y][x] != 0.0
    ensures m[y][x] in NonzeroValues(m)
  {
    FlattenHoldsEntries(m, y, x);
    NonzeroValuesCounts(m);
    assert multiset(Flatten(m))[m[y][x]] > 0;
  }

  lemma {:induction false} FlattenHoldsEntries(m: Matrix, y: nat, x: nat)
    requires y < |m| && x < |m[y]|
    ensures m[y][x] in Flatten(m)
  {
    var init := m[..|m| - 1];
    if y < |m| - 1 {
      assert init[y] == m[y];
      FlattenHoldsEntries(init, y, x);
    } else {
      assert m[y][x] == (Flatten(init) + m[|m| - 1])[|Flatten(init)| + x];
    }
  }

  // ---------------------------------------------------------------------
  // Moving average (lines 149-155)

  /** `(avg + frame * 4) / (1 + 4)` elementwise. */
  function Blend(avg: Matrix, frame: Matrix): (r: Matrix)
    requires SameShape(avg, frame)
    ensures SameShape(r, frame)
  {
    seq(|frame|, y requires 0 <= y < |frame| =>
      seq(|frame[y]|, x requires 0 <= x < |frame[y]| =>
        (avg[y][x] + frame[y][x] * Persistence) / (1.0 + Persistence)))
  }

  /** Each blended value lies between the old average and the new frame. */
  lemma BlendBetween(avg: Matrix, frame: Matrix)
    requires SameShape(avg, frame)
    ensures var r := Blend(avg, frame);
      forall y, x :: 0 <= y < |r| && 0 <= x < |r[y]| ==>
        (avg[y][x] <= r[y][x] <= frame[y][x]) || (frame[y][x] <= r[y][x] <= avg[y][x])
  {
  }

  /** Blending two matrices with values in [0, 1] stays in [0, 1]. */
  lemma BlendInUnit(avg: Matrix, frame: Matrix)
    requires SameShape(avg, frame) && InUnit(avg) && InUnit(frame)
    ensures InUnit(Blend(avg, frame))
  {
    var r := Blend(avg, frame);
    BlendBetween(avg, frame);
    forall y, x | 0 <= y < |r| && 0 <= x < |r[y]|
      ensures 0.0 <= r[y][x] <= 1.0
    {
      assert 0.0 <= avg[y][x] <= 1.0 && 0.0 <= frame[y][x] <= 1.0;
    }
  }

  // ---------------------------------------------------------------------
  // Breakpoint rescaling (line 208)

  /** `quintiles * len(all_minutes_starts)`. */
  function Rescale(breaks: seq<real>): (r: seq<real>)
    ensures |r| == |breaks|
  {
    seq(|breaks|, i requires 0 <= i < |breaks| => breaks[i] * BinsPerDay as real)
  }

  /** Rescaling keeps the breakpoints sorted. */
  lemma RescaleSorted(breaks: seq<real>)
    requires Sorted(breaks)
    ensures Sorted(Rescale(breaks))
  {
  }

  /** A value 96 times larger takes the same place among the rescaled
      breakpoints as the value did among the original ones. */
  lemma {:induction false} RescaledInsertionPoint(breaks: seq<real>, v: real)
    ensures CountBelow(Rescale(breaks), v * BinsPerDay as real) == CountBelow(breaks, v)
  {
    if breaks != [] {
      var init := breaks[..|breaks| - 1];
      assert Rescale(breaks)[..|breaks| - 1] == Rescale(init);
      RescaledInsertionPoint(init, v);
    }
  }

  // ---------------------------------------------------------------------
  // Frame file names (lines 189-196)

  function DigitChar(d: nat): char
    requires d < 10
  {
    (('0' as int) + d) as char
  }

  /** The last `width` decimal digits of `n`, zero-padded. */
  function Digits(n: nat, width: nat): (s: string)
    ensures |s| == width
  {
    if width == 0 then [] else Digits(n / 10, width - 1) + [DigitChar(n % 10)]
  }

  /** The number of decimal digits of `n`. */
  function NumDigits(n: nat): (r: nat)
    ensures r >= 1
  {
    if n < 10 then 1 else 1 + NumDigits(n / 10)
  }

  /** `f'{n:04}'`: at least four digits, zero-padded. */
  function FormatIndex(n: nat): (s: string)
    ensures |s| >= 4
    ensures n < Pow10(4) ==> |s| == 4
  {
    if n < Pow10(4) then Digits(n, 4)
    else
      var a := n / 10;
      var b := a / 10;
      var c := b / 10;
      assert NumDigits(n) == 1 + NumDigits(a);
      assert NumDigits(a) == 1 + NumDigits(b);
      assert NumDigits(b) == 1 + NumDigits(c);
      Digits(n, NumDigits(n))
  }

  function FramePrefix(place: string): string {
    "locations_in_" + place + "_time_"
  }

  /** The name recorded for frame `k` (lines 193-194): the place's prefix,
      at least four digits and the `.png` extension. */
  function FrameFileName(place: string, k: nat): (r: string)
    ensures |r| >= |FramePrefix(place)| + 8
    ensures k < Pow10(4) ==> |r| == |FramePrefix(place)| + 8
    ensures r[..|FramePrefix(place)|] == FramePrefix(place)
    ensures r[|r| - 4..] == ".png"
  {
    FramePrefix(place) + FormatIndex(k) + ".png"
  }

  /** The names of frames 1 to `n`. */
  function FrameNames(place: string, n: nat): (r: seq<string>)
    ensures |r| == n
  {
    seq(n, i requires 0 <= i < n => FrameFileName(place, i + 1))
  }

  /** Python's `<` on strings: lexicographic order. */
  predicate LexLess(s: string, t: string) {
    if s == [] then t != []
    else t != [] && (s[0] < t[0] || (s[0] == t[0] && LexLess(s[1..], t[1..])))
  }

  lemma {:induction false} LexIrreflexive(s: string)
    ensures !LexLess(s, s)
  {
    if s != [] {
      LexIrreflexive(s[1..]);
    }
  }

  /** Comparing two strings that start with equally long parts: the first
      parts decide unless they are equal. */
  lemma {:induction false} LexAppend(x: string, y: string, s: string, t: string)
    requires |x| == |y|
    ensures LexLess(x + s, y + t) <==> LexLess(x, y) || (x == y && LexLess(s, t))
  {
    if x == [] {
      assert x + s == s && y + t == t;
    } else {
      assert (x + s)[1..] == x[1..] + s;
      assert (y + t)[1..] == y[1..] + t;
      LexAppend(x[1..], y[1..], s, t);
      assert x == [x[0]] + x[1..] && y == [y[0]] + y[1..];
    }
  }

  /** Zero-padded numbers of one width compare as strings exactly as they
      compare as numbers. */
  lemma {:induction false} DigitsOrder(a: nat, b: nat, width: nat)
    requires a < Pow10(width) && b < Pow10(width)
    ensures Digits(a, width) == Digits(b, width) <==> a == b
    ensures LexLess(Digits(a, width), Digits(b, width)) <==> a < b
  {
    if width == 0 {
      LexIrreflexive([]);
    } else {
      var x, y := Digits(a / 10, width - 1), Digits(b / 10, width - 1);
      var c, d := DigitChar(a % 10), DigitChar(b % 10);
      DigitsOrder(a / 10, b / 10, width - 1);
      LexAppend(x, y, [c], [d]);
      assert LexLess([c], [d]) <==> c < d by {
        assert [c][1..] == [] && [d][1..] == [];
        LexIrreflexive([]);
      }
      if x + [c] == y + [d] {
        assert x == (x + [c])[..width - 1] && y == (y + [d])[..width - 1];
        assert c == (x + [c])[width - 1] && d == (y + [d])[width - 1];
      }
    }
  }

  /** Lines 190-194: for indices below 10000 the file names sort in the
      order of the frames. */
  lemma FrameNamesOrdered(place: string, a: nat, b: nat)
    requires a < Pow10(4) && b < Pow10(4)
    ensures LexLess(FrameFileName(place, a), FrameFileName(place, b)) <==> a < b
  {
    var p := FramePrefix(place);
    var fa, fb := FormatIndex(a), FormatIndex(b);
    assert FrameFileName(place, a) == (p + fa) + ".png";
    assert FrameFileName(place, b) == (p + fb) + ".png";
    LexAppend(p + fa, p + fb, ".png", ".png");
    LexIrreflexive(".png");
    LexAppend(p, p, fa, fb);
    LexIrreflexive(p);
    DigitsOrder(a, b, 4);
    if p + fa == p + fb {
      assert fa == (p + fa)[|p|..] && fb == (p + fb)[|p|..];
    }
  }

  // ---------------------------------------------------------------------
  // The frame state machine (lines 110-115, 124-155, 189-208)

  /** `[None] + all_minutes_starts` at position `k`. */
  function SelectedMinute(k: nat): (r: Option<int>)
    ensures r.None? <==> k == 0
    ensures r.Some? && k <= BinsPerDay ==> 0 <= r.value < 24 * 60 && r.value % MinutesStep == 0
  {
    if k == 0 then None else Some(MinutesStep * (k - 1))
  }

  /** Lines 124-126: the filter passed to `get_locations` for frame `k`:
      none for the baseline, the `k`-th 15-minute bin, both ends included,
      otherwise. */
  function FrameFilter(k: nat): (r: Option<MinuteRange>)
    ensures r.None? <==> k == 0
    ensures k > 0 ==> r.value == MinuteRange(MinutesStep * (k - 1), MinutesStep * k)
  {
    match SelectedMinute(k)
    case None => None
    case Some(m) => Some(MinuteRange(m, m + MinutesStep))
  }

  /** Both ends of a bin are kept, so a sample on the boundary minute of
      two adjacent bins is counted in both frames. */
  lemma AdjacentBinsShareBoundary(k: nat, minute: int)
    requires 1 <= k < BinsPerDay && minute == MinutesStep * k
    ensures PassesFilter(FrameFilter(k), minute) && PassesFilter(FrameFilter(k + 1), minute)
    ensures FrameFilter(k).value.hi == FrameFilter(k + 1).value.lo
  {
  }

  /** `quintiles`, `moving_average_frame`, `filenames` and the position in
      the frame list. */
  datatype FrameState = FrameState(
    breakpoints: Option<seq<real>>,
    average: Option<Matrix>,
    filenames: seq<string>,
    frameIdx: nat)

  const Initial: FrameState := FrameState(None, None, [], 0)

  /** What one frame derives from the samples alone, before it touches the
      loop's state: whether every sample was skipped (`processed ==
      skipped`), the placed map, the blurred map and the percentiles of the
      blurred map's non-zero values (which only the baseline frame uses);
      `None` when there is no non-zero value, where `np.percentile` of an
      empty selection raises. */
  datatype FrameInput = FrameInput(allSkipped: bool, placeMap: Matrix, blurred: Matrix, percentiles: Option<seq<real>>)

  /** Lines 117-141 for frame `k`; the blur and `np.percentile` are
      parameters. */
  function FrameData(samples: seq<Sample>, w: Window, k: nat,
                     blur: Matrix -> Matrix, percentile: seq<real> -> seq<real>): (r: FrameInput)
    requires Sizable(w)
    ensures IsShape(r.placeMap, Height(w), Width(w))
    ensures r.percentiles.None? <==> NonzeroValues(r.blurred) == []
  {
    var f := FrameFilter(k);
    var placeMap := PlaceMatrix(samples, w, f);
    var blurred := blur(placeMap);
    var selection := NonzeroValues(blurred);
    FrameInput(SkippedCount(samples, w, f, |samples|) == |samples|, placeMap, blurred,
               if selection == [] then None else Some(percentile(selection)))
  }

  /** The blur never changes the shape of the matrix. */
  ghost predicate BlurKeepsShape(blur: Matrix -> Matrix) {
    forall m :: SameShape(blur(m), m)
  }

  /** `np.percentile(values, bins)` yields 99 breakpoints in order for any
      non-empty selection. */
  ghost predicate PercentileSorted(percentile: seq<real> -> seq<real>) {
    forall v :: v != [] ==> |percentile(v)| == PercentileCount && Sorted(percentile(v))
  }

  /** The placed map has shape `h` by `wd` and the blur kept it. */
  predicate InputShaped(input: FrameInput, h: nat, wd: nat) {
    IsShape(input.placeMap, h, wd) && SameShape(input.blurred, input.placeMap)
  }

  /** The percentiles are 99 sorted values and a map with no placed sample
      lies in [0, 1]. */
  predicate InputWellFormed(input: FrameInput) {
    (input.percentiles.Some? ==>
       |input.percentiles.value| == PercentileCount && Sorted(input.percentiles.value)) &&
    (input.allSkipped ==> InUnit(input.placeMap))
  }

  /** The moving average, when set, has shape `h` by `wd`. */
  predicate AverageShaped(st: FrameState, h: nat, wd: nat) {
    st.average.Some? ==> IsShape(st.average.value, h, wd)
  }

  /** Breakpoints are 99 sorted values and the average lies in [0, 1]. */
  predicate WellFormed(st: FrameState) {
    (st.breakpoints.Some? ==> |st.breakpoints.value| == PercentileCount && Sorted(st.breakpoints.value)) &&
    (st.average.Some? ==> InUnit(st.average.value))
  }

  /** Every frame's maps have the window's shape. */
  lemma FrameDataShaped(samples: seq<Sample>, w: Window, k: nat,
                        blur: Matrix -> Matrix, percentile: seq<real> -> seq<real>)
    requires Sizable(w) && BlurKeepsShape(blur)
    ensures InputShaped(FrameData(samples, w, k, blur, percentile), Height(w), Width(w))
  {
    var m := PlaceMatrix(samples, w, FrameFilter(k));
    assert SameShape(blur(m), m);
  }

  /** Every frame's percentiles are sorted, and a frame with no placed
      sample draws the zero map. */
  lemma FrameDataWellFormed(samples: seq<Sample>, w: Window, k: nat,
                            blur: Matrix -> Matrix, percentile: seq<real> -> seq<real>)
    requires Sizable(w) && PercentileSorted(percentile)
    ensures InputWellFormed(FrameData(samples, w, k, blur, percentile))
  {
    var f := FrameFilter(k);
    var m := PlaceMatrix(samples, w, f);
    var selection := NonzeroValues(blur(m));
    if selection != [] {
      assert |percentile(selection)| == PercentileCount;
    }
    if SkippedCount(samples, w, f, |samples|) == |samples| {
      AllSkippedMeansZero(samples, w, f);
      assert InUnit(m);
    }
  }

  /** One iteration of the loop of lines 114-210 on the frame's input;
      `None` where the source raises: a frame that needs breakpoints before
      any were set, a baseline frame without a placed sample (`None * 96`,
      line 208) or without a non-zero blurred value (`np.percentile` of
      nothing, line 140), or an average and a frame of different shapes (line 153). */
  function NextState(st: FrameState, place: string, input: FrameInput): (r: Option<FrameState>)
    ensures r.Some? ==> r.value.frameIdx == st.frameIdx + 1
  {
    var k := st.frameIdx;
    var selected := SelectedMinute(k);
    var breaks := if !input.allSkipped && selected.None? then input.percentiles else st.breakpoints;
    if !input.allSkipped && breaks.None? then None
    else
      var drawn := if input.allSkipped then input.placeMap else Normalize(input.blurred, breaks.value);
      if st.average.Some? && !SameShape(st.average.value, drawn) then None
      else
        var avg := if st.average.None? then drawn else Blend(st.average.value, drawn);
        if selected.Some? then
          Some(FrameState(breaks, Some(avg), st.filenames + [FrameFileName(place, k)], k + 1))
        else if breaks.None? then None
        else Some(FrameState(Some(Rescale(breaks.value)), None, st.filenames, k + 1))
  }

  /** A frame of the window's shape keeps the average's shape. */
  lemma NextStateShape(st: FrameState, place: string, input: FrameInput, h: nat, wd: nat)
    requires InputShaped(input, h, wd) && AverageShaped(st, h, wd)
    ensures var r := NextState(st, place, input);
      r.Some? ==> AverageShaped(r.value, h, wd)
  {
  }

  /** The baseline frame: it fails exactly when no sample is placed or the
      blurred map has no non-zero value; otherwise it records no file name,
      leaves the average unset and the breakpoints are the percentiles
      rescaled by 96. */
  lemma BaselineFrame(st: FrameState, place: string, input: FrameInput, h: nat, wd: nat)
    requires InputShaped(input, h, wd) && AverageShaped(st, h, wd)
    requires st.frameIdx == 0 && st.breakpoints.None?
    ensures var r := NextState(st, place, input);
      && (r.Some? <==> !input.allSkipped && input.percentiles.Some?)
      && (r.Some? ==>
            r.value.filenames == st.filenames && r.value.average.None? &&
            r.value.breakpoints == Some(Rescale(input.percentiles.value)))
  {
  }

  /** A time frame: it fails only when it needs breakpoints and none were
      set; otherwise it appends its own file name and keeps the
      breakpoints. */
  lemma TimeFrame(st: FrameState, place: string, input: FrameInput, h: nat, wd: nat)
    requires InputShaped(input, h, wd) && AverageShaped(st, h, wd)
    requires st.frameIdx >= 1
    ensures var r := NextState(st, place, input);
      && (r.Some? <==> input.allSkipped || st.breakpoints.Some?)
      && (r.Some? ==>
            r.value.filenames == st.filenames + [FrameFileName(place, st.frameIdx)] &&
            r.value.breakpoints == st.breakpoints)
  {
  }

  /** The moving average of a time frame: the drawn matrix (the zero map
      when every sample is skipped, the normalised blurred map otherwise) is
      copied into an unset average and otherwise blended in. */
  lemma TimeFrameAverage(st: FrameState, place: string, input: FrameInput)
    requires st.frameIdx >= 1
    ensures var r := NextState(st, place, input);
      r.Some? ==>
        var drawn := if input.allSkipped then input.placeMap
          else Normalize(input.blurred, st.breakpoints.value);
        && (st.average.Some? ==> SameShape(st.average.value, drawn))
        && r.value.average == Some(if st.average.None? then drawn else Blend(st.average.value, drawn))
  {
  }

  /** With well-formed inputs, every frame keeps the breakpoints sorted
      and the moving average in [0, 1]. */
  lemma NextStateWellFormed(st: FrameState, place: string, input: FrameInput)
    requires InputWellFormed(input) && WellFormed(st)
    ensures var r := NextState(st, place, input);
      r.Some? ==> WellFormed(r.value)
  {
    var r := NextState(st, place, input);
    if r.Some? {
      var k := st.frameIdx;
      var breaks := if !input.allSkipped && k == 0 then input.percentiles else st.breakpoints;
      if !input.allSkipped {
        NormalizeInUnit(input.blurred, breaks.value);
      }
      if breaks.Some? {
        RescaleSorted(breaks.value);
      }
      if st.average.Some? {
        var drawn := if input.allSkipped then input.placeMap else Normalize(input.blurred, breaks.value);
        if SameShape(st.average.value, drawn) {
          BlendInUnit(st.average.value, drawn);
        }
      }
    }
  }

  /** The loop over the given frame inputs, in order. */
  function Run(place: string, inputs: seq<FrameInput>): (r: Option<FrameState>)
    ensures r.Some? ==> r.value.frameIdx == |inputs|
  {
    if inputs == [] then Some(Initial)
    else
      match Run(place, inputs[..|inputs| - 1])
      case None => None
      case Some(st) => NextState(st, place, inputs[|inputs| - 1])
  }

  /** The inputs of the first `n` frames. */
  function FrameInputs(samples: seq<Sample>, w: Window,
                       blur: Matrix -> Matrix, percentile: seq<real> -> seq<real>, n: nat): (r: seq<FrameInput>)
    requires Sizable(w)
    ensures |r| == n
  {
    if n == 0 then [] else FrameInputs(samples, w, blur, percentile, n - 1) + [FrameData(samples, w, n - 1, blur, percentile)]
  }

  /** One more frame of the run is one more step of the state machine. */
  lemma RunAppend(place: string, inputs: seq<FrameInput>, input: FrameInput)
    ensures Run(place, inputs + [input]) ==
      match Run(place, inputs)
      case None => None
      case Some(st) => NextState(st, place, input)
  {
    assert (inputs + [input])[..|inputs|] == inputs;
  }

  /** A failed frame ends the run: every longer run fails too. */
  lemma {:induction false} RunFailedPrefix(place: string, inputs: seq<FrameInput>, k: nat)
    requires k <= |inputs|
    requires Run(place, inputs[..k]).None?
    ensures Run(place, inputs).None?
    decreases |inputs| - k
  {
    if k < |inputs| {
      RunAppend(place, inputs[..k], inputs[k]);
      assert inputs[..k] + [inputs[k]] == inputs[..k + 1];
      RunFailedPrefix(place, inputs, k + 1);
    } else {
      assert inputs[..k] == inputs;
    }
  }

  /** With frames of one shape, every state the loop reaches has an
      average of that shape, so the shape check never fails. */
  lemma {:induction false} RunShape(place: string, inputs: seq<FrameInput>, h: nat, wd: nat)
    requires forall i :: 0 <= i < |inputs| ==> InputShaped(inputs[i], h, wd)
    ensures var r := Run(place, inputs);
      r.Some? ==> AverageShaped(r.value, h, wd)
  {
    if inputs != [] {
      var front := inputs[..|inputs| - 1];
      RunShape(place, front, h, wd);
      var prev := Run(place, front);
      if prev.Some? {
        NextStateShape(prev.value, place, inputs[|inputs| - 1], h, wd);
      }
    }
  }

  /** With well-formed frames, every state the loop reaches keeps sorted
      breakpoints and an average in [0, 1]. */
  lemma {:induction false} RunWellFormed(place: string, inputs: seq<FrameInput>)
    requires forall i :: 0 <= i < |inputs| ==> InputWellFormed(inputs[i])
    ensures var r := Run(place, inputs);
      r.Some? ==> WellFormed(r.value)
  {
    if inputs != [] {
      var front := inputs[..|inputs| - 1];
      RunWellFormed(place, front);
      var prev := Run(place, front);
      if prev.Some? {
        NextStateWellFormed(prev.value, place, inputs[|inputs| - 1]);
      }
    }
  }

  lemma FrameNamesStep(place: string, n: nat)
    ensures FrameNames(place, n + 1) == FrameNames(place, n) + [FrameFileName(place, n + 1)]
  {
  }

  /** A time frame appended to a run that has passed its baseline frame:
      it succeeds exactly when the run so far did, and then records its own
      file name and keeps the breakpoints set. */
  lemma TimeFrameRun(place: string, front: seq<FrameInput>, last: FrameInput, h: nat, wd: nat)
    requires 1 <= |front| && InputShaped(last, h, wd)
    requires Run(place, front).Some? ==>
      AverageShaped(Run(place, front).value, h, wd) &&
      Run(place, front).value.filenames == FrameNames(place, |front| - 1) &&
      Run(place, front).value.breakpoints.Some?
    ensures var r := Run(place, front + [last]);
      && (r.Some? <==> Run(place, front).Some?)
      && (r.Some? ==> r.value.filenames == FrameNames(place, |front|) && r.value.breakpoints.Some?)
  {
    RunAppend(place, front, last);
    var prev := Run(place, front);
    if prev.Some? {
      TimeFrame(prev.value, place, last, h, wd);
      FrameNamesStep(place, |front| - 1);
    }
  }

  /** After the baseline and `|inputs| - 1` time frames of one shape: the
      run fails exactly when the baseline frame places no sample or its
      blurred map has no non-zero value; otherwise the file names are those of the time frames and the breakpoints are
      set. */
  lemma {:induction false} RunCharacterized(place: string, inputs: seq<FrameInput>, h: nat, wd: nat)
    requires 1 <= |inputs|
    requires forall i :: 0 <= i < |inputs| ==> InputShaped(inputs[i], h, wd)
    ensures var r := Run(place, inputs);
      && (r.Some? <==> !inputs[0].allSkipped && inputs[0].percentiles.Some?)
      && (r.Some? ==> r.value.filenames == FrameNames(place, |inputs| - 1) && r.value.breakpoints.Some?)
  {
    var front := inputs[..|inputs| - 1];
    var last := inputs[|inputs| - 1];
    assert front + [last] == inputs;
    if |inputs| == 1 {
      RunAppend(place, front, last);
      BaselineFrame(Initial, place, last, h, wd);
    } else {
      assert front[0] == inputs[0];
      RunCharacterized(place, front, h, wd);
      RunShape(place, front, h, wd);
      TimeFrameRun(place, front, last, h, wd);
    }
  }

  /** Frame `k` of a run is the frame computed from the samples for `k`. */
  lemma {:induction false} FrameInputsAt(samples: seq<Sample>, w: Window,
                                         blur: Matrix -> Matrix, percentile: seq<real> -> seq<real>, n: nat, k: nat)
    requires Sizable(w) && k < n
    ensures FrameInputs(samples, w, blur, percentile, n)[k] == FrameData(samples, w, k, blur, percentile)
  {
    var front := FrameInputs(samples, w, blur, percentile, n - 1);
    var last := FrameData(samples, w, n - 1, blur, percentile);
    assert FrameInputs(samples, w, blur, percentile, n) == front + [last];
    if k < n - 1 {
      FrameInputsAt(samples, w, blur, percentile, n - 1, k);
      assert (front + [last])[k] == front[k];
    }
  }

  /** The first `k` of `n` frames are the run of `k` frames. */
  lemma {:induction false} FrameInputsPrefix(samples: seq<Sample>, w: Window,
                                             blur: Matrix -> Matrix, percentile: seq<real> -> seq<real>, k: nat, n: nat)
    requires Sizable(w) && k <= n
    ensures FrameInputs(samples, w, blur, percentile, n)[..k] == FrameInputs(samples, w, blur, percentile, k)
    decreases n
  {
    if k < n {
      FrameInputsPrefix(samples, w, blur, percentile, k, n - 1);
      var front := FrameInputs(samples, w, blur, percentile, n - 1);
      assert FrameInputs(samples, w, blur, percentile, n)[..k] == front[..k];
    }
  }

  /** The whole loop over the samples: all `n` frames succeed exactly
      when the baseline frame places a sample and its blurred map has a
      non-zero value, and then the names of
      frames 1 to `n - 1` are recorded. */
  lemma RunOutcome(place: string, samples: seq<Sample>, w: Window,
                   blur: Matrix -> Matrix, percentile: seq<real> -> seq<real>, n: nat)
    requires Sizable(w) && BlurKeepsShape(blur) && 1 <= n
    ensures var r := Run(place, FrameInputs(samples, w, blur, percentile, n));
      && (r.Some? <==> SkippedCount(samples, w, None, |samples|) < |samples|
                       && NonzeroValues(blur(PlaceMatrix(samples, w, None))) != [])
      && (r.Some? ==> r.value.filenames == FrameNames(place, n - 1))
  {
    var inputs := FrameInputs(samples, w, blur, percentile, n);
    forall i | 0 <= i < n
      ensures InputShaped(inputs[i], Height(w), Width(w))
    {
      FrameInputsAt(samples, w, blur, percentile, n, i);
      FrameDataShaped(samples, w, i, blur, percentile);
    }
    FrameInputsAt(samples, w, blur, percentile, n, 0);
    SkippedSplit(samples, w, None, |samples|);
    RunCharacterized(place, inputs, Height(w), Width(w));
  }

  /** With sorted percentiles, every state the loop over the samples
      reaches keeps sorted breakpoints and an average in [0, 1]. */
  lemma RunOverSamplesWellFormed(place: string, samples: seq<Sample>, w: Window,
                                 blur: Matrix -> Matrix, percentile: seq<real> -> seq<real>, n: nat)
    requires Sizable(w) && PercentileSorted(percentile)
    ensures var r := Run(place, FrameInputs(samples, w, blur, percentile, n));
      r.Some? ==> WellFormed(r.value)
  {
    var inputs := FrameInputs(samples, w, blur, percentile, n);
    forall i | 0 <= i < n
      ensures InputWellFormed(inputs[i])
    {
      FrameInputsAt(samples, w, blur, percentile, n, i);
      FrameDataWellFormed(samples, w, i, blur, percentile);
    }
    RunWellFormed(place, inputs);
  }

  /** Lines 117-130 for frame `k`: the placed map, read back from the
      array `get_locations` fills, and whether every sample was skipped. */
  method LocateFrame(samples: seq<Sample>, window: Window, k: nat,
                     blur: Matrix -> Matrix, percentile: seq<real> -> seq<real>)
    returns (allSkipped: bool, placeMap: Matrix)
    requires Sizable(window)
    ensures var input := FrameData(samples, window, k, blur, percentile);
      allSkipped == input.allSkipped && placeMap == input.placeMap
  {
    var placeMatrix, processed, skipped := GetLocations(samples, window, FrameFilter(k));
    placeMap := ToMatrix(placeMatrix);
    MatrixExtensionality(placeMap, PlaceMatrix(samples, window, FrameFilter(k)));
    allSkipped := processed == skipped;
  }

  /** The mutable locals of `main` that live across frames. */
  class FrameSequencer {
    const placeName: string
    const window: Window
    var breakpoints: Option<seq<real>>
    var average: Option<Matrix>
    var filenames: seq<string>
    var frameIdx: nat

    function State(): FrameState
      reads this
    {
      FrameState(breakpoints, average, filenames, frameIdx)
    }

    /** Lines 110-112. */
    constructor(placeName: string, window: Window)
      ensures this.placeName == placeName && this.window == window
      ensures State() == Initial
    {
      this.placeName := placeName;
      this.window := window;
      breakpoints := None;
      average := None;
      filenames := [];
      frameIdx := 0;
    }

    /** One iteration of lines 114-210; `false` where the source raises,
        in which case the state is left as it was. */
    method Step(samples: seq<Sample>, blur: Matrix -> Matrix, percentile: seq<real> -> seq<real>)
      returns (ok: bool)
      requires Sizable(window)
      modifies this
      ensures var next := NextState(old(State()), placeName, FrameData(samples, window, old(frameIdx), blur, percentile));
        && ok == next.Some?
        && (ok ==> State() == next.value)
        && (!ok ==> State() == old(State()))
    {
      var selected := SelectedMinute(frameIdx);
      var allSkipped, placeMap := LocateFrame(samples, window, frameIdx, blur, percentile);
      var blurred := blur(placeMap);
      var breaks := breakpoints;
      var drawn: Matrix;
      if allSkipped {
        drawn := placeMap;
      } else {
        if selected.None? {
          var selection := NonzeroValues(blurred);
          if selection == [] {
            return false;
          }
          breaks := Some(percentile(selection));
        }
        if breaks.None? {
          return false;
        }
        drawn := Normalize(blurred, breaks.value);
      }
      if average.Some? && !SameShape(average.value, drawn) {
        return false;
      }
      var avg := if average.None? then drawn else Blend(average.value, drawn);
      if selected.Some? {
        filenames := filenames + [FrameFileName(placeName, frameIdx)];
        average := Some(avg);
      } else {
        if breaks.None? {
          return false;
        }
        average := None;
        breaks := Some(Rescale(breaks.value));
      }
      breakpoints := breaks;
      frameIdx := frameIdx + 1;
      ok := true;
    }
  }

  /** One more frame of the loop, stated against the frames run so far. */
  method AdvanceRun(sequencer: FrameSequencer, placeName: string, samples: seq<Sample>, window: Window,
                    blur: Matrix -> Matrix, percentile: seq<real> -> seq<real>, ghost k: nat)
    returns (ok: bool)
    requires Sizable(window)
    requires sequencer.placeName == placeName && sequencer.window == window
    requires Run(placeName, FrameInputs(samples, window, blur, percentile, k)) == Some(sequencer.State())
    modifies sequencer
    ensures var r := Run(placeName, FrameInputs(samples, window, blur, percentile, k + 1));
      && (ok <==> r.Some?)
      && (ok ==> r == Some(sequencer.State()))
  {
    RunAppend(placeName, FrameInputs(samples, window, blur, percentile, k), FrameData(samples, window, k, blur, percentile));
    ok := sequencer.Step(samples, blur, percentile);
  }

  /** The first `n` frames on the sequencer, stopping at the first frame
      that fails, as the source stops at the first exception. */
  method RunFrames(sequencer: FrameSequencer, placeName: string, samples: seq<Sample>, window: Window,
                   blur: Matrix -> Matrix, percentile: seq<real> -> seq<real>, n: nat)
    returns (ok: bool)
    requires Sizable(window)
    requires sequencer.placeName == placeName && sequencer.window == window
    requires sequencer.State() == Initial
    modifies sequencer
    ensures var r := Run(placeName, FrameInputs(samples, window, blur, percentile, n));
      && (ok <==> r.Some?)
      && (ok ==> r == Some(sequencer.State()))
  {
    for k := 0 to n
      invariant sequencer.placeName == placeName && sequencer.window == window
      invariant Run(placeName, FrameInputs(samples, window, blur, percentile, k)) == Some(sequencer.State())
    {
      var stepOk := AdvanceRun(sequencer, placeName, samples, window, blur, percentile, k);
      if !stepOk {
        FrameInputsPrefix(samples, window, blur, percentile, k + 1, n);
        RunFailedPrefix(placeName, FrameInputs(samples, window, blur, percentile, n), k + 1);
        return false;
      }
    }
    return true;
  }

  /** Lines 102-210 without the drawing: the run succeeds exactly when the
      baseline frame places a sample and its blurred map has a non-zero
      value, and then records the names of the 96
      time frames in order. */
  method RenderFrames(placeName: string, samples: seq<Sample>, window: Window,
                      blur: Matrix -> Matrix, percentile: seq<real> -> seq<real>)
    returns (ok: bool, filenames: seq<string>)
    requires Sizable(window) && BlurKeepsShape(blur)
    ensures ok <==> SkippedCount(samples, window, None, |samples|) < |samples|
                    && NonzeroValues(blur(PlaceMatrix(samples, window, None))) != []
    ensures ok ==> filenames == FrameNames(placeName, BinsPerDay)
  {
    var sequencer := new FrameSequencer(placeName, window);
    ok := RunFrames(sequencer, placeName, samples, window, blur, percentile, FrameCount);
    RunOutcome(placeName, samples, window, blur, percentile, FrameCount);
    filenames := if ok then sequencer.filenames else [];
  }
}
