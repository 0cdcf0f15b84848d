# Location history heatmaps, modelled in Dafny

This project models the computational core of a tool that turns a Google
Takeout location history into maps. The tool has two programs.

- `location_to_geojson.py` reads Semantic Location History files. For each
  file it does three things:
  - it decodes every activity segment's waypoints (two historical E7 key
    formats);
  - it groups the activities by type;
  - it counts, per type, the cells of a 10^-3-degree grid that the
    activities touch. Walking, cycling and running paths are interpolated
    and counted once per path. Other activities count every waypoint.

  It then folds every file's grid into running totals, per type and under
  the extra key "ALL".
- `process.py` bins location samples into the pixels of a bounding box
  (`get_locations`). Each sample adds a time weight. The program then runs
  97 frames: one baseline frame over all samples and one frame per
  15-minute bin of the day. A frame in which every sample is skipped draws
  its all-zero map as it is. Any other frame is blurred and normalised by
  percentile breakpoints taken from the baseline. Each time frame is then
  blended into a moving average, and its file name is recorded.

Modules:

- `Wrappers`: `Option` and `Result`.
- `Numeric`: Python's `round` (half to even), Python's `int()` on a real
  (truncation toward zero), and powers of ten.
- `Records`: points, activities, the raw JSON shapes, waypoint decoding and
  `read_file`.
- `ActivityGrids`: the cell of a point, interpolated paths and
  `activity_grid`.
- `Totals`: merging one file's grid into the totals, and the loop over
  files.
- `Heatmap`: `get_locations`, as a method that fills an `array2<real>`.
- `Frames`: normalisation, the moving average, breakpoint rescaling, frame
  file names, and the frame loop of `main`.

The frame loop is written in three layers:

1. a pure state machine (`NextState`, `Run`) over the per-frame inputs
   (`FrameData`);
2. a class `FrameSequencer` that holds the loop's mutable locals;
3. the method `RenderFrames`, which drives the class.

Each method is proved equal to its specification function, and the
properties are proved about those functions.

Behaviours the model keeps exactly as the code has them:

- A cell seen for the first time in `activity_grid` gets count 2, not 1
  (lines 92-94 and 108-110).
- When the totals are merged, a key that is new to a map gets twice the
  file's count (lines 129-135).
- "ALL" is one shared map, so a cell's "ALL" count depends on which type
  reaches it first. A type literally named "ALL" is updated twice per cell.
- The weight of a placed sample is its timestamp minus the next sample's
  timestamp, divided by 60000. That weight is negative for chronologically
  ordered data.
- The minute filter keeps both ends of its range. A sample on a bin
  boundary therefore counts in both adjacent frames.
- If the baseline frame places no sample, the code multiplies `None` by 96
  and raises. The model treats this as a failed run.
- If the baseline frame places samples but its blurred map has no non-zero
  value, `np.percentile` is given an empty selection. The model treats
  this as a failed run too.

## Model

| member | source | states |
|---|---|---|
| Numeric.RoundHalfEven | location_to_geojson.py:89-90 | Python's `round`: the result is within 0.5 of the argument, and ties go to the even integer |
| Numeric.RoundHalfEvenUnique | location_to_geojson.py:89-90 | any integer within 0.5 that is even on ties is the rounded value, so the rounding is fully determined |
| Numeric.RoundOfInteger | process.py:71-72 | rounding an integer gives it back |
| Numeric.TruncToInt | process.py:55-56 | Python's `int()` on a real truncates toward zero, for both signs |
| Records.E7RoundTrip | location_to_geojson.py:49-50 | dividing an E7 integer by 1e7 loses nothing: the integer can be recovered |
| Records.DecodeWaypoint | location_to_geojson.py:46-63 | a waypoint decodes exactly when it has both new-format keys, or no `latE7` and both old-format keys; the accuracy is carried over; with neither latitude key it raises "Unknown waypoint format"; a `latE7` without `lngE7` raises a missing-key error for `lngE7`; an old-format waypoint without `longitudeE7` raises one for `longitudeE7` |
| Records.DecodeEitherFormat | location_to_geojson.py:46-61 | both formats decode to the same point; its coordinates times 1e7 are exactly the given E7 integers, and the accuracy is the one given |
| Records.NewKeysWin | location_to_geojson.py:46-54 | when `latE7` is present, the old-format keys are ignored |
| Records.DecodeAll | location_to_geojson.py:44-63 | a successful decode gives one point per waypoint |
| Records.DecodeAllCharacterized | location_to_geojson.py:44-63 | a segment's waypoints decode exactly when each one does; the i-th point is the i-th waypoint decoded; on failure the error is that of the first failing waypoint |
| Records.DecodeAllFailedPrefix | location_to_geojson.py:62-63 | after a failing waypoint, later waypoints do not change the result |
| Records.DecodePoints | location_to_geojson.py:44-63 | the loop over waypoints computes the decoded list (or the first error) |
| Records.Choose | location_to_geojson.py:29-43 | an event is used exactly when it has a segment, an activity type and one of the two paths; the type is the segment's; `simplifiedRawPath` and its `points` list are taken when present, otherwise `waypointPath` and its `waypoints` list |
| Records.ReadStep | location_to_geojson.py:29-69 | a skipped event changes nothing; a used segment without its list raises a missing-key error naming `points` or `waypoints`; no type is removed; the type order stays duplicate-free and matches the keys |
| Records.ReadSpec | location_to_geojson.py:25-70 | a successful read gives a duplicate-free type order that matches the keys |
| Records.AddActivity | location_to_geojson.py:66-69 | appending an activity adds its type if it is new (as `[a]`), otherwise appends to that type's list, and leaves every other type alone; a new type goes at the end of the type order and an existing one leaves the order unchanged; the order stays duplicate-free and matches the keys |
| Records.ReadSpecFailedPrefix | location_to_geojson.py:25-70 | an exception at one event ends the read: later events do not change the result |
| Records.ReadFile | location_to_geojson.py:25-70 | the loop over events computes the specification of `read_file` |
| Records.ReadFileGroupsByType | location_to_geojson.py:25-70 | after a successful read, a type is a key exactly when some used segment has it; its list holds one activity per such segment, in file order, with that segment's waypoints decoded |
| Records.ReadFileFailsIff | location_to_geojson.py:37-63 | the read fails exactly when some used segment lacks its waypoint list or has a waypoint that does not decode |
| Records.ReadFileTypeOrder | location_to_geojson.py:29-69 | the type order of a successful read is the order in which each type first appears on a used segment that has its waypoint list |
| ActivityGrids.Quantize | location_to_geojson.py:88-91 | a rounded coordinate is a whole number of 10^-p units and lies within half a unit of the original |
| ActivityGrids.QuantizeIdempotent | location_to_geojson.py:88-91 | rounding an already rounded coordinate again changes nothing |
| ActivityGrids.CellOfNearest | location_to_geojson.py:88-91 | each coordinate of a point's cell is the integer nearest the scaled coordinate, ties going to the even one |
| ActivityGrids.CellKeyIsRoundedPoint | location_to_geojson.py:88-91 | the model's integer cell is exactly the source's rounded `Point` key |
| ActivityGrids.CellKeyInjective | location_to_geojson.py:88-91 | two cells give equal `Point` keys only if they are the same cell |
| ActivityGrids.CellKeyRoundTrip | location_to_geojson.py:88-91 | rounding a cell's `Point` key gives back the cell |
| ActivityGrids.SampleEndpoints | location_to_geojson.py:99-101 | sample 0 is the first point and sample 3 would be the second; samples 0 to 3 lie between the two points in each coordinate |
| ActivityGrids.PathCells | location_to_geojson.py:96-97 | a path of fewer than two points visits no cell |
| ActivityGrids.PairCellsCharacterized | location_to_geojson.py:99-106 | a cell is visited by a pair of waypoints exactly when one of its first k interpolation samples falls in it |
| ActivityGrids.PathCellsComplete | location_to_geojson.py:97-106 | each sample of each consecutive pair lands in a visited cell |
| ActivityGrids.PathCellsSound | location_to_geojson.py:96-106 | every visited cell is the cell of some sample of some pair |
| ActivityGrids.PathCellsCharacterized | location_to_geojson.py:96-106 | the visited set holds exactly the cells of samples 0, 1 and 2 of every consecutive pair; a path with fewer than two points visits nothing |
| ActivityGrids.PathHoldsItsPoints | location_to_geojson.py:97-106 | the cell of every waypoint but the last is visited |
| ActivityGrids.CountPoints | location_to_geojson.py:87-94 | counting points never drops a cell, and counts of at least 2 stay at least 2 |
| ActivityGrids.BumpSet | location_to_geojson.py:107-110 | the keys become the old keys plus the visited set; a visited cell gains 1, or gets 2 when new; other cells keep their counts |
| ActivityGrids.BumpSetStep | location_to_geojson.py:107-110 | incrementing a set of cells one cell at a time gives the same map |
| ActivityGrids.ApplyActivity | location_to_geojson.py:86-110 | one activity never drops a cell and keeps every count at least 2 |
| ActivityGrids.TypeGrid | location_to_geojson.py:82-110 | every count stored for a type is at least 2 |
| ActivityGrids.GridOf | location_to_geojson.py:73-112 | the grid keeps the collection's type order and has one map per type |
| ActivityGrids.GridCountsAtLeastTwo | location_to_geojson.py:92-110 | no cell of any type's grid holds a count below 2 |
| ActivityGrids.OccurrencesAppend | location_to_geojson.py:87 | the number of points in a cell adds up over concatenated point lists |
| ActivityGrids.CountPointsCounts | location_to_geojson.py:87-94 | counting points keeps the old keys, adds the cells that occur, and gives 1 (or the old count) plus the number of occurrences |
| ActivityGrids.NonExemptCounts | location_to_geojson.py:86-94 | for a type other than walking, cycling and running, a cell is present exactly when some waypoint falls in it, and its count is 1 plus the number of such waypoints |
| ActivityGrids.ExemptCounts | location_to_geojson.py:95-110 | for walking, cycling and running, a cell is present exactly when some path visits it, and its count is 1 plus the number of paths that visit it |
| ActivityGrids.CountActivityPoints | location_to_geojson.py:87-94 | the loop over an activity's points computes the counted map |
| ActivityGrids.VisitPath | location_to_geojson.py:96-106 | the nested loops compute the visited set of the path |
| ActivityGrids.CountVisited | location_to_geojson.py:107-110 | the loop over the visited set increments each visited cell once |
| ActivityGrids.CountVisitedStep | location_to_geojson.py:108-110 | one iteration of that loop is one increment of the specification |
| ActivityGrids.ActivityGrid | location_to_geojson.py:73-112 | `activity_grid` keeps the input's type order and keys and computes every type's cell counts |
| ActivityGrids.WalkingExample | location_to_geojson.py:96-110 | a two-point walk of 0.003 degrees visits three cells, each counted 2 |
| ActivityGrids.StationaryExample | location_to_geojson.py:86-94 | two nearby waypoints of a stationary activity land in one cell counted 3 |
| Totals.AddCountsNone | location_to_geojson.py:128 | merging no cells changes nothing |
| Totals.MergeCellsNone | location_to_geojson.py:128 | merging no cells of a type leaves the totals unchanged |
| Totals.AddCountsStep | location_to_geojson.py:128-131 | merging cells one at a time is one update per cell |
| Totals.AddCountsTwiceStep | location_to_geojson.py:128-135 | for a type named "ALL", each cell updates the same map twice |
| Totals.MergeCellsStep | location_to_geojson.py:128-135 | each cell updates the type's map and then the "ALL" map |
| Totals.MergeType | location_to_geojson.py:125-135 | merging one type adds its key to the totals and no other key |
| Totals.MergeGrid | location_to_geojson.py:125-135 | merging a file's grid adds exactly its types as keys |
| Totals.AddCellCounts | location_to_geojson.py:129-135 | the set-then-add steps for one cell compute both map updates |
| Totals.MergeTypeCells | location_to_geojson.py:126-135 | the loop over one type's cells computes the merge of that type |
| Totals.MergeFile | location_to_geojson.py:125-135 | the loop over a grid's types, in dict order, computes the merge of the grid |
| Totals.MergeTypeShape | location_to_geojson.py:126-135 | merging a type other than "ALL" changes that type's map and the "ALL" map, and no other |
| Totals.MergeTypeEffect | location_to_geojson.py:126-135 | per cell: a merged key gains the file's count, or gets twice it when new, in both the type's map and "ALL"; unmerged cells and other types keep their counts |
| Totals.TouchesStep | location_to_geojson.py:125-128 | a cell is touched by a list of types exactly when a prefix touches it or the last type has it |
| Totals.MergeGridAll | location_to_geojson.py:125-135 | the "ALL" entry of a cell: present exactly when it was or some type has it; an old entry gains the sum over the types; a new entry gets that sum plus the count of the first type in dict order that has it |
| Totals.MergeGridPerType | location_to_geojson.py:125-131 | with distinct types, a type's map after the merge is its old map with that file's counts merged in; types not in the file keep their map |
| Totals.AllDependsOnTypeOrder | location_to_geojson.py:125-135 | one cell with counts 1 and 2 in two types gives "ALL" 4 in one type order and 5 in the other |
| Totals.AggregateSpec | location_to_geojson.py:119-135 | the totals always keep the "ALL" key |
| Totals.AggregateFailedPrefix | location_to_geojson.py:121-124 | a file that fails to read ends the run: later files change nothing |
| Totals.AggregateStep | location_to_geojson.py:119-135 | one more file either ends the run with its read error or folds its grid into the totals |
| Totals.AggregateFiles | location_to_geojson.py:119-135 | the loop over files (read, grid, merge) computes the specification |
| Heatmap.DimensionsTruncate | process.py:55-56 | the height and width truncate the ratios toward zero: a non-negative ratio is floored, and a ratio in (-1, 0) gives 0 |
| Heatmap.FloorOfRatio | process.py:55-56 | for non-negative numerators, the floor of the true quotient is integer division |
| Heatmap.HeightIsFloorDiv | process.py:55-57 | for a box with a positive scaling factor, the matrix is (y1-y0) div s by (x1-x0) div s |
| Heatmap.PixelNearest | process.py:71-72 | a sample's column and row are the integers nearest its scaled offsets, ties going to the even one |
| Heatmap.PassesFilter | process.py:64-70 | a sample is dropped by the filter exactly when a filter is given and its minute is below the lower or above the upper end |
| Heatmap.CellWeight | process.py:59-83 | a position outside the matrix receives no weight |
| Heatmap.SkippedCount | process.py:61-75 | the skipped count never exceeds the number of samples processed |
| Heatmap.PlaceMatrix | process.py:57-59 | the heat map has the box's height and width |
| Heatmap.SkippedSplit | process.py:61-75 | the skipped count is those rejected by the minute filter plus those outside the box, and never exceeds the processed count |
| Heatmap.AllSkippedIff | process.py:61-75 | every sample is skipped exactly when none is placed in the matrix |
| Heatmap.UnvisitedPixelIsZero | process.py:59-83 | a pixel that no placed sample maps to stays 0 |
| Heatmap.AllSkippedMeansZero | process.py:59-132 | when every sample is skipped, the map drawn is all zeros |
| Heatmap.UpperEdgeExcluded | process.py:71-75 | a sample exactly on the box's top or right edge falls outside the matrix |
| Heatmap.WeightSign | process.py:77-83 | the last sample weighs 1; any other weighs less than 0 exactly when the next sample is later, and 0 exactly when both share a timestamp |
| Heatmap.GetLocations | process.py:55-85 | `get_locations` returns a fresh matrix of the box's size, processes every sample, counts the skipped ones, and each pixel holds the sum of the weights of the samples placed on it |
| Frames.ToMatrix | process.py:117-127 | reading the array back keeps its shape and every entry |
| Frames.MatrixExtensionality | process.py:117-127 | two matrices of one shape with equal entries are equal |
| Frames.CountBelow | process.py:142-143 | the insertion point never exceeds the number of breakpoints |
| Frames.CountBelowIsInsertionPoint | process.py:142-143 | on sorted breakpoints, `searchsorted` returns the point before which every breakpoint is below the value and from which every one is at least the value |
| Frames.CountBelowMonotone | process.py:142-143 | a larger value never gets a smaller insertion point |
| Frames.Normalize | process.py:142-143 | normalisation keeps the matrix's shape |
| Frames.NormalizeInUnit | process.py:142-143 | with 99 breakpoints every normalised value lies in [0, 1] |
| Frames.NormalizeMonotone | process.py:142-143 | normalisation preserves the order of any two pixels |
| Frames.NonzeroRowCounts | process.py:136-141 | filtering a row keeps each non-zero value as often as the row holds it, and no zero |
| Frames.NonzeroRowAppend | process.py:136-141 | filtering distributes over concatenation, so the filter keeps its input's order |
| Frames.NonzeroValuesCounts | process.py:136-141 | the values handed to the percentile hold each non-zero entry of the flattened map as often as it occurs, and no zero |
| Frames.NonzeroValuesRowMajor | process.py:136-141 | the selection is the non-zero entries of the flattened map in row-major order |
| Frames.NonzeroEntrySelected | process.py:136-141 | every non-zero pixel of the blurred map is among the selected values |
| Frames.FlattenHoldsEntries | process.py:136 | every entry of the matrix is in the flattened array |
| Frames.Blend | process.py:152-155 | the blended average has the frame's shape |
| Frames.BlendBetween | process.py:152-155 | each blended value lies between the old average and the new frame |
| Frames.BlendInUnit | process.py:152-155 | blending two maps in [0, 1] stays in [0, 1] |
| Frames.Rescale | process.py:208 | rescaling keeps the number of breakpoints |
| Frames.RescaleSorted | process.py:208 | rescaling by 96 keeps the breakpoints sorted |
| Frames.RescaledInsertionPoint | process.py:204-208 | a value 96 times larger has the same insertion point among the rescaled breakpoints |
| Frames.Digits | process.py:193-194 | zero-padding gives exactly the requested width |
| Frames.FormatIndex | process.py:194 | `{:04}` gives at least four characters, and exactly four for indices below 10000 |
| Frames.FrameFileName | process.py:193-194 | a frame's name starts with the place's prefix, ends in `.png`, and has at least four index digits, exactly four below 10000 |
| Frames.FrameNames | process.py:189-196 | n time frames record n names |
| Frames.DigitsOrder | process.py:190-194 | zero-padded numbers of one width are equal exactly when the numbers are, and sort as strings exactly as the numbers do |
| Frames.FrameNamesOrdered | process.py:189-196 | frame file names sort lexicographically in frame order |
| Frames.LexIrreflexive | process.py:190-192 | no string sorts before itself |
| Frames.LexAppend | process.py:190-194 | for equal-length prefixes, the prefixes decide the order unless they are equal |
| Frames.SelectedMinute | process.py:107-115 | frame 0 has no minute; frame k of 1 to 96 starts at minute 15(k-1), a multiple of 15 within the day |
| Frames.FrameFilter | process.py:124-126 | the baseline has no filter; frame k of 1 to 96 keeps minutes 15(k-1) to 15k, both ends included |
| Frames.AdjacentBinsShareBoundary | process.py:67-126 | a sample on the boundary minute of two adjacent bins passes both filters |
| Frames.FrameData | process.py:117-141 | the placed map has the box's shape; the percentiles are absent exactly when the blurred map has no non-zero value |
| Frames.FrameDataShaped | process.py:117-135 | with a shape-keeping blur, each frame's maps have the box's shape |
| Frames.FrameDataWellFormed | process.py:130-141 | with sorted percentiles, each frame's breakpoints are 99 sorted values, and a frame with no placed sample draws only zeros |
| Frames.NextState | process.py:114-210 | each successful iteration advances the frame index by one |
| Frames.NextStateShape | process.py:149-155 | a frame of the box's shape keeps the moving average in that shape |
| Frames.BaselineFrame | process.py:130-208 | the baseline frame fails exactly when no sample is placed or the blurred map has no non-zero value; otherwise it records no name, clears the average, and sets the breakpoints to the percentiles times 96 |
| Frames.TimeFrame | process.py:130-196 | a time frame fails only when it needs breakpoints and none are set; otherwise it appends its own file name and keeps the breakpoints |
| Frames.TimeFrameAverage | process.py:128-155 | a time frame draws the zero map (every sample skipped) or the normalised blurred map, copies it into an empty average and otherwise blends it in |
| Frames.NextStateWellFormed | process.py:140-208 | every frame keeps the breakpoints 99 sorted values and the average in [0, 1] |
| Frames.Run | process.py:114-115 | a successful run of n frames ends at frame index n |
| Frames.FrameInputs | process.py:114-126 | a run of n frames has n inputs |
| Frames.RunAppend | process.py:114-115 | one more frame is one more step of the state machine |
| Frames.RunFailedPrefix | process.py:114-210 | a failed frame ends the run: every longer run fails too |
| Frames.RunShape | process.py:149-155 | every state reached keeps the average in the box's shape |
| Frames.RunWellFormed | process.py:114-210 | every state reached keeps sorted breakpoints and an average in [0, 1] |
| Frames.TimeFrameRun | process.py:189-196 | a time frame after the baseline succeeds exactly when the run so far did, and extends the names by its own |
| Frames.RunCharacterized | process.py:114-210 | after the baseline and n-1 time frames: the run fails exactly when the baseline places no sample or its blurred map has no non-zero value; otherwise the names are those of frames 1 to n-1 and the breakpoints are set |
| Frames.FrameInputsAt | process.py:114-126 | the k-th input of a run is frame k computed from the samples |
| Frames.FrameInputsPrefix | process.py:114-115 | the first k of n frames are the run of k frames |
| Frames.RunOutcome | process.py:102-210 | over the samples, the run succeeds exactly when the baseline places a sample and its blurred map has a non-zero value, and then records the names of frames 1 to n-1 |
| Frames.RunOverSamplesWellFormed | process.py:102-210 | with sorted percentiles, every state of the run over the samples keeps sorted breakpoints and an average in [0, 1] |
| Frames.LocateFrame | process.py:117-130 | the placed map read back from `get_locations`, and whether every sample was skipped, are those of the frame's input |
| Frames.FrameSequencer.constructor | process.py:110-112 | the loop starts with no breakpoints, no average and no names |
| Frames.FrameSequencer.Step | process.py:114-210 | one iteration updates the loop's locals to the next state, or fails and leaves them unchanged |
| Frames.AdvanceRun | process.py:114-210 | one more iteration of the loop follows the run of one more frame |
| Frames.RunFrames | process.py:114-210 | the loop over n frames stops at the first failure and otherwise ends in the run's state |
| Frames.RenderFrames | process.py:102-210 | the whole frame loop succeeds exactly when the baseline frame places a sample and its blurred map has a non-zero value, and then records the names of the 96 time frames in order |

## Left out

- File and network I/O is not modelled. This covers opening files, `json.load`, globbing the input directory, writing GeoJSON, saving images, and the GIF and webm output. Parsed JSON arrives as datatypes, and the drivers take sequences of files.
- The GeoJSON tile polygons (location_to_geojson.py lines 137-157) are output formatting and are not modelled.
- `Point.__hash__` is not modelled. Dict keys are compared by value, as the dataclass's `__eq__` compares them.
- The `print` diagnostics are not modelled.
- Floating point is not modelled. Coordinates, weights and matrices are exact reals. IEEE rounding of `lat * 10**3`, of `/ 1e7` and of the blend is therefore not captured.
- `iso8601_to_epoch` and the minute-of-day computation are not modelled. Each `Sample` already carries its timestamp and its minute of the day. Time zones and `datetime` parsing are not modelled.
- The Gaussian blur (`ndimage.filters.gaussian_filter`) and `np.percentile` are function parameters of the frame loop. The lemmas that need them assume that the blur keeps the shape and that the percentiles are 99 sorted values.
- The base map is not modelled: reading, averaging, stacking and resizing it. Titles, axes, `imshow`, figure handling and `argparse` are not modelled either. None of them affects the computed state.
- Frames.NextState treats an average and a frame of different shapes as a failure. numpy would broadcast some such shapes. With a shape-keeping blur, this case never arises (Frames.RunShape).
- Frames.NextState fails the run when the baseline's non-zero selection is empty. Depending on the numpy version, `np.percentile` of an empty array either raises or returns NaN breakpoints; the model follows the raising behaviour and does not model NaN.
- Frames.FrameData also computes the percentiles for time frames. The source computes them only for the baseline. Only the baseline's percentiles are ever used, so the outcome is the same.
- Heatmap.GetLocations requires a non-zero scaling factor and non-negative dimensions. The source raises on a zero scaling factor, and `np.zeros` raises on a negative size, so these error paths are preconditions here.
- Totals.MergeGridAll and Totals.MergeGridPerType do not describe a type literally named "ALL". That case is modelled (Totals.AddCountsTwiceStep) but not characterised per cell.
