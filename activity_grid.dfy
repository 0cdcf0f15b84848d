/** The per-type occupancy grid of one file (location_to_geojson.py,
    `activity_grid`). A grid cell is the rounded point
    `Point(round(lat*10^P)/10^P, round(lng*10^P)/10^P)`; since dividing by
    `10^P` is injective, the cell is keyed here by the two rounded integers. */
module ActivityGrids {
  import opened Wrappers
  import opened Numeric
  import opened Records

  /** `INTERMEDIATE_POINTS`. */
  const IntermediatePoints: nat := 3

  /** A grid cell: `round(lat*10^P)` and `round(lng*10^P)`. */
  datatype Cell = Cell(lat: int, lng: int)

  /** Per-type cell counts of one file; `types` is the dict's key order. */
  datatype Grid = Grid(types: seq<string>, cells: map<string, map<Cell, int>>)

  /** The activity types whose points are joined into an interpolated path. */
  predicate Exempt(t: string) {
    t == "WALKING" || t == "CYCLING" || t == "RUNNING"
  }

  function Scale(p: nat): real {
    Pow10(p) as real
  }

  /** `v * 10**p`. */
  function Scaled(v: real, p: nat): real {
    v * Scale(p)
  }

  /** `round(v * 10**p) / 10**p`. */
  function Quantize(v: real, p: nat): (r: real)
    ensures -0.5 <= Scaled(r, p) - Scaled(v, p) <= 0.5
    ensures Scaled(r, p).Floor as real == Scaled(r, p)
  {
    var k := RoundHalfEven(Scaled(v, p));
    assert Scaled(k as real / Scale(p), p) == k as real;
    k as real / Scale(p)
  }

  /** Quantizing an already quantized value leaves it unchanged. */
  lemma QuantizeIdempotent(v: real, p: nat)
    ensures Quantize(Quantize(v, p), p) == Quantize(v, p)
  {
    var k := RoundHalfEven(Scaled(v, p));
    assert Scaled(Quantize(v, p), p) == k as real;
    RoundOfInteger(k);
  }

  /** The cell of a point at precision `p`. */
  function CellOf(pt: Point, p: nat): Cell {
    Cell(RoundHalfEven(Scaled(pt.lat, p)), RoundHalfEven(Scaled(pt.lng, p)))
  }

  /** Each coordinate of a point's cell is the nearest integer to the
      scaled coordinate, ties going to the even one. */
  lemma CellOfNearest(pt: Point, p: nat)
    ensures -0.5 <= CellOf(pt, p).lat as real - Scaled(pt.lat, p) <= 0.5
    ensures -0.5 <= CellOf(pt, p).lng as real - Scaled(pt.lng, p) <= 0.5
    ensures CellOf(pt, p).lat as real - Scaled(pt.lat, p) in {0.5, -0.5} ==> CellOf(pt, p).lat % 2 == 0
    ensures CellOf(pt, p).lng as real - Scaled(pt.lng, p) in {0.5, -0.5} ==> CellOf(pt, p).lng % 2 == 0
  {
  }

  /** The `Point` key the source stores for a cell. */
  function CellPoint(c: Cell, p: nat): Point {
    Point(c.lat as real / Scale(p), c.lng as real / Scale(p), None)
  }

  /** The source's rounded `Point` of a point is exactly the key of its cell. */
  lemma CellKeyIsRoundedPoint(pt: Point, p: nat)
    ensures CellPoint(CellOf(pt, p), p) == Point(Quantize(pt.lat, p), Quantize(pt.lng, p), None)
  {
  }

  /** Distinct cells have distinct `Point` keys, so counting by `Cell` is
      counting by the source's keys. */
  lemma CellKeyInjective(c1: Cell, c2: Cell, p: nat)
    ensures CellPoint(c1, p) == CellPoint(c2, p) <==> c1 == c2
  {
    var s := Scale(p);
    if CellPoint(c1, p) == CellPoint(c2, p) {
      assert c1.lat as real == (c1.lat as real / s) * s;
      assert c2.lat as real == (c2.lat as real / s) * s;
      assert c1.lng as real == (c1.lng as real / s) * s;
      assert c2.lng as real == (c2.lng as real / s) * s;
    }
  }

  /** Reading a cell's key back as a point gives the same cell. */
  lemma CellKeyRoundTrip(c: Cell, p: nat)
    ensures CellOf(CellPoint(c, p), p) == c
  {
    var s := Scale(p);
    var q := CellPoint(c, p);
    assert Scaled(q.lat, p) == c.lat as real;
    assert Scaled(q.lng, p) == c.lng as real;
    RoundOfInteger(c.lat);
    RoundOfInteger(c.lng);
  }

  /** The interpolated sample `p1 + (p2 - p1) * s / 3` (lines 100-101). */
  function Sample(p1: Point, p2: Point, s: nat): Point {
    Point(p1.lat + (p2.lat - p1.lat) * s as real / IntermediatePoints as real,
          p1.lng + (p2.lng - p1.lng) * s as real / IntermediatePoints as real,
          None)
  }

  /** Sample 0 is the first point and sample 3, which the loop stops
      before, would be the second; in between the samples move toward the
      second point. */
  lemma SampleEndpoints(p1: Point, p2: Point, s: nat)
    ensures s == 0 ==> Sample(p1, p2, s).lat == p1.lat && Sample(p1, p2, s).lng == p1.lng
    ensures s == IntermediatePoints ==> Sample(p1, p2, s).lat == p2.lat && Sample(p1, p2, s).lng == p2.lng
    ensures s <= IntermediatePoints && p1.lat <= p2.lat ==> p1.lat <= Sample(p1, p2, s).lat <= p2.lat
    ensures s <= IntermediatePoints && p1.lng <= p2.lng ==> p1.lng <= Sample(p1, p2, s).lng <= p2.lng
  {
    var t := s as real;
    var q := Sample(p1, p2, s);
    var dlat, dlng := p2.lat - p1.lat, p2.lng - p1.lng;
    assert q.lat == p1.lat + dlat * t / 3.0;
    assert q.lng == p1.lng + dlng * t / 3.0;
    if s <= IntermediatePoints && dlat >= 0.0 {
      assert 0.0 <= dlat * t <= dlat * 3.0;
    }
    if s <= IntermediatePoints && dlng >= 0.0 {
      assert 0.0 <= dlng * t <= dlng * 3.0;
    }
  }

  function SampleCell(p1: Point, p2: Point, s: nat, p: nat): Cell {
    CellOf(Sample(p1, p2, s), p)
  }

  /** The cell of sample `s` of the pair starting at index `i`. */
  function PairSampleCell(pts: seq<Point>, i: nat, s: nat, p: nat): Cell
    requires i + 1 < |pts|
  {
    SampleCell(pts[i], pts[i + 1], s, p)
  }

  /** The cells of the first `k` samples of one consecutive pair. */
  function PairCells(p1: Point, p2: Point, p: nat, k: nat): set<Cell> {
    if k == 0 then {} else PairCells(p1, p2, p, k - 1) + {SampleCell(p1, p2, k - 1, p)}
  }

  /** The set `visited_points` after the loop of lines 97-106: empty for
      fewer than two points. */
  function PathCells(pts: seq<Point>, p: nat): (r: set<Cell>)
    ensures |pts| < 2 ==> r == {}
  {
    if |pts| < 2 then {}
    else PathCells(pts[..|pts| - 1], p) + PairCells(pts[|pts| - 2], pts[|pts| - 1], p, IntermediatePoints)
  }

  lemma {:induction false} PairCellsCharacterized(p1: Point, p2: Point, p: nat, k: nat, c: Cell)
    ensures c in PairCells(p1, p2, p, k) <==> exists s :: 0 <= s < k && SampleCell(p1, p2, s, p) == c
  {
    if k > 0 {
      PairCellsCharacterized(p1, p2, p, k - 1, c);
    }
  }

  /** Each sample of each consecutive pair lands in a visited cell. */
  lemma {:induction false} PathCellsComplete(pts: seq<Point>, p: nat, i: nat, s: nat)
    requires i + 1 < |pts| && s < IntermediatePoints
    ensures PairSampleCell(pts, i, s, p) in PathCells(pts, p)
  {
    var n := |pts| - 1;
    if i == n - 1 {
      PairCellsCharacterized(pts[n - 1], pts[n], p, IntermediatePoints, PairSampleCell(pts, i, s, p));
    } else {
      PathCellsComplete(pts[..n], p, i, s);
      assert PairSampleCell(pts[..n], i, s, p) == PairSampleCell(pts, i, s, p);
    }
  }

  /** Every visited cell is the cell of some sample of some pair. */
  lemma {:induction false} PathCellsSound(pts: seq<Point>, p: nat, c: Cell)
    requires c in PathCells(pts, p)
    ensures exists i, s :: 0 <= i < |pts| - 1 && 0 <= s < IntermediatePoints && PairSampleCell(pts, i, s, p) == c
  {
    var n := |pts| - 1;
    var init := pts[..n];
    if c in PathCells(init, p) {
      PathCellsSound(init, p, c);
      var i, s :| 0 <= i < |init| - 1 && 0 <= s < IntermediatePoints && PairSampleCell(init, i, s, p) == c;
      assert PairSampleCell(pts, i, s, p) == c;
    } else {
      PairCellsCharacterized(pts[n - 1], pts[n], p, IntermediatePoints, c);
      var s :| 0 <= s < IntermediatePoints && SampleCell(pts[n - 1], pts[n], s, p) == c;
      assert PairSampleCell(pts, n - 1, s, p) == c;
    }
  }

  /** A path visits exactly the cells of the samples `s = 0, 1, 2` of each
      consecutive pair; the last point of a path contributes only as the
      end of a pair, so a path of fewer than two points visits nothing. */
  lemma PathCellsCharacterized(pts: seq<Point>, p: nat, c: Cell)
    ensures c in PathCells(pts, p) <==>
      exists i, s :: 0 <= i < |pts| - 1 && 0 <= s < IntermediatePoints && PairSampleCell(pts, i, s, p) == c
    ensures |pts| < 2 ==> PathCells(pts, p) == {}
  {
    if c in PathCells(pts, p) {
      PathCellsSound(pts, p, c);
    }
    if exists i, s :: 0 <= i < |pts| - 1 && 0 <= s < IntermediatePoints && PairSampleCell(pts, i, s, p) == c {
      var i, s :| 0 <= i < |pts| - 1 && 0 <= s < IntermediatePoints && PairSampleCell(pts, i, s, p) == c;
      PathCellsComplete(pts, p, i, s);
    }
  }

  /** A path visits the cell of each of its points but the last, which is
      reached only as the end of the final pair. */
  lemma PathHoldsItsPoints(pts: seq<Point>, p: nat, i: nat)
    requires i + 1 < |pts|
    ensures CellOf(pts[i], p) in PathCells(pts, p)
  {
    SampleEndpoints(pts[i], pts[i + 1], 0);
    PathCellsComplete(pts, p, i, 0);
  }

  /** Every count in the map is at least 2. */
  ghost predicate AtLeastTwo(m: map<Cell, int>) {
    forall c :: c in m ==> m[c] >= 2
  }

  /** Lines 92-94 and 108-110: a cell seen for the first time is set to 1
      and then incremented, so it starts at 2. */
  function Bump(m: map<Cell, int>, c: Cell): map<Cell, int> {
    m[c := if c in m then m[c] + 1 else 2]
  }

  /** Lines 87-94 for one activity of a non-exempt type, point by point. */
  /** No cell is dropped, and counts of at least 2 stay so. */
  function CountPoints(m: map<Cell, int>, pts: seq<Point>, p: nat): (r: map<Cell, int>)
    ensures m.Keys <= r.Keys
    ensures AtLeastTwo(m) ==> AtLeastTwo(r)
  {
    if pts == [] then m
    else Bump(CountPoints(m, pts[..|pts| - 1], p), CellOf(pts[|pts| - 1], p))
  }

  /** Lines 107-110: every cell of the set is incremented once. */
  function BumpSet(m: map<Cell, int>, cells: set<Cell>): (r: map<Cell, int>)
    ensures r.Keys == m.Keys + cells
    ensures forall c :: c in cells && c in m ==> r[c] == m[c] + 1
    ensures forall c :: c in cells && c !in m ==> r[c] == 2
    ensures forall c :: c in m && c !in cells ==> r[c] == m[c]
  {
    map c | c in m.Keys + cells :: if c in cells then (if c in m then m[c] + 1 else 2) else m[c]
  }

  lemma BumpSetStep(m: map<Cell, int>, done: set<Cell>, c: Cell)
    requires c !in done
    ensures BumpSet(m, done + {c}) == Bump(BumpSet(m, done), c)
  {
    var a := BumpSet(m, done + {c});
    var b := Bump(BumpSet(m, done), c);
    assert a.Keys == b.Keys;
    forall d | d in a.Keys ensures a[d] == b[d] {
    }
  }

  /** The contribution of one activity of type `t`. */
  function ApplyActivity(m: map<Cell, int>, t: string, a: Activity, p: nat): (r: map<Cell, int>)
    ensures m.Keys <= r.Keys
    ensures AtLeastTwo(m) ==> AtLeastTwo(r)
  {
    if Exempt(t) then BumpSet(m, PathCells(a.points, p)) else CountPoints(m, a.points, p)
  }

  /** `ret[t]` after all activities of type `t`: every stored count is at
      least 2. */
  function TypeGrid(t: string, acts: seq<Activity>, p: nat): (r: map<Cell, int>)
    ensures AtLeastTwo(r)
  {
    if acts == [] then map[]
    else ApplyActivity(TypeGrid(t, acts[..|acts| - 1], p), t, acts[|acts| - 1], p)
  }

  /** The whole result of `activity_grid`: the collection's types in their
      order and one map per type. */
  function GridOf(col: Collection, p: nat): (r: Grid)
    ensures r.types == col.types
    ensures r.cells.Keys == col.activities.Keys
  {
    Grid(col.types, map t | t in col.activities :: TypeGrid(t, col.activities[t], p))
  }

  /** No cell of any type's grid holds a count below 2: a cell is only
      stored once it has been set to 1 and incremented. */
  lemma GridCountsAtLeastTwo(col: Collection, p: nat, t: string, c: Cell)
    requires t in GridOf(col, p).cells && c in GridOf(col, p).cells[t]
    ensures GridOf(col, p).cells[t][c] >= 2
  {
  }

  /** How many of the points fall in cell `c`. */
  function Occurrences(pts: seq<Point>, c: Cell, p: nat): nat {
    if pts == [] then 0
    else Occurrences(pts[..|pts| - 1], c, p) + (if CellOf(pts[|pts| - 1], p) == c then 1 else 0)
  }

  /** All points of a list of activities, in order. */
  function AllPoints(acts: seq<Activity>): seq<Point> {
    if acts == [] then [] else AllPoints(acts[..|acts| - 1]) + acts[|acts| - 1].points
  }

  /** How many of the activities' paths visit cell `c`. */
  function Traversals(acts: seq<Activity>, c: Cell, p: nat): nat {
    if acts == [] then 0
    else Traversals(acts[..|acts| - 1], c, p) + (if c in PathCells(acts[|acts| - 1].points, p) then 1 else 0)
  }

  lemma {:induction false} OccurrencesAppend(a: seq<Point>, b: seq<Point>, c: Cell, p: nat)
    ensures Occurrences(a + b, c, p) == Occurrences(a, c, p) + Occurrences(b, c, p)
  {
    if b != [] {
      var n := |b| - 1;
      assert (a + b)[..|a + b| - 1] == a + b[..n];
      OccurrencesAppend(a, b[..n], c, p);
    } else {
      assert a + b == a;
    }
  }

  /** Counting points one by one adds, to each cell, the number of points
      that fall in it; a cell new to the map starts from 1. */
  lemma {:induction false} CountPointsCounts(m: map<Cell, int>, pts: seq<Point>, p: nat, c: Cell)
    ensures c in CountPoints(m, pts, p) <==> c in m || Occurrences(pts, c, p) > 0
    ensures c in CountPoints(m, pts, p) ==>
      CountPoints(m, pts, p)[c] == (if c in m then m[c] else 1) + Occurrences(pts, c, p)
  {
    if pts != [] {
      CountPointsCounts(m, pts[..|pts| - 1], p, c);
    }
  }

  /** For a type other than WALKING, CYCLING and RUNNING, the cells are
      exactly those of the type's points, and each holds 1 plus the number
      of the type's points that fall in it. */
  lemma {:induction false} NonExemptCounts(t: string, acts: seq<Activity>, p: nat, c: Cell)
    requires !Exempt(t)
    ensures c in TypeGrid(t, acts, p) <==> Occurrences(AllPoints(acts), c, p) > 0
    ensures c in TypeGrid(t, acts, p) ==> TypeGrid(t, acts, p)[c] == 1 + Occurrences(AllPoints(acts), c, p)
  {
    if acts != [] {
      var init := acts[..|acts| - 1];
      var last := acts[|acts| - 1];
      NonExemptCounts(t, init, p, c);
      CountPointsCounts(TypeGrid(t, init, p), last.points, p, c);
      OccurrencesAppend(AllPoints(init), last.points, c, p);
    }
  }

  /** For WALKING, CYCLING and RUNNING, each activity adds one to every
      distinct cell its path visits, however many samples land there: a
      cell holds 1 plus the number of paths through it. */
  lemma {:induction false} ExemptCounts(t: string, acts: seq<Activity>, p: nat, c: Cell)
    requires Exempt(t)
    ensures c in TypeGrid(t, acts, p) <==> Traversals(acts, c, p) > 0
    ensures c in TypeGrid(t, acts, p) ==> TypeGrid(t, acts, p)[c] == 1 + Traversals(acts, c, p)
  {
    if acts != [] {
      ExemptCounts(t, acts[..|acts| - 1], p, c);
    }
  }

  /** Lines 87-94 as a loop over the points of one activity. */
  method CountActivityPoints(m: map<Cell, int>, pts: seq<Point>, p: nat) returns (r: map<Cell, int>)
    ensures r == CountPoints(m, pts, p)
  {
    r := m;
    for k := 0 to |pts|
      invariant r == CountPoints(m, pts[..k], p)
    {
      assert pts[..k + 1][..k] == pts[..k];
      var cell := CellOf(pts[k], p);
      assert CountPoints(m, pts[..k + 1], p) == Bump(CountPoints(m, pts[..k], p), cell);
      ghost var before := r;
      if cell !in r {
        r := r[cell := 1];
      }
      r := r[cell := r[cell] + 1];
      assert r == Bump(before, cell);
    }
    assert pts[..|pts|] == pts;
  }

  /** Lines 96-106: the distinct cells of the interpolated path. Pairs
      come from `zip(points, points[1:])`, so fewer than two points give none. */
  method VisitPath(pts: seq<Point>, p: nat) returns (visited: set<Cell>)
    ensures visited == PathCells(pts, p)
  {
    visited := {};
    if |pts| < 2 {
      return;
    }
    var k := 1;
    while k < |pts|
      invariant 1 <= k <= |pts|
      invariant visited == PathCells(pts[..k], p)
    {
      var p1, p2 := pts[k - 1], pts[k];
      ghost var before := visited;
      for s := 0 to IntermediatePoints
        invariant visited == before + PairCells(p1, p2, p, s)
      {
        visited := visited + {CellOf(Sample(p1, p2, s), p)};
      }
      assert pts[..k + 1][..k] == pts[..k];
      k := k + 1;
    }
    assert pts[..k] == pts;
  }

  /** Lines 107-110 as a loop over the visited set. */
  method CountVisited(m: map<Cell, int>, visited: set<Cell>) returns (r: map<Cell, int>)
    ensures r == BumpSet(m, visited)
  {
    r := m;
    var todo := visited;
    while todo != {}
      invariant todo <= visited
      invariant r == BumpSet(m, visited - todo)
      decreases todo
    {
      var cell :| cell in todo;
      CountVisitedStep(m, visited, todo, r, cell);
      if cell !in r {
        r := r[cell := 1];
      }
      r := r[cell := r[cell] + 1];
      todo := todo - {cell};
    }
  }

  lemma CountVisitedStep(m: map<Cell, int>, visited: set<Cell>, todo: set<Cell>, r: map<Cell, int>, cell: Cell)
    requires cell in todo && todo <= visited
    requires r == BumpSet(m, visited - todo)
    ensures var r1 := if cell !in r then r[cell := 1] else r;
      r1[cell := r1[cell] + 1] == BumpSet(m, visited - (todo - {cell}))
  {
    var r1 := if cell !in r then r[cell := 1] else r;
    assert r1[cell := r1[cell] + 1] == Bump(r, cell);
    assert visited - (todo - {cell}) == (visited - todo) + {cell};
    BumpSetStep(m, visited - todo, cell);
  }

  /** `activity_grid(activities, rounding)` (lines 73-112): every type of
      the collection gets an entry, empty or not, in the same key order. */
  method ActivityGrid(col: Collection, p: nat) returns (g: Grid)
    requires col.Valid()
    ensures g.types == col.types
    ensures g.cells.Keys == col.activities.Keys
    ensures g == GridOf(col, p)
  {
    var ret: map<string, map<Cell, int>> := map[];
    for i := 0 to |col.types|
      invariant forall t :: t in ret <==> t in col.types[..i]
      invariant forall t :: t in ret ==> t in col.activities && ret[t] == TypeGrid(t, col.activities[t], p)
    {
      var t := col.types[i];
      var acts := col.activities[t];
      var counts: map<Cell, int> := map[];
      for j := 0 to |acts|
        invariant counts == TypeGrid(t, acts[..j], p)
      {
        assert acts[..j + 1][..j] == acts[..j];
        var a := acts[j];
        if !Exempt(t) {
          counts := CountActivityPoints(counts, a.points, p);
        } else {
          var visited := VisitPath(a.points, p);
          counts := CountVisited(counts, visited);
        }
      }
      assert acts[..|acts|] == acts;
      ret := ret[t := counts];
    }
    assert col.types[..|col.types|] == col.types;
    g := Grid(col.types, ret);
  }

  /** The example path (0,0) -> (0.003,0) at precision 3 visits exactly the
      latitude cells 0.000, 0.001 and 0.002, each counted 2 as written. */
  lemma WalkingExample()
    ensures var path := [Point(0.0, 0.0, None), Point(0.003, 0.0, None)];
      PathCells(path, 3) == {Cell(0, 0), Cell(1, 0), Cell(2, 0)} &&
      TypeGrid("WALKING", [Activity("WALKING", path)], 3) ==
        map[Cell(0, 0) := 2, Cell(1, 0) := 2, Cell(2, 0) := 2]
  {
    var path := [Point(0.0, 0.0, None), Point(0.003, 0.0, None)];
    assert Scale(3) == 1000.0;
    RoundOfInteger(0);
    RoundOfInteger(1);
    RoundOfInteger(2);
    assert SampleCell(path[0], path[1], 0, 3) == Cell(0, 0);
    assert SampleCell(path[0], path[1], 1, 3) == Cell(1, 0);
    assert SampleCell(path[0], path[1], 2, 3) == Cell(2, 0);
    assert PathCells(path, 3) == PathCells(path[..1], 3) + PairCells(path[0], path[1], 3, 3);
  }

  /** Two stationary points rounding to the same cell (1.000, 2.000): as
      written the cell's count is 3, one more than the number of points. */
  lemma StationaryExample()
    ensures var pts := [Point(1.0000001, 2.0000004, None), Point(1.0000006, 2.0000009, None)];
      TypeGrid("STILL", [Activity("STILL", pts)], 3) == map[Cell(1000, 2000) := 3]
  {
    var pts := [Point(1.0000001, 2.0000004, None), Point(1.0000006, 2.0000009, None)];
    assert Scale(3) == 1000.0;
    var cell := Cell(1000, 2000);
    assert CellOf(pts[0], 3) == cell;
    assert CellOf(pts[1], 3) == cell;
    assert pts[..1] == [pts[0]];
    assert pts[..1][..0] == [];
    assert CountPoints(map[], pts[..1], 3) == map[cell := 2];
    assert CountPoints(map[], pts, 3) == map[cell := 3];
    var acts := [Activity("STILL", pts)];
    assert acts[..0] == [];
    assert TypeGrid("STILL", acts, 3) == ApplyActivity(map[], "STILL", acts[0], 3);
  }
}
