/** The running totals over all files (location_to_geojson.py lines
    119-135): each file's grid is folded into a per-type map and into the
    combined "ALL" map. */
module Totals {
  import opened Wrappers
  import opened Records
  import opened ActivityGrids

  /** `total_grid`: activity type (or "ALL") to cell counts. */
  type Totals = map<string, map<Cell, int>>

  const AllKey: string := "ALL"

  /** `PRECISION`. */
  const Precision: nat := 3

  /** Lines 129-131 (and 133-135) for one cell: a key already present gains
      `n`; a new key is set to `n` and then gains `n`, so it starts at `2n`. */
  function AddCount(m: map<Cell, int>, c: Cell, n: int): map<Cell, int> {
    m[c := if c in m then m[c] + n else 2 * n]
  }

  /** Both updates of lines 128-135 for one cell of type `t`. */
  function AddBoth(total: Totals, t: string, c: Cell, n: int): Totals
    requires t in total && AllKey in total
  {
    var t1 := total[t := AddCount(total[t], c, n)];
    t1[AllKey := AddCount(t1[AllKey], c, n)]
  }

  /** `m` after every cell of `done` has gained its count once. */
  function AddCounts(m: map<Cell, int>, cells: map<Cell, int>, done: set<Cell>): map<Cell, int>
    requires done <= cells.Keys
  {
    map c | c in m.Keys + done :: if c in done then (if c in m then m[c] + cells[c] else 2 * cells[c]) else m[c]
  }

  /** A type literally named "ALL" updates the "ALL" map twice per cell. */
  function AddCountsTwice(m: map<Cell, int>, cells: map<Cell, int>, done: set<Cell>): map<Cell, int>
    requires done <= cells.Keys
  {
    map c | c in m.Keys + done :: if c in done then (if c in m then m[c] + 2 * cells[c] else 3 * cells[c]) else m[c]
  }

  lemma AddCountsNone(m: map<Cell, int>, cells: map<Cell, int>)
    ensures AddCounts(m, cells, {}) == m && AddCountsTwice(m, cells, {}) == m
  {
  }

  /** Before any cell is merged the totals are unchanged. */
  lemma MergeCellsNone(total: Totals, t: string, cells: map<Cell, int>)
    requires t in total && AllKey in total
    ensures MergeCells(total, t, cells, {}) == total
  {
    AddCountsNone(total[t], cells);
    AddCountsNone(total[AllKey], cells);
  }

  /** The totals after the cells `done` of type `t` have been merged; the
      order in which a type's cells are visited does not matter. */
  function MergeCells(total: Totals, t: string, cells: map<Cell, int>, done: set<Cell>): Totals
    requires t in total && AllKey in total && done <= cells.Keys
  {
    if t == AllKey then total[AllKey := AddCountsTwice(total[AllKey], cells, done)]
    else total[t := AddCounts(total[t], cells, done)][AllKey := AddCounts(total[AllKey], cells, done)]
  }

  /** Lines 126-135 for one type of the file's grid. */
  function MergeType(total: Totals, t: string, cells: map<Cell, int>): (r: Totals)
    requires AllKey in total
    ensures r.Keys == total.Keys + {t}
  {
    var base := if t in total then total else total[t := map[]];
    MergeCells(base, t, cells, cells.Keys)
  }

  /** Lines 125-135: the types are visited in the grid's key order. */
  function MergeGrid(total: Totals, types: seq<string>, cells: map<string, map<Cell, int>>): (r: Totals)
    requires AllKey in total
    requires forall t :: t in types ==> t in cells
    ensures r.Keys == total.Keys + (set t | t in types)
  {
    if types == [] then total
    else
      var t := types[|types| - 1];
      MergeType(MergeGrid(total, types[..|types| - 1], cells), t, cells[t])
  }

  lemma AddCountsStep(m: map<Cell, int>, cells: map<Cell, int>, done: set<Cell>, c: Cell)
    requires done <= cells.Keys && c in cells && c !in done
    ensures AddCounts(m, cells, done + {c}) == AddCount(AddCounts(m, cells, done), c, cells[c])
  {
    var a := AddCounts(m, cells, done + {c});
    var b := AddCount(AddCounts(m, cells, done), c, cells[c]);
    assert a.Keys == b.Keys;
    forall d | d in a.Keys ensures a[d] == b[d] {
    }
  }

  lemma AddCountsTwiceStep(m: map<Cell, int>, cells: map<Cell, int>, done: set<Cell>, c: Cell)
    requires done <= cells.Keys && c in cells && c !in done
    ensures AddCountsTwice(m, cells, done + {c}) ==
      AddCount(AddCount(AddCountsTwice(m, cells, done), c, cells[c]), c, cells[c])
  {
    var a := AddCountsTwice(m, cells, done + {c});
    var b := AddCount(AddCount(AddCountsTwice(m, cells, done), c, cells[c]), c, cells[c]);
    assert a.Keys == b.Keys;
    forall d | d in a.Keys ensures a[d] == b[d] {
    }
  }

  /** Merging one more cell is the pair of updates of lines 128-135. */
  lemma MergeCellsStep(total: Totals, t: string, cells: map<Cell, int>, done: set<Cell>, c: Cell)
    requires t in total && AllKey in total && done <= cells.Keys && c in cells && c !in done
    ensures MergeCells(total, t, cells, done + {c}) == AddBoth(MergeCells(total, t, cells, done), t, c, cells[c])
  {
    if t == AllKey {
      AddCountsTwiceStep(total[AllKey], cells, done, c);
    } else {
      AddCountsStep(total[t], cells, done, c);
      AddCountsStep(total[AllKey], cells, done, c);
    }
  }

  /** Lines 128-135 for one cell: the type's map and then the "ALL" map
      are raised by `count`, a missing key being first set to `count`. */
  method AddCellCounts(total: Totals, t: string, point: Cell, count: int) returns (r: Totals)
    requires t in total && AllKey in total
    ensures r == AddBoth(total, t, point, count)
  {
    var typeCounts := total[t];
    if point !in typeCounts {
      typeCounts := typeCounts[point := count];
    }
    typeCounts := typeCounts[point := typeCounts[point] + count];
    assert typeCounts == AddCount(total[t], point, count);
    r := total[t := typeCounts];
    var allCounts := r[AllKey];
    if point !in allCounts {
      allCounts := allCounts[point := count];
    }
    allCounts := allCounts[point := allCounts[point] + count];
    assert allCounts == AddCount(total[t := typeCounts][AllKey], point, count);
    r := r[AllKey := allCounts];
  }

  /** Lines 126-135 for one type: the cells of the type are visited in
      whatever order the set yields them. */
  method MergeTypeCells(total: Totals, t: string, points: map<Cell, int>) returns (r: Totals)
    requires AllKey in total
    ensures r == MergeType(total, t, points)
  {
    r := total;
    if t !in r {
      r := r[t := map[]];
    }
    ghost var base := r;
    MergeCellsNone(base, t, points);
    assert points.Keys - points.Keys == {};
    var todo := points.Keys;
    while todo != {}
      invariant todo <= points.Keys
      invariant r == MergeCells(base, t, points, points.Keys - todo)
      decreases todo
    {
      var point :| point in todo;
      var count := points[point];
      MergeCellsStep(base, t, points, points.Keys - todo, point);
      assert (points.Keys - todo) + {point} == points.Keys - (todo - {point});
      r := AddCellCounts(r, t, point, count);
      todo := todo - {point};
    }
    assert points.Keys - todo == points.Keys;
  }

  /** Merging the grid of one file (lines 125-135). */
  method MergeFile(total: Totals, g: Grid) returns (r: Totals)
    requires AllKey in total
    requires forall t :: t in g.types ==> t in g.cells
    ensures r == MergeGrid(total, g.types, g.cells)
  {
    r := total;
    for i := 0 to |g.types|
      invariant AllKey in r
      invariant r == MergeGrid(total, g.types[..i], g.cells)
    {
      assert g.types[..i + 1][..i] == g.types[..i];
      r := MergeTypeCells(r, g.types[i], g.cells[g.types[i]]);
    }
    assert g.types[..|g.types|] == g.types;
  }

  /** For a type other than "ALL", merging it touches its own map and the
      "ALL" map and nothing else. */
  lemma MergeTypeShape(total: Totals, t: string, cells: map<Cell, int>)
    requires AllKey in total && t != AllKey
    ensures var r := MergeType(total, t, cells);
      var old_t := if t in total then total[t] else map[];
      && r[t] == AddCounts(old_t, cells, cells.Keys)
      && r[AllKey] == AddCounts(total[AllKey], cells, cells.Keys)
      && forall u :: u in total && u != t && u != AllKey ==> r[u] == total[u]
  {
  }

  /** For a type other than "ALL": a cell of the file's grid that the type's
      totals already hold is raised by its count, a new one starts at twice
      its count, and the same holds for the "ALL" map; other cells and other
      types are unchanged. */
  lemma MergeTypeEffect(total: Totals, t: string, cells: map<Cell, int>, c: Cell, u: string)
    requires AllKey in total && t != AllKey
    ensures var r := MergeType(total, t, cells);
      var old_t := if t in total then total[t] else map[];
      && (c in cells ==>
            r[t][c] == (if c in old_t then old_t[c] + cells[c] else 2 * cells[c]) &&
            r[AllKey][c] == (if c in total[AllKey] then total[AllKey][c] + cells[c] else 2 * cells[c]))
      && (c !in cells && c in old_t ==> r[t][c] == old_t[c])
      && (c !in cells && c in total[AllKey] ==> r[AllKey][c] == total[AllKey][c])
      && (c in r[t] <==> c in cells || c in old_t)
      && (u in total && u != t && u != AllKey ==> r[u] == total[u])
  {
  }

  /** The counts a sequence of types contributes to cell `c` of "ALL". */
  function Contributed(types: seq<string>, cells: map<string, map<Cell, int>>, c: Cell): int
    requires forall t :: t in types ==> t in cells
  {
    if types == [] then 0
    else
      var t := types[|types| - 1];
      Contributed(types[..|types| - 1], cells, c) + (if c in cells[t] then cells[t][c] else 0)
  }

  /** Whether any of the types has cell `c`. */
  predicate Touches(types: seq<string>, cells: map<string, map<Cell, int>>, c: Cell)
    requires forall t :: t in types ==> t in cells
  {
    exists i :: 0 <= i < |types| && c in cells[types[i]]
  }

  /** The count of cell `c` in the first of the types that has it. */
  function FirstContribution(types: seq<string>, cells: map<string, map<Cell, int>>, c: Cell): int
    requires forall t :: t in types ==> t in cells
  {
    if types == [] then 0
    else
      var init := types[..|types| - 1];
      var t := types[|types| - 1];
      if Touches(init, cells, c) then FirstContribution(init, cells, c)
      else if c in cells[t] then cells[t][c] else 0
  }

  /** The "ALL" map after one file: a cell it already held gains the sum of
      the per-type counts; a new cell gets that sum plus, once more, the
      count of the first type (in the grid's key order) that has it. */
  lemma {:induction false} MergeGridAll(total: Totals, types: seq<string>, cells: map<string, map<Cell, int>>, c: Cell)
    requires AllKey in total
    requires forall t :: t in types ==> t in cells
    requires AllKey !in types
    ensures var all := MergeGrid(total, types, cells)[AllKey];
      && (c in all <==> c in total[AllKey] || Touches(types, cells, c))
      && (c in total[AllKey] ==> all[c] == total[AllKey][c] + Contributed(types, cells, c))
      && (c !in total[AllKey] && Touches(types, cells, c) ==>
            all[c] == Contributed(types, cells, c) + FirstContribution(types, cells, c))
      && (!Touches(types, cells, c) ==> Contributed(types, cells, c) == 0)
  {
    if types != [] {
      var init := types[..|types| - 1];
      var t := types[|types| - 1];
      var prev := MergeGrid(total, init, cells);
      assert t != AllKey;
      assert MergeGrid(total, types, cells) == MergeType(prev, t, cells[t]);
      assert forall u :: u in init ==> u in types;
      MergeGridAll(total, init, cells, c);
      MergeTypeShape(prev, t, cells[t]);
      TouchesStep(types, cells, c);
    }
  }

  lemma TouchesStep(types: seq<string>, cells: map<string, map<Cell, int>>, c: Cell)
    requires forall t :: t in types ==> t in cells
    requires types != []
    ensures Touches(types, cells, c) <==>
      Touches(types[..|types| - 1], cells, c) || c in cells[types[|types| - 1]]
  {
    var init := types[..|types| - 1];
    if Touches(init, cells, c) {
      var i :| 0 <= i < |init| && c in cells[init[i]];
      assert c in cells[types[i]];
    }
    if Touches(types, cells, c) && !Touches(init, cells, c) {
      var i :| 0 <= i < |types| && c in cells[types[i]];
      assert i == |types| - 1;
    }
  }

  /** The per-type totals after one file: for a type of the grid other than
      "ALL", each of its cells is raised by the file's count or starts at
      twice it; a type the grid does not have keeps its totals. */
  lemma {:induction false} MergeGridPerType(total: Totals, types: seq<string>, cells: map<string, map<Cell, int>>, t: string)
    requires AllKey in total
    requires forall u :: u in types ==> u in cells
    requires forall i, j :: 0 <= i < j < |types| ==> types[i] != types[j]
    requires t != AllKey
    ensures t in types ==>
      var old_t := if t in total then total[t] else map[];
      MergeGrid(total, types, cells)[t] == AddCounts(old_t, cells[t], cells[t].Keys)
    ensures t !in types && t in total ==> MergeGrid(total, types, cells)[t] == total[t]
  {
    if types != [] {
      var init := types[..|types| - 1];
      var last := types[|types| - 1];
      var prev := MergeGrid(total, init, cells);
      assert MergeGrid(total, types, cells) == MergeType(prev, last, cells[last]);
      assert forall i :: 0 <= i < |init| ==> init[i] == types[i];
      MergeGridPerType(total, init, cells, t);
      if last != AllKey {
        MergeTypeShape(prev, last, cells[last]);
      }
      if t != last {
        assert t in types ==> t in init;
      } else {
        assert t !in init;
      }
    }
  }

  /** The "ALL" total depends on the order of the types: with cell counts
      1 (type A) and 2 (type B) for the same new cell, visiting A first gives
      2*1 + 2 = 4 and visiting B first gives 2*2 + 1 = 5. */
  lemma AllDependsOnTypeOrder()
    ensures var c := Cell(0, 0);
      var cells := map["A" := map[c := 1], "B" := map[c := 2]];
      var start := map[AllKey := map[]];
      MergeGrid(start, ["A", "B"], cells)[AllKey][c] == 4 &&
      MergeGrid(start, ["B", "A"], cells)[AllKey][c] == 5
  {
    var c := Cell(0, 0);
    var cells := map["A" := map[c := 1], "B" := map[c := 2]];
    var start: Totals := map[AllKey := map[]];
    MergeGridAll(start, ["A", "B"], cells, c);
    MergeGridAll(start, ["B", "A"], cells, c);
    assert ["A", "B"][..1] == ["A"];
    assert ["B", "A"][..1] == ["B"];
    assert ["A"][..0] == [];
    assert ["B"][..0] == [];
    assert Touches(["A"], cells, c) by { assert c in cells[["A"][0]]; }
    assert Touches(["B"], cells, c) by { assert c in cells[["B"][0]]; }
    assert !Touches([], cells, c);
    assert Touches(["A", "B"], cells, c) by { assert c in cells[["A", "B"][0]]; }
    assert Touches(["B", "A"], cells, c) by { assert c in cells[["B", "A"][0]]; }
  }

  /** The whole run of lines 119-135 over already parsed files: an
      exception in any file ends the run. */
  function AggregateSpec(files: seq<seq<Event>>): (r: Result<Totals, ReadError>)
    ensures r.Ok? ==> AllKey in r.value
  {
    if files == [] then Ok(map[AllKey := map[]])
    else
      match AggregateSpec(files[..|files| - 1])
      case Err(e) => Err(e)
      case Ok(total) =>
        match ReadSpec(files[|files| - 1])
        case Err(e) => Err(e)
        case Ok(col) =>
          var g := GridOf(col, Precision);
          Ok(MergeGrid(total, g.types, g.cells))
  }

  lemma {:induction false} AggregateFailedPrefix(files: seq<seq<Event>>, k: nat)
    requires k <= |files|
    requires AggregateSpec(files[..k]).Err?
    ensures AggregateSpec(files) == AggregateSpec(files[..k])
    decreases |files| - k
  {
    if k < |files| {
      assert files[..k + 1][..k] == files[..k];
      AggregateFailedPrefix(files, k + 1);
    } else {
      assert files[..k] == files;
    }
  }

  /** One more file either fails with its read error or, read without
      error, folds its grid into the totals. */
  lemma AggregateStep(files: seq<seq<Event>>, i: nat, total: Totals)
    requires i < |files|
    requires AggregateSpec(files[..i]) == Ok(total)
    ensures ReadSpec(files[i]).Err? ==> AggregateSpec(files[..i + 1]) == Err(ReadSpec(files[i]).error)
    ensures ReadSpec(files[i]).Ok? ==>
      var g := GridOf(ReadSpec(files[i]).value, Precision);
      AggregateSpec(files[..i + 1]) == Ok(MergeGrid(total, g.types, g.cells))
  {
    var front := files[..i + 1];
    assert front[..i] == files[..i] && front[i] == files[i];
  }

  /** Lines 119-135: read each file, build its grid, fold it in. */
  method AggregateFiles(files: seq<seq<Event>>) returns (r: Result<Totals, ReadError>)
    ensures r == AggregateSpec(files)
  {
    var total: Totals := map[AllKey := map[]];
    for i := 0 to |files|
      invariant AggregateSpec(files[..i]) == Ok(total)
    {
      AggregateStep(files, i, total);
      var data := ReadFile(files[i]);
      if data.Err? {
        AggregateFailedPrefix(files, i + 1);
        return Err(data.error);
      }
      var grid := ActivityGrid(data.value, Precision);
      total := MergeFile(total, grid);
    }
    assert files[..|files|] == files;
    r := Ok(total);
  }
}
