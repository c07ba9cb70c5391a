/**
 * Small worked passes: what one tick of physics does to a few grids.
 */
module Scenarios {
  import opened Materials
  import opened Grids
  import opened Physics
  import opened RuleProperties

  /** Scanning a row that holds only air and stone changes nothing. */
  lemma {:induction false} InertRow(g: Grid, r: int, n: int)
    requires Rectangular(g) && 0 <= r < |g| && 0 <= n <= Width(g)
    requires forall c :: 0 <= c < n ==> g[r][c] == Air || g[r][c] == Stone
    ensures ScanRow(g, r, n) == g
    decreases n
  {
    if n > 0 {
      InertRow(g, r, n - 1);
      assert At(g, Pos(r, n - 1)) == g[r][n - 1];
    }
  }

  /** A grain falls one row per pass, not all the way to the floor. */
  lemma SandFallsOneRowPerPass()
    ensures Pass([[Sand], [Air], [Air]]) == [[Air], [Sand], [Air]]
  {
    var g: Grid := [[Sand], [Air], [Air]];
    InertRow(g, 2, 1);
    InertRow(g, 1, 1);
    assert ScanRows(g, 2) == g;
    DroppedChain(g, Pos(0, 0));
    GridExt(Swap(g, Pos(0, 0), Pos(1, 0)), [[Air], [Sand], [Air]]);
    assert ScanRow(g, 0, 1) == [[Air], [Sand], [Air]];
  }

  /** The sand at (0, 1) of the three-by-three grid drops straight down. */
  lemma {:induction false} SandDropsStraightDown(g: Grid, h: Grid)
    requires g == [[Air, Sand, Air], [Air, Air, Air], [Air, Air, Air]]
    requires h == [[Air, Air, Air], [Air, Sand, Air], [Air, Air, Air]]
    ensures Visit(g, Pos(0, 1)) == h
  {
    DroppedChain(g, Pos(0, 1));
    GridExt(Swap(g, Pos(0, 1), Pos(1, 1)), h);
  }

  /** Sand alone at (0, 1) of an empty three-by-three grid is at (1, 1) after one pass. */
  lemma SandInTheMiddleFalls()
    ensures Pass([[Air, Sand, Air], [Air, Air, Air], [Air, Air, Air]]) ==
                 [[Air, Air, Air], [Air, Sand, Air], [Air, Air, Air]]
  {
    var g: Grid := [[Air, Sand, Air], [Air, Air, Air], [Air, Air, Air]];
    var h: Grid := [[Air, Air, Air], [Air, Sand, Air], [Air, Air, Air]];
    InertRow(g, 2, 3);
    InertRow(g, 1, 3);
    assert ScanRows(g, 2) == g;
    assert ScanRow(g, 0, 1) == g;
    SandDropsStraightDown(g, h);
    assert ScanRow(g, 0, 2) == h;
    assert ScanRow(g, 0, 3) == h;
  }

  /** The water at (0, 0) of the two-by-two grid flows straight down. */
  lemma {:induction false} WaterDropsStraightDown(g: Grid, h: Grid)
    requires g == [[Water, Air], [Air, Air]] && h == [[Air, Air], [Water, Air]]
    ensures Visit(g, Pos(0, 0)) == h
  {
    FlowedChain(g, Pos(0, 0));
    GridExt(Swap(g, Pos(0, 0), Pos(1, 0)), h);
  }

  /** Water alone at (0, 0) of an empty two-by-two grid is at (1, 0) after one pass. */
  lemma WaterInTheCornerFalls()
    ensures Pass([[Water, Air], [Air, Air]]) == [[Air, Air], [Water, Air]]
  {
    var g: Grid := [[Water, Air], [Air, Air]];
    var h: Grid := [[Air, Air], [Water, Air]];
    InertRow(g, 1, 2);
    assert ScanRows(g, 1) == g;
    WaterDropsStraightDown(g, h);
    assert ScanRow(g, 0, 1) == h;
    assert ScanRow(g, 0, 2) == h;
  }

  /** Sand resting on water changes place with it. */
  lemma SandSinksIntoWater()
    ensures Pass([[Sand], [Water]]) == [[Water], [Sand]]
  {
    var g: Grid := [[Sand], [Water]];
    assert ScanRows(g, 1) == g;
    DroppedChain(g, Pos(0, 0));
    GridExt(Swap(g, Pos(0, 0), Pos(1, 0)), [[Water], [Sand]]);
  }

  /** On a stone floor, water with air to its right steps right. */
  lemma {:induction false} WaterStepsRight(g: Grid, h: Grid)
    requires g == [[Water, Air, Air], [Stone, Stone, Stone]] && h == [[Air, Water, Air], [Stone, Stone, Stone]]
    ensures Visit(g, Pos(0, 0)) == h
  {
    FlowedChain(g, Pos(0, 0));
    GridExt(Swap(g, Pos(0, 0), Pos(0, 1)), h);
  }

  lemma {:induction false} WaterReachesWall(g: Grid, h: Grid)
    requires g == [[Air, Water, Air], [Stone, Stone, Stone]] && h == [[Air, Air, Water], [Stone, Stone, Stone]]
    ensures Visit(g, Pos(0, 1)) == h
  {
    FlowedChain(g, Pos(0, 1));
    GridExt(Swap(g, Pos(0, 1), Pos(0, 2)), h);
  }

  lemma {:induction false} WaterStepsBackFromWall(g: Grid, h: Grid)
    requires g == [[Air, Air, Water], [Stone, Stone, Stone]] && h == [[Air, Water, Air], [Stone, Stone, Stone]]
    ensures Visit(g, Pos(0, 2)) == h
  {
    FlowedChain(g, Pos(0, 2));
    GridExt(Swap(g, Pos(0, 2), Pos(0, 1)), h);
  }

  /**
   * Water moving right is visited again at its new place in the same pass:
   * on a stone floor it runs to the right wall and then steps back left.
   */
  lemma WaterIsRevisitedAfterMovingRight()
    ensures Pass([[Water, Air, Air], [Stone, Stone, Stone]]) == [[Air, Water, Air], [Stone, Stone, Stone]]
  {
    var g0: Grid := [[Water, Air, Air], [Stone, Stone, Stone]];
    var g1: Grid := [[Air, Water, Air], [Stone, Stone, Stone]];
    var g2: Grid := [[Air, Air, Water], [Stone, Stone, Stone]];
    assert ScanRow(g0, 1, 3) == g0;
    WaterStepsRight(g0, g1);
    WaterReachesWall(g1, g2);
    WaterStepsBackFromWall(g2, g1);
    assert ScanRow(g0, 0, 3) == g1;
  }
}
