/**
 * The rows as the game's constructor actually lays them out: every row is
 * created with one cell per visible column and then receives as many air
 * cells again, so each row carries a hidden tail as long as its visible
 * part. The rules test neighbours against the stored rows, so the last
 * visible column has a right-hand neighbour that is never drawn.
 */
module StoredRows {
  import opened Materials
  import opened Grids
  import opened Physics
  import opened RuleProperties

  /** The stored rows: each visible row followed by as many hidden air cells. */
  function Stored(v: Grid): (s: Grid)
    requires Rectangular(v)
    ensures |s| == |v| && Rectangular(s) && (|v| > 0 ==> Width(s) == 2 * Width(v))
    ensures forall r, c :: 0 <= r < |v| && 0 <= c < Width(v) ==> s[r][c] == v[r][c]
    ensures forall r, c :: 0 <= r < |v| && Width(v) <= c < 2 * Width(v) ==> s[r][c] == Air
  {
    seq(|v|, r requires 0 <= r < |v| => v[r] + seq(Width(v), _ => Air))
  }

  /** What is drawn: the first w cells of every row. */
  function Visible(s: Grid, w: nat): (v: Grid)
    requires Rectangular(s) && w <= Width(s)
    ensures |v| == |s| && Rectangular(v) && (|s| > 0 ==> Width(v) == w)
    ensures forall r, c :: 0 <= r < |s| && 0 <= c < w ==> v[r][c] == s[r][c]
  {
    seq(|s|, r requires 0 <= r < |s| => s[r][..w])
  }

  /** Laying out a grid and then dropping the hidden tail gives the grid back. */
  lemma VisibleOfStored(v: Grid)
    requires Rectangular(v)
    ensures Visible(Stored(v), Width(v)) == v
  {
    var s := Stored(v);
    var back := Visible(s, Width(v));
    forall r | 0 <= r < |v|
      ensures back[r] == v[r]
    {
      assert |back[r]| == |v[r]|;
      forall c | 0 <= c < |v[r]|
        ensures back[r][c] == v[r][c]
      {
        assert s[r][c] == v[r][c];
      }
    }
  }

  /** The stored rows of a two-by-two grid: four cells per row. */
  lemma StoredTwoByTwo(v: Grid, s: Grid)
    requires v == [[Stone, Sand], [Stone, Stone]] && s == Stored(v)
    ensures s == [[Stone, Sand, Air, Air], [Stone, Stone, Air, Air]]
  {
    GridExt(s, [[Stone, Sand, Air, Air], [Stone, Stone, Air, Air]]);
  }

  /** In the stored rows the grain at the last visible column finds air to its lower right. */
  lemma DropIntoHiddenCell(s: Grid, after: Grid)
    requires s == [[Stone, Sand, Air, Air], [Stone, Stone, Air, Air]] && after == Dropped(s, Pos(0, 1))
    ensures after == [[Stone, Air, Air, Air], [Stone, Stone, Sand, Air]]
  {
    DroppedChain(s, Pos(0, 1));
    GridExt(Swap(s, Pos(0, 1), Pos(1, 2)), [[Stone, Air, Air, Air], [Stone, Stone, Sand, Air]]);
  }

  /**
   * As written, `drop` at the last visible column exchanges a grain resting
   * on stone with the hidden air cell to its lower right: the grain leaves
   * the visible grid.
   */
  lemma HiddenColumnSwallowsSand()
    ensures var v: Grid := [[Stone, Sand], [Stone, Stone]];
      var after := Dropped(Stored(v), Pos(0, 1));
      InBounds(after, Pos(1, 2)) && At(after, Pos(1, 2)) == Sand &&
      Visible(after, 2) == [[Stone, Air], [Stone, Stone]]
  {
    var v: Grid := [[Stone, Sand], [Stone, Stone]];
    StoredTwoByTwo(v, Stored(v));
    var after := Dropped(Stored(v), Pos(0, 1));
    DropIntoHiddenCell(Stored(v), after);
    GridExt(Visible(after, 2), [[Stone, Air], [Stone, Stone]]);
  }

  /** With the right edge as the grid's edge, the same grain stays put on the stone. */
  lemma EdgeGrainStaysOnStone()
    ensures var v: Grid := [[Stone, Sand], [Stone, Stone]];
      Dropped(v, Pos(0, 1)) == v
  {
    var v: Grid := [[Stone, Sand], [Stone, Stone]];
    DroppedChain(v, Pos(0, 1));
  }

  /** The stored rows of the two-by-two grid with water at its last visible column. */
  lemma StoredWaterTwoByTwo(v: Grid, s: Grid)
    requires v == [[Air, Water], [Stone, Stone]] && s == Stored(v)
    ensures s == [[Air, Water, Air, Air], [Stone, Stone, Air, Air]]
  {
    GridExt(s, [[Air, Water, Air, Air], [Stone, Stone, Air, Air]]);
  }

  /** In the stored rows the water at the last visible column finds air to its lower right. */
  lemma FlowIntoHiddenCell(s: Grid, after: Grid)
    requires s == [[Air, Water, Air, Air], [Stone, Stone, Air, Air]] && after == Flowed(s, Pos(0, 1))
    ensures after == [[Air, Air, Air, Air], [Stone, Stone, Water, Air]]
  {
    FlowedChain(s, Pos(0, 1));
    GridExt(Swap(s, Pos(0, 1), Pos(1, 2)), [[Air, Air, Air, Air], [Stone, Stone, Water, Air]]);
  }

  /**
   * As written, the five tests of `flow` at the last visible column reach
   * the hidden air cell to the lower right before the visible air cell to
   * the left: the water leaves the visible grid.
   */
  lemma HiddenColumnSwallowsWater()
    ensures var v: Grid := [[Air, Water], [Stone, Stone]];
      var after := FlowTests(Stored(v), Pos(0, 1), 5);
      InBounds(after, Pos(1, 2)) && At(after, Pos(1, 2)) == Water &&
      Visible(after, 2) == [[Air, Air], [Stone, Stone]]
  {
    var v: Grid := [[Air, Water], [Stone, Stone]];
    StoredWaterTwoByTwo(v, Stored(v));
    FlowTestsAreFlowed(Stored(v), Pos(0, 1));
    var after := FlowTests(Stored(v), Pos(0, 1), 5);
    FlowIntoHiddenCell(Stored(v), after);
    GridExt(Visible(after, 2), [[Air, Air], [Stone, Stone]]);
  }

  /** With the right edge as the grid's edge, the same water steps left instead. */
  lemma EdgeWaterStepsLeft()
    ensures var v: Grid := [[Air, Water], [Stone, Stone]];
      Flowed(v, Pos(0, 1)) == [[Water, Air], [Stone, Stone]]
  {
    var v: Grid := [[Air, Water], [Stone, Stone]];
    FlowedChain(v, Pos(0, 1));
    GridExt(Swap(v, Pos(0, 1), Pos(0, 0)), [[Water, Air], [Stone, Stone]]);
  }
}
