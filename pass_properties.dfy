/**
 * What one physics pass promises: every visit is a single exchange of the
 * visited cell with one neighbour, so the pass permutes the grid, stone
 * stays where it is, grains never rise and fall at most one row.
 */
module PassProperties {
  import opened Materials
  import opened Grids
  import opened Physics

  /**
   * Every visit exchanges the visited cell p with one cell q (q == p when
   * nothing moves) that lies on the same row or the row below; neither of
   * two exchanged cells is stone, and an exchange that involves a grain
   * moves that grain one row down in place of air or water.
   */
  lemma VisitPartner(g: Grid, p: Pos) returns (q: Pos)
    requires Rectangular(g) && InBounds(g, p)
    ensures InBounds(g, q) && Visit(g, p) == Swap(g, p, q)
    ensures q.row == p.row || q.row == p.row + 1
    ensures q != p ==> At(g, p) != Stone && At(g, q) != Stone
    ensures q != p && (IsGrain(At(g, p)) || IsGrain(At(g, q))) ==>
      q.row == p.row + 1 && IsGrain(At(g, p)) && (At(g, q) == Air || At(g, q) == Water)
  {
    match RuleOf(At(g, p))
    case Inert =>
      q := p;
      SwapEqual(g, p, p);
    case Spread =>
      q := p;
      if p.row + 1 < |g| {
        match FirstWhere(g, FlowTargets(p), IsAir)
        case None =>
          SwapEqual(g, p, p);
        case Some(k) =>
          q := FlowTargets(p)[k];
      } else {
        SwapEqual(g, p, p);
      }
    case Displace =>
      q := p;
      var w := Weight(At(g, p));
      if p.row + 1 < |g| {
        match FirstWhere(g, DropTargets(p), LighterThan(w))
        case None =>
          SwapEqual(g, p, p);
        case Some(k) =>
          q := DropTargets(p)[k];
          assert LighterThan(w)(At(g, q));
          LighterThanGrain(At(g, p), At(g, q));
      } else {
        SwapEqual(g, p, p);
      }
  }

  /** A visit keeps the count of m in every band reaching the bottom row, except the band starting just below it. */
  lemma VisitCount(g: Grid, p: Pos, lo: int, m: Material)
    requires Rectangular(g) && InBounds(g, p)
    requires 0 <= lo <= |g|
    ensures lo != p.row + 1 ==> Count(Visit(g, p), lo, |g|, m) == Count(g, lo, |g|, m)
  {
    var q := VisitPartner(g, p);
    CountSwap(g, p, q, lo, |g|, m);
  }

  /** A visit never lowers the number of grains in rows lo to the bottom. */
  lemma VisitGrains(g: Grid, p: Pos, lo: int)
    requires Rectangular(g) && InBounds(g, p)
    requires 0 <= lo <= |g|
    ensures GrainsFrom(g, lo) <= GrainsFrom(Visit(g, p), lo)
  {
    var q := VisitPartner(g, p);
    CountSwap(g, p, q, lo, |g|, Sand);
    CountSwap(g, p, q, lo, |g|, Dirt);
  }

  /** A visit neither moves nor creates stone. */
  lemma VisitStone(g: Grid, p: Pos)
    requires Rectangular(g) && InBounds(g, p)
    ensures forall s :: InBounds(g, s) ==> (At(Visit(g, p), s) == Stone <==> At(g, s) == Stone)
  {
    var q := VisitPartner(g, p);
  }

  /** Scanning row r touches rows r and r + 1 only. */
  lemma {:induction false} ScanRowOtherRows(g: Grid, r: int, n: int)
    requires Rectangular(g) && 0 <= r < |g| && 0 <= n <= Width(g)
    ensures forall i :: 0 <= i < |g| && i != r && i != r + 1 ==> ScanRow(g, r, n)[i] == g[i]
    decreases n
  {
    if n > 0 {
      ScanRowOtherRows(g, r, n - 1);
      var h := ScanRow(g, r, n - 1);
      var q := VisitPartner(h, Pos(r, n - 1));
      SwapOtherRows(h, Pos(r, n - 1), q);
    }
  }

  lemma {:induction false} ScanRowCount(g: Grid, r: int, n: int, lo: int, m: Material)
    requires Rectangular(g) && 0 <= r < |g| && 0 <= n <= Width(g)
    requires 0 <= lo <= |g|
    ensures lo != r + 1 ==> Count(ScanRow(g, r, n), lo, |g|, m) == Count(g, lo, |g|, m)
    decreases n
  {
    if n > 0 {
      ScanRowCount(g, r, n - 1, lo, m);
      VisitCount(ScanRow(g, r, n - 1), Pos(r, n - 1), lo, m);
    }
  }

  lemma {:induction false} ScanRowGrains(g: Grid, r: int, n: int, lo: int)
    requires Rectangular(g) && 0 <= r < |g| && 0 <= n <= Width(g)
    requires 0 <= lo <= |g|
    ensures GrainsFrom(g, lo) <= GrainsFrom(ScanRow(g, r, n), lo)
    decreases n
  {
    if n > 0 {
      ScanRowGrains(g, r, n - 1, lo);
      VisitGrains(ScanRow(g, r, n - 1), Pos(r, n - 1), lo);
    }
  }

  lemma {:induction false} ScanRowStone(g: Grid, r: int, n: int)
    requires Rectangular(g) && 0 <= r < |g| && 0 <= n <= Width(g)
    ensures forall s :: InBounds(g, s) ==> (At(ScanRow(g, r, n), s) == Stone <==> At(g, s) == Stone)
    decreases n
  {
    if n > 0 {
      ScanRowStone(g, r, n - 1);
      VisitStone(ScanRow(g, r, n - 1), Pos(r, n - 1));
    }
  }

  /** Scanning the bottom k rows keeps the count of m in every band from row |g| - k or higher up. */
  lemma {:induction false} ScanRowsCount(g: Grid, k: int, lo: int, m: Material)
    requires Rectangular(g) && 0 <= k <= |g|
    requires 0 <= lo <= |g| - k
    ensures Count(ScanRows(g, k), lo, |g|, m) == Count(g, lo, |g|, m)
    decreases k
  {
    if k > 0 {
      ScanRowsCount(g, k - 1, lo, m);
      ScanRowCount(ScanRows(g, k - 1), |g| - k, Width(g), lo, m);
    }
  }

  lemma {:induction false} ScanRowsGrains(g: Grid, k: int, lo: int)
    requires Rectangular(g) && 0 <= k <= |g|
    requires 0 <= lo <= |g|
    ensures GrainsFrom(g, lo) <= GrainsFrom(ScanRows(g, k), lo)
    decreases k
  {
    if k > 0 {
      ScanRowsGrains(g, k - 1, lo);
      ScanRowGrains(ScanRows(g, k - 1), |g| - k, Width(g), lo);
    }
  }

  lemma {:induction false} ScanRowsStone(g: Grid, k: int)
    requires Rectangular(g) && 0 <= k <= |g|
    ensures forall s :: InBounds(g, s) ==> (At(ScanRows(g, k), s) == Stone <==> At(g, s) == Stone)
    decreases k
  {
    if k > 0 {
      ScanRowsStone(g, k - 1);
      ScanRowStone(ScanRows(g, k - 1), |g| - k, Width(g));
    }
  }

  /** Once the bottom k rows are scanned, rows below row |g| - k never change again in the pass. */
  lemma {:induction false} ScanRowsSettled(g: Grid, k: int, k2: int)
    requires Rectangular(g) && 0 <= k <= k2 <= |g|
    ensures forall i :: |g| - k < i < |g| ==> ScanRows(g, k2)[i] == ScanRows(g, k)[i]
    decreases k2
  {
    if k < k2 {
      ScanRowsSettled(g, k, k2 - 1);
      ScanRowOtherRows(ScanRows(g, k2 - 1), |g| - k2, Width(g));
    }
  }

  /**
   * The pass only exchanges cells: the grid after it holds the same
   * materials with the same multiplicities (water included).
   */
  lemma PassIsPermutation(g: Grid)
    requires Rectangular(g)
    ensures Census(Pass(g), 0, |g|) == Census(g, 0, |g|)
    ensures forall m :: Count(Pass(g), 0, |g|, m) == Count(g, 0, |g|, m)
  {
    forall m
      ensures Count(Pass(g), 0, |g|, m) == Count(g, 0, |g|, m)
    {
      ScanRowsCount(g, |g|, 0, m);
    }
    CensusCounts(Pass(g), 0, |g|);
    CensusCounts(g, 0, |g|);
  }

  /** Stone cells never move: a cell holds stone after the pass exactly when it did before. */
  lemma PassKeepsStone(g: Grid)
    requires Rectangular(g)
    ensures forall s :: InBounds(g, s) ==> (At(Pass(g), s) == Stone <==> At(g, s) == Stone)
  {
    ScanRowsStone(g, |g|);
  }

  /**
   * A grain descends at most one row per pass and never rises: the grains
   * in rows r + 1 to the bottom after the pass are at least those there
   * before, and at most those that were in rows r to the bottom before.
   */
  lemma GrainsFallAtMostOneRow(g: Grid, r: int)
    requires Rectangular(g) && 0 <= r < |g|
    ensures GrainsFrom(g, r + 1) <= GrainsFrom(Pass(g), r + 1)
    ensures GrainsFrom(Pass(g), r + 1) <= GrainsFrom(g, r)
  {
    var n := |g|;
    ScanRowsGrains(g, n, r + 1);
    // After the rows n-1 .. r are scanned, the rows below r are final.
    var s := ScanRows(g, n - r);
    ScanRowsSettled(g, n - r, n);
    CountOfSameRows(Pass(g), s, r + 1, n, Sand);
    CountOfSameRows(Pass(g), s, r + 1, n, Dirt);
    CountSplit(s, r, r + 1, n, Sand);
    CountSplit(s, r, r + 1, n, Dirt);
    ScanRowsCount(g, n - r, r, Sand);
    ScanRowsCount(g, n - r, r, Dirt);
  }
}
