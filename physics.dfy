/**
 * The physics pass of the sandbox as functions on grid values: the two
 * local rules (`drop` for grains, `flow` for water), the dispatch on the
 * material of a cell, and the full bottom-up, left-to-right pass in which
 * each visit sees the grid as the earlier visits left it.
 *
 * A neighbour outside the grid is absent and never takes part in an
 * exchange.
 */
module Physics {
  import opened Materials
  import opened Grids

  /** The cells `drop` looks at, in priority order: down, down-left, down-right. */
  function DropTargets(p: Pos): seq<Pos>
  {
    [Pos(p.row + 1, p.col), Pos(p.row + 1, p.col - 1), Pos(p.row + 1, p.col + 1)]
  }

  /** The cells `flow` looks at, in order: down, down-left, down-right, right, left. */
  function FlowTargets(p: Pos): seq<Pos>
  {
    DropTargets(p) + [Pos(p.row, p.col + 1), Pos(p.row, p.col - 1)]
  }

  /** A candidate cell exists on the grid and its material is accepted. */
  predicate Eligible(g: Grid, t: Pos, accept: Material -> bool)
    requires Rectangular(g)
  {
    InBounds(g, t) && accept(At(g, t))
  }

  /** The position in `ts` of the first eligible candidate, if any. */
  function FirstWhere(g: Grid, ts: seq<Pos>, accept: Material -> bool): (k: Option<nat>)
    requires Rectangular(g)
    ensures k.Some? ==> k.value < |ts| && Eligible(g, ts[k.value], accept)
    ensures k.Some? ==> forall j :: 0 <= j < k.value ==> !Eligible(g, ts[j], accept)
    ensures k.None? ==> forall j :: 0 <= j < |ts| ==> !Eligible(g, ts[j], accept)
  {
    if ts == [] then None
    else if Eligible(g, ts[0], accept) then Some(0)
    else
      match FirstWhere(g, ts[1..], accept)
      case None => None
      case Some(k) => Some(k + 1)
  }

  /** Exchange the cell at p with the first eligible candidate; no candidate, no change. */
  function SwapWithFirst(g: Grid, p: Pos, ts: seq<Pos>, accept: Material -> bool): (h: Grid)
    requires Rectangular(g) && InBounds(g, p)
    ensures SameShape(g, h)
  {
    match FirstWhere(g, ts, accept)
    case None => g
    case Some(k) => Swap(g, p, ts[k])
  }

  /** The test `drop` applies to a candidate: strictly lighter than weight w. */
  function LighterThan(w: nat): Material -> bool
  {
    m => Weight(m) < w
  }

  /** The test `flow` applies to a candidate. */
  predicate IsAir(m: Material)
  {
    m == Air
  }

  /**
   * `drop`: nothing on the bottom row; otherwise the cell changes place with
   * the first of down, down-left, down-right that is strictly lighter.
   */
  function Dropped(g: Grid, p: Pos): (h: Grid)
    requires Rectangular(g) && InBounds(g, p)
    ensures SameShape(g, h)
  {
    if p.row + 1 >= |g| then g
    else SwapWithFirst(g, p, DropTargets(p), LighterThan(Weight(At(g, p))))
  }

  /**
   * `flow`: nothing on the bottom row; otherwise the cell changes place with
   * the first air cell among down, down-left, down-right, right, left.
   */
  function Flowed(g: Grid, p: Pos): (h: Grid)
    requires Rectangular(g) && InBounds(g, p)
    ensures SameShape(g, h)
  {
    if p.row + 1 >= |g| then g
    else SwapWithFirst(g, p, FlowTargets(p), IsAir)
  }

  /** One test of `flow`: exchange candidate t with p if t exists and holds air. */
  function FlowTest(g: Grid, p: Pos, t: Pos): (h: Grid)
    requires Rectangular(g) && InBounds(g, p)
    ensures SameShape(g, h)
  {
    if InBounds(g, t) && At(g, t) == Air then Swap(g, t, p) else g
  }

  /**
   * The first k of the five tests of `flow` as the source runs them: each
   * test looks at the grid the earlier tests left, whatever they did.
   */
  function FlowTests(g: Grid, p: Pos, k: nat): (h: Grid)
    requires Rectangular(g) && InBounds(g, p) && k <= 5
    ensures SameShape(g, h)
  {
    if k == 0 then g else FlowTest(FlowTests(g, p, k - 1), p, FlowTargets(p)[k - 1])
  }

  /** One visit of the pass: dispatch on the material the cell holds now. */
  function Visit(g: Grid, p: Pos): (h: Grid)
    requires Rectangular(g) && InBounds(g, p)
    ensures SameShape(g, h)
  {
    match RuleOf(At(g, p))
    case Spread => Flowed(g, p)
    case Inert => g
    case Displace => Dropped(g, p)
  }

  /** Visit columns 0 .. n-1 of row r, left to right. */
  function ScanRow(g: Grid, r: int, n: int): (h: Grid)
    requires Rectangular(g) && 0 <= r < |g| && 0 <= n <= Width(g)
    ensures SameShape(g, h)
    decreases n
  {
    if n == 0 then g else Visit(ScanRow(g, r, n - 1), Pos(r, n - 1))
  }

  /** Scan the bottom k rows, from the bottom row up. */
  function ScanRows(g: Grid, k: int): (h: Grid)
    requires Rectangular(g) && 0 <= k <= |g|
    ensures SameShape(g, h)
    decreases k
  {
    if k == 0 then g else ScanRow(ScanRows(g, k - 1), |g| - k, Width(g))
  }

  /** The whole physics pass of one tick. */
  function Pass(g: Grid): (h: Grid)
    requires Rectangular(g)
    ensures SameShape(g, h)
  {
    ScanRows(g, |g|)
  }
}
