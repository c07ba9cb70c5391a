/**
 * The two local rules written as the source's chains of tests, and what
 * those chains imply about which materials displace which.
 */
module RuleProperties {
  import opened Materials
  import opened Grids
  import opened Physics

  /** Candidate k of `drop` is the first strictly lighter one: the cell changes place with it. */
  lemma DropsInto(g: Grid, p: Pos, k: nat)
    requires Rectangular(g) && InBounds(g, p) && p.row + 1 < |g| && k < 3
    requires Eligible(g, DropTargets(p)[k], LighterThan(Weight(At(g, p))))
    requires forall j :: 0 <= j < k ==> !Eligible(g, DropTargets(p)[j], LighterThan(Weight(At(g, p))))
    ensures Dropped(g, p) == Swap(g, p, DropTargets(p)[k])
  {
    var k' := FirstWhere(g, DropTargets(p), LighterThan(Weight(At(g, p))));
    assert k' == Some(k);
  }

  /** No candidate of `drop` is lighter: nothing changes. */
  lemma DropStays(g: Grid, p: Pos)
    requires Rectangular(g) && InBounds(g, p)
    requires forall j :: 0 <= j < 3 ==> !Eligible(g, DropTargets(p)[j], LighterThan(Weight(At(g, p))))
    ensures Dropped(g, p) == g
  {
    var k' := FirstWhere(g, DropTargets(p), LighterThan(Weight(At(g, p))));
    assert k' == None;
  }

  /**
   * `drop` as an if/else chain: the first of down, down-left, down-right
   * that exists and is strictly lighter than the cell changes place with it;
   * at most one exchange happens, and none on the bottom row.
   */
  lemma DroppedChain(g: Grid, p: Pos)
    requires Rectangular(g) && InBounds(g, p)
    ensures p.row + 1 >= |g| ==> Dropped(g, p) == g
    ensures p.row + 1 < |g| ==>
      var w := Weight(At(g, p));
      var down, left, right := Pos(p.row + 1, p.col), Pos(p.row + 1, p.col - 1), Pos(p.row + 1, p.col + 1);
      Dropped(g, p) ==
        if Weight(At(g, down)) < w then Swap(g, p, down)
        else if 0 <= left.col && Weight(At(g, left)) < w then Swap(g, p, left)
        else if right.col < Width(g) && Weight(At(g, right)) < w then Swap(g, p, right)
        else g
  {
    if p.row + 1 < |g| {
      var w := Weight(At(g, p));
      var down, left, right := Pos(p.row + 1, p.col), Pos(p.row + 1, p.col - 1), Pos(p.row + 1, p.col + 1);
      var accept := LighterThan(w);
      assert Eligible(g, down, accept) <==> Weight(At(g, down)) < w;
      assert Eligible(g, left, accept) <==> 0 <= left.col && Weight(At(g, left)) < w;
      assert Eligible(g, right, accept) <==> right.col < Width(g) && Weight(At(g, right)) < w;
      if Eligible(g, down, accept) {
        DropsInto(g, p, 0);
      } else if Eligible(g, left, accept) {
        DropsInto(g, p, 1);
      } else if Eligible(g, right, accept) {
        DropsInto(g, p, 2);
      } else {
        DropStays(g, p);
      }
    }
  }

  /** Candidate k of `flow` is the first air cell: the cell changes place with it. */
  lemma FlowsInto(g: Grid, p: Pos, k: nat)
    requires Rectangular(g) && InBounds(g, p) && p.row + 1 < |g| && k < 5
    requires Eligible(g, FlowTargets(p)[k], IsAir)
    requires forall j :: 0 <= j < k ==> !Eligible(g, FlowTargets(p)[j], IsAir)
    ensures Flowed(g, p) == Swap(g, p, FlowTargets(p)[k])
  {
    var k' := FirstWhere(g, FlowTargets(p), IsAir);
    assert k' == Some(k);
  }

  /** No candidate of `flow` is air: nothing changes. */
  lemma FlowStays(g: Grid, p: Pos)
    requires Rectangular(g) && InBounds(g, p)
    requires forall j :: 0 <= j < 5 ==> !Eligible(g, FlowTargets(p)[j], IsAir)
    ensures Flowed(g, p) == g
  {
    var k' := FirstWhere(g, FlowTargets(p), IsAir);
    assert k' == None;
  }

  /**
   * `flow` as a chain: the first air cell among down, down-left, down-right,
   * right, left changes place with the cell; nothing happens on the bottom
   * row or when no neighbour is air.
   */
  lemma FlowedChain(g: Grid, p: Pos)
    requires Rectangular(g) && InBounds(g, p)
    ensures p.row + 1 >= |g| ==> Flowed(g, p) == g
    ensures p.row + 1 < |g| ==>
      var down, downLeft, downRight := Pos(p.row + 1, p.col), Pos(p.row + 1, p.col - 1), Pos(p.row + 1, p.col + 1);
      var right, left := Pos(p.row, p.col + 1), Pos(p.row, p.col - 1);
      Flowed(g, p) ==
        if At(g, down) == Air then Swap(g, p, down)
        else if 0 <= downLeft.col && At(g, downLeft) == Air then Swap(g, p, downLeft)
        else if downRight.col < Width(g) && At(g, downRight) == Air then Swap(g, p, downRight)
        else if right.col < Width(g) && At(g, right) == Air then Swap(g, p, right)
        else if 0 <= left.col && At(g, left) == Air then Swap(g, p, left)
        else g
  {
    if p.row + 1 < |g| {
      var ts := FlowTargets(p);
      assert ts == [Pos(p.row + 1, p.col), Pos(p.row + 1, p.col - 1), Pos(p.row + 1, p.col + 1),
                    Pos(p.row, p.col + 1), Pos(p.row, p.col - 1)];
      if Eligible(g, ts[0], IsAir) {
        FlowsInto(g, p, 0);
      } else if Eligible(g, ts[1], IsAir) {
        FlowsInto(g, p, 1);
      } else if Eligible(g, ts[2], IsAir) {
        FlowsInto(g, p, 2);
      } else if Eligible(g, ts[3], IsAir) {
        FlowsInto(g, p, 3);
      } else if Eligible(g, ts[4], IsAir) {
        FlowsInto(g, p, 4);
      } else {
        FlowStays(g, p);
      }
    }
  }

  /**
   * After k of the five sequential tests of `flow`, the cell has been
   * exchanged with the first air candidate if that candidate is among the
   * first k, and nothing has changed otherwise: once the cell holds air,
   * every later test trades air for air.
   */
  lemma {:induction false} FlowTestsFirstAir(g: Grid, p: Pos, k: nat)
    requires Rectangular(g) && InBounds(g, p) && k <= 5
    ensures var first := FirstWhere(g, FlowTargets(p), IsAir);
      FlowTests(g, p, k) == if first.Some? && first.value < k then Swap(g, p, FlowTargets(p)[first.value]) else g
  {
    if k > 0 {
      FlowTestsFirstAir(g, p, k - 1);
      var ts := FlowTargets(p);
      assert ts == [Pos(p.row + 1, p.col), Pos(p.row + 1, p.col - 1), Pos(p.row + 1, p.col + 1),
                    Pos(p.row, p.col + 1), Pos(p.row, p.col - 1)];
      var first := FirstWhere(g, ts, IsAir);
      var h := FlowTests(g, p, k - 1);
      var t := ts[k - 1];
      if first.Some? && first.value < k - 1 {
        var q := ts[first.value];
        assert At(h, p) == Air;
        if InBounds(h, t) && At(h, t) == Air {
          SwapEqual(h, t, p);
        }
      } else if first.Some? && first.value == k - 1 {
        SwapSymmetric(g, t, p);
      } else {
        assert !Eligible(g, t, IsAir);
      }
    }
  }

  /** The five sequential tests of `flow` make exactly the one exchange `Flowed` describes. */
  lemma FlowTestsAreFlowed(g: Grid, p: Pos)
    requires Rectangular(g) && InBounds(g, p) && p.row + 1 < |g|
    ensures FlowTests(g, p, 5) == Flowed(g, p)
  {
    FlowTestsFirstAir(g, p, 5);
  }

  /**
   * Sand and dirt never displace each other: dropping a grain leaves every
   * other grain where it was (and stone too).
   */
  lemma GrainsDoNotDisplaceGrains(g: Grid, p: Pos)
    requires Rectangular(g) && InBounds(g, p) && IsGrain(At(g, p))
    ensures forall s :: InBounds(g, s) && s != p && (IsGrain(At(g, s)) || At(g, s) == Stone) ==>
      At(Dropped(g, p), s) == At(g, s)
  {
    DroppedChain(g, p);
    forall m | IsGrain(m) || m == Stone
      ensures !(Weight(m) < Weight(At(g, p)))
    {
      LighterThanGrain(At(g, p), m);
    }
  }

  /** A grain sinks through water (and air) directly below it. */
  lemma GrainSinksThroughWater(g: Grid, p: Pos)
    requires Rectangular(g) && InBounds(g, p) && IsGrain(At(g, p))
    requires p.row + 1 < |g| && (At(g, Pos(p.row + 1, p.col)) == Water || At(g, Pos(p.row + 1, p.col)) == Air)
    ensures Dropped(g, p) == Swap(g, p, Pos(p.row + 1, p.col))
  {
    DroppedChain(g, p);
    LighterThanGrain(At(g, p), At(g, Pos(p.row + 1, p.col)));
  }

  /** No visit of a bottom-row cell changes the grid. */
  lemma BottomRowIsInert(g: Grid, c: int)
    requires Rectangular(g) && InBounds(g, Pos(|g| - 1, c))
    ensures Visit(g, Pos(|g| - 1, c)) == g
  {
  }
}
