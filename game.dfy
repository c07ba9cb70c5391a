/**
 * The game object of the sandbox: the grid of material cells, mutated in
 * place by the paint step and the physics pass, and the brush, material
 * and mouse state that the input step updates.
 *
 * Every method is proved against the functions of the Physics and
 * Controls modules; what those functions promise is proved in
 * PassProperties, RuleProperties and Controls.
 */
module Sandbox {
  import opened Materials
  import opened Grids
  import opened Physics
  import opened RuleProperties
  import opened Controls

  /** The mouse as reported at the end of the input step: pixel position and left button. */
  datatype Mouse = Mouse(x: int, y: int, leftDown: bool)

  /** Integer division rounding toward zero, as C++ divides. */
  function DivToZero(a: int, b: int): int
    requires b > 0
  {
    if a >= 0 then a / b else -((-a) / b)
  }

  /**
   * The cells the paint step writes, for pointer cell (pr, pc) and extent
   * size on an h-by-w grid. Rows out of range are skipped; within a row the
   * scan stops at the first column out of range, so nothing is written when
   * the leftmost column pc - size is negative, and otherwise the columns
   * pc - size .. min(pc + size, w - 1) of every row in range are written.
   */
  predicate InStamp(pr: int, pc: int, size: int, h: int, w: int, r: int, c: int)
  {
    0 <= pc - size &&
    pr - size <= r <= pr + size && 0 <= r < h &&
    pc - size <= c <= pc + size && c < w
  }

  /** The grid after stamping material m. */
  function Painted(g: Grid, pr: int, pc: int, size: int, m: Material): (h: Grid)
    requires Rectangular(g)
    ensures SameShape(g, h)
    ensures forall p :: InBounds(g, p) ==>
      At(h, p) == if InStamp(pr, pc, size, |g|, Width(g), p.row, p.col) then m else At(g, p)
  {
    seq(|g|, r requires 0 <= r < |g| =>
      seq(|g[r]|, c requires 0 <= c < |g[r]| =>
        if InStamp(pr, pc, size, |g|, Width(g), r, c) then m else g[r][c]))
  }

  class Game {
    /** size_h and size_w: the number of rows and columns. */
    const height: nat
    const width: nat
    /** size_p: the pixel size of one cell. */
    const cellSize: int
    /** The five-entry material table; number key k selects entry k - 1. */
    const materials: seq<Material>

    var grid: array2<Material>
    var brushSize: int
    var current: Material
    var running: bool
    var mouse: Mouse

    ghost predicate Valid()
      reads this
    {
      grid.Length0 == height && grid.Length1 == width &&
      cellSize > 0 && |materials| == 5 && brushSize >= 0
    }

    /** The grid as a value. */
    ghost function Cells(): (g: Grid)
      reads this, grid
      ensures |g| == grid.Length0 && Rectangular(g)
      ensures grid.Length0 > 0 ==> Width(g) == grid.Length1
      ensures forall r, c :: 0 <= r < grid.Length0 && 0 <= c < grid.Length1 ==> g[r][c] == grid[r, c]
    {
      seq(grid.Length0, r requires 0 <= r < grid.Length0 reads this, grid =>
        seq(grid.Length1, c requires 0 <= r < grid.Length0 && 0 <= c < grid.Length1 reads this, grid => grid[r, c]))
    }

    /** The settings the controls change, as one value. */
    function Controls(): Settings
      reads this
    {
      Settings(brushSize, current, running)
    }

    /** The pointer cell: the mouse position divided by the cell size. */
    function PointerRow(): int
      requires Valid()
      reads this
    {
      DivToZero(mouse.y, cellSize)
    }

    function PointerCol(): int
      requires Valid()
      reads this
    {
      DivToZero(mouse.x, cellSize)
    }

    lemma CellsAre(h: Grid)
      requires Valid() && Rectangular(h) && |h| == height && (height > 0 ==> Width(h) == width)
      requires forall p :: InBounds(h, p) ==> At(h, p) == grid[p.row, p.col]
      ensures Cells() == h
    {
      forall p | InBounds(h, p)
        ensures At(Cells(), p) == At(h, p)
      {
      }
      GridExt(Cells(), h);
    }

    /**
     * The game on a display of the given size: every cell air, brush size 2,
     * running, the first material of the table selected.
     */
    constructor (displayWidth: int, displayHeight: int, cellSize: int, materials: seq<Material>)
      requires cellSize > 0 && displayWidth >= 0 && displayHeight >= 0 && |materials| == 5
      ensures Valid() && fresh(grid)
      ensures width == displayWidth / cellSize && height == displayHeight / cellSize
      ensures this.cellSize == cellSize && this.materials == materials
      ensures forall r, c :: 0 <= r < height && 0 <= c < width ==> grid[r, c] == Air
      ensures brushSize == 2 && running && current == materials[0]
    {
      this.cellSize := cellSize;
      this.materials := materials;
      width := displayWidth / cellSize;
      height := displayHeight / cellSize;
      grid := new Material[displayHeight / cellSize, displayWidth / cellSize]((r, c) => Air);
      running := true;
      brushSize := 2;
      current := materials[0];
      mouse := Mouse(0, 0, false);
    }

    /** `switchMaterial`: select entry index of the material table. */
    method SwitchMaterial(index: int)
      requires Valid() && 0 <= index < 5
      modifies this`current
      ensures Valid() && current == materials[index]
    {
      current := materials[index];
    }

    /**
     * `input`: react to the events of one tick in order, then record the
     * mouse; a quit event stops the game and leaves the rest of the events
     * and the mouse unread.
     */
    method Input(events: seq<Event>, newMouse: Mouse)
      requires Valid()
      modifies this`brushSize, this`current, this`running, this`mouse
      ensures Valid()
      ensures Controls() == OnEvents(old(Controls()), events, materials)
      ensures mouse == if Quit in events then old(mouse) else newMouse
    {
      var i := 0;
      while i < |events|
        invariant 0 <= i <= |events| && Valid()
        invariant Quit !in events[..i] && mouse == old(mouse)
        invariant OnEvents(Controls(), events[i..], materials) == OnEvents(old(Controls()), events, materials)
      {
        assert events[i..] == [events[i]] + events[i + 1..];
        match events[i] {
          case Quit =>
            running := false;
            assert Quit in events;
            return;
          case KeyDown(key) =>
            if key == Key1 {
              SwitchMaterial(0);
            } else if key == Key1 + 1 {
              SwitchMaterial(1);
            } else if key == Key1 + 2 {
              SwitchMaterial(2);
            } else if key == Key1 + 3 {
              SwitchMaterial(3);
            } else if key == Key1 + 4 {
              SwitchMaterial(4);
            } else if key == KeyPlus {
              brushSize := brushSize + 1;
            } else if key == KeyMinus {
              if brushSize != 0 {
                brushSize := brushSize - 1;
              }
            }
          case OtherEvent =>
        }
        assert events[..i + 1] == events[..i] + [events[i]];
        i := i + 1;
      }
      assert events[..i] == events;
      mouse := newMouse;
    }

    /** `swap`: exchange two cells of the grid. */
    method SwapCells(p: Pos, q: Pos)
      requires Valid()
      requires 0 <= p.row < height && 0 <= p.col < width && 0 <= q.row < height && 0 <= q.col < width
      modifies grid
      ensures Cells() == Swap(old(Cells()), p, q)
    {
      ghost var g := Cells();
      var t := grid[p.row, p.col];
      grid[p.row, p.col] := grid[q.row, q.col];
      grid[q.row, q.col] := t;
      CellsAre(Swap(g, p, q));
    }

    /**
     * `drop`: the cell at (r, c) changes place with the first of down,
     * down-left, down-right that is strictly lighter, as `Dropped` says.
     */
    method Drop(r: int, c: int)
      requires Valid() && 0 <= r < height && 0 <= c < width
      modifies grid
      ensures Cells() == Dropped(old(Cells()), Pos(r, c))
    {
      ghost var g := Cells();
      var p := Pos(r, c);
      if r + 1 >= height {
        return;
      }
      var weight := Weight(grid[r, c]);
      ghost var lighter := LighterThan(weight);
      ghost var ts := DropTargets(p);
      assert !Eligible(g, ts[0], lighter) <==> weight <= Weight(grid[r + 1, c]);
      if weight > Weight(grid[r + 1, c]) {
        DropsInto(g, p, 0);
        SwapSymmetric(g, Pos(r + 1, c), p);
        SwapCells(Pos(r + 1, c), p);
        return;
      }
      assert !Eligible(g, ts[1], lighter) <==> !(c - 1 >= 0 && weight > Weight(grid[r + 1, c - 1]));
      if c - 1 >= 0 && weight > Weight(grid[r + 1, c - 1]) {
        DropsInto(g, p, 1);
        SwapSymmetric(g, Pos(r + 1, c - 1), p);
        SwapCells(Pos(r + 1, c - 1), p);
        return;
      }
      assert !Eligible(g, ts[2], lighter) <==> !(c + 1 < width && weight > Weight(grid[r + 1, c + 1]));
      if c + 1 < width && weight > Weight(grid[r + 1, c + 1]) {
        DropsInto(g, p, 2);
        SwapSymmetric(g, Pos(r + 1, c + 1), p);
        SwapCells(Pos(r + 1, c + 1), p);
        return;
      }
      DropStays(g, p);
    }

    /**
     * Test k of `flow`: exchange the neighbour t (candidate k of the cell p)
     * with p if t is on the grid and holds air.
     */
    method SwapIfAir(ghost g: Grid, t: Pos, p: Pos, ghost k: nat)
      requires Valid() && 0 <= p.row < height && 0 <= p.col < width
      requires k < 5 && t == FlowTargets(p)[k]
      requires Rectangular(g) && InBounds(g, p) && Cells() == FlowTests(g, p, k)
      modifies grid
      ensures Cells() == FlowTest(old(Cells()), p, t)
      ensures Cells() == FlowTests(g, p, k + 1)
    {
      if 0 <= t.row < height && 0 <= t.col < width && grid[t.row, t.col] == Air {
        SwapCells(t, p);
      }
    }

    /**
     * `flow`: five independent tests, each exchanging the cell at (r, c)
     * with one neighbour if that neighbour is air at the time of the test.
     */
    method Flow(r: int, c: int)
      requires Valid() && 0 <= r < height && 0 <= c < width
      modifies grid
      ensures Cells() == Flowed(old(Cells()), Pos(r, c))
    {
      ghost var g := Cells();
      if r + 1 >= height {
        return;
      }
      var p := Pos(r, c);
      SwapIfAir(g, Pos(r + 1, c), p, 0);
      SwapIfAir(g, Pos(r + 1, c - 1), p, 1);
      SwapIfAir(g, Pos(r + 1, c + 1), p, 2);
      SwapIfAir(g, Pos(r, c + 1), p, 3);
      SwapIfAir(g, Pos(r, c - 1), p, 4);
      FlowTestsAreFlowed(g, p);
    }

    /**
     * The paint step: stamp material m over the rows pr - size .. pr + size.
     * A row out of range is skipped; a row in range is stamped from column
     * pc - size rightwards and stops at the first column out of range.
     */
    method Paint(pr: int, pc: int, size: int, m: Material)
      requires Valid()
      modifies grid
      ensures forall r, c :: 0 <= r < height && 0 <= c < width ==>
        grid[r, c] == if InStamp(pr, pc, size, height, width, r, c) then m else old(grid[r, c])
    {
      var i := -size;
      while i <= size
        invariant size >= 0 ==> -size <= i <= size + 1
        invariant size < 0 ==> i == -size
        invariant forall r, c :: 0 <= r < height && 0 <= c < width ==>
          grid[r, c] == if InStamp(pr, pc, size, height, width, r, c) && r < pr + i then m else old(grid[r, c])
      {
        var j := -size;
        while j <= size
          invariant -size <= j <= size + 1
          invariant j > -size ==> 0 <= pr + i < height && 0 <= pc - size && pc + j - 1 < width
          invariant forall r, c :: 0 <= r < height && 0 <= c < width ==>
            grid[r, c] ==
              if InStamp(pr, pc, size, height, width, r, c) && (r < pr + i || (r == pr + i && c < pc + j)) then m
              else old(grid[r, c])
        {
          var r := pr + i;
          var c := pc + j;
          if r >= height || r < 0 || c >= width || c < 0 {
            break;
          }
          grid[r, c] := m;
          j := j + 1;
        }
        i := i + 1;
      }
    }

    /** One visit of the pass: water flows, air and stone stay, anything else drops. */
    method VisitCell(r: int, c: int)
      requires Valid() && 0 <= r < height && 0 <= c < width
      modifies grid
      ensures Cells() == Visit(old(Cells()), Pos(r, c))
    {
      if grid[r, c] == Water {
        Flow(r, c);
      } else if grid[r, c] != Air && grid[r, c] != Stone {
        Drop(r, c);
      }
    }

    /**
     * The physics pass of `update`: rows from the bottom one up, columns
     * from left to right, each visit seeing the earlier visits' changes.
     */
    method RunPass()
      requires Valid()
      modifies grid
      ensures Cells() == Pass(old(Cells()))
    {
      ghost var g := Cells();
      var r := height - 1;
      while r >= 0
        invariant -1 <= r < height
        invariant Cells() == ScanRows(g, height - 1 - r)
      {
        var c := 0;
        while c < width
          invariant 0 <= c <= width
          invariant Cells() == ScanRow(ScanRows(g, height - 1 - r), r, c)
        {
          VisitCell(r, c);
          c := c + 1;
        }
        r := r - 1;
      }
    }

    /** `update`: the paint step while the left button is held, then the physics pass. */
    method Update()
      requires Valid()
      modifies grid
      ensures Cells() ==
        Pass(if mouse.leftDown then Painted(old(Cells()), PointerRow(), PointerCol(), brushSize / 2, current)
             else old(Cells()))
    {
      var size := brushSize / 2;
      if mouse.leftDown {
        ghost var start := Cells();
        Paint(DivToZero(mouse.y, cellSize), DivToZero(mouse.x, cellSize), size, current);
        CellsAre(Painted(start, PointerRow(), PointerCol(), size, current));
      }
      RunPass();
    }

    /** One frame of the game loop, drawing left out: `input`, then `update`. */
    method Tick(events: seq<Event>, newMouse: Mouse)
      requires Valid()
      modifies this`brushSize, this`current, this`running, this`mouse, grid
      ensures Valid()
      ensures Controls() == OnEvents(old(Controls()), events, materials)
      ensures mouse == if Quit in events then old(mouse) else newMouse
      ensures Cells() ==
        Pass(if mouse.leftDown then Painted(old(Cells()), PointerRow(), PointerCol(), brushSize / 2, current)
             else old(Cells()))
    {
      ghost var start := Cells();
      Input(events, newMouse);
      CellsAre(start);
      Update();
    }
  }
}
