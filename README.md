# Falling-sand sandbox: a verified model of the game core

This project models the simulation core of a small falling-sand game
(`src/Game.cpp`). The world is a grid of cells, and each cell holds one of
five materials: air, water, sand, dirt or stone.

Each tick has two steps:

- **Input step.** The game reads the tick's events. Number keys 1–5 select a
  material, `+` and `-` grow and shrink the brush, and a quit event stops the
  game. It then records the mouse.
- **Update step.** While the left button is held, the game stamps the
  selected material around the pointer cell. It then runs one physics pass.
  The pass visits rows from the bottom one up, and columns from left to right
  within each row. Each visit sees the changes the earlier visits made:
  - water **flows**: it changes place with the first air cell among down,
    down-left, down-right, right and left;
  - sand and dirt **drop**: they change place with the first of down,
    down-left and down-right that is strictly lighter;
  - air and stone stay where they are.

The game object is the class `Sandbox.Game`:

- `grid: array2<Material>` holds the cells;
- `brushSize`, `current`, `running` and `mouse` are the fields `input` updates.

Its methods (`Paint`, `Drop`, `Flow`, `Update`, `Input` and the others) work
in place with the loops and tests of the source. Each is proved against a
pure function on grid values (`seq<seq<Material>>`):

- `Physics` defines one visit (`Visit`), the scan of one row (`ScanRow`),
  the scan of the bottom k rows (`ScanRows`) and the whole pass (`Pass`);
- `Controls` defines the key handling (`OnKey`, `OnEvents`);
- `Sandbox.Painted` is the paint step.

The properties of those functions are proved in separate modules:

- `RuleProperties`: the two rules as the source's if/else chains, the five
  sequential flow tests, and which materials displace which;
- `PassProperties`: the pass is a permutation, stone never moves, grains
  fall at most one row;
- `Controls`: the brush is never negative, and a quit stops processing;
- `Scenarios`: small worked passes;
- `StoredRows`: the row layout the constructor actually builds (see
  Findings).

Modules follow the program's structure:

| module | contents |
|---|---|
| `Materials` | the five materials, the weight table, what the pass does with each |
| `Grids` | grids as values, the cell exchange, per-material counts of a band of rows |
| `Physics` | the two rules (`drop`, `flow`) and the pass as functions |
| `RuleProperties` | the chains of tests of both rules, and what they imply |
| `PassProperties` | what one pass promises |
| `Controls` | the key handling of `input` |
| `Sandbox` | the `Game` class: grid in an `array2`, methods with loops |
| `Scenarios` | worked examples of one pass |
| `StoredRows` | the as-written layout with hidden columns |

Names in the source map to the model as follows:

- `size_h` / `size_w` / `size_p` are `height` / `width` / `cellSize`;
- `brush_size` is `brushSize`;
- `current_material` is `current`;
- `weight_values` is `Weight`;
- `swap` and `std::swap` are `SwapCells` and `Grids.Swap`.

Two details of the code shape the model:

- **Paint `break`.** The `break` in the paint loop leaves only the inner
  column loop, so later rows are still stamped. The stamp is not abandoned
  as a whole.
- **Flow.** `flow` does not cascade over several cells. After the first real
  exchange the visited cell holds air, so every later test of the same call
  trades air for air. Water still travels several columns in one pass,
  because the row scan reaches it again at its new place
  (`Scenarios.WaterIsRevisitedAfterMovingRight`).

## Model

| member | source | states |
|---|---|---|
| Materials.Weight | src/Game.cpp:184-191 | the weight table is total over the five materials, never above 10, and zero exactly for air |
| Materials.RuleOf | src/Game.cpp:42-50 | the pass hands water (and only water) to `flow`, skips exactly air and stone, and hands exactly sand and dirt to `drop` |
| Materials.WeightOrder | src/Game.cpp:184-191 | air < water < sand = dirt < stone, and every other material is lighter than stone |
| Materials.LighterThanGrain | src/Game.cpp:184-191 | a material is strictly lighter than sand or dirt exactly when it is air or water |
| Grids.Swap | src/Game.cpp:10-14 | exchanging two cells puts each one's material in the other and leaves every other cell and the grid's shape unchanged |
| Grids.SwapOtherRows | src/Game.cpp:10-14 | an exchange leaves every row holding neither cell unchanged |
| Grids.CountWrite | src/Game.cpp:10-14 | overwriting one cell trades one occurrence of the old material for one of the new in every band of rows holding the cell, and changes no other band |
| Grids.CountSwap | src/Game.cpp:10-14 | an exchange keeps the count of every material in a band holding both cells or neither; in a band holding only one of them, the material of the cell outside the band moves in and that of the cell inside moves out |
| Grids.CensusCounts | src/Game.cpp:38-52 | the multiset of materials of a band holds each material as often as the band counts it |
| Physics.FirstWhere | src/Game.cpp:125-133 | returns the least index of an eligible candidate (one on the grid that passes the test), or none when no candidate is eligible |
| Physics.Dropped | src/Game.cpp:115-134 | `drop` keeps the grid's shape; nothing happens on the bottom row, otherwise the cell changes place with the first candidate `FirstWhere` finds among down, down-left, down-right that is strictly lighter (spelled out by `RuleProperties.DroppedChain`) |
| Physics.Flowed | src/Game.cpp:136-158 | `flow` keeps the grid's shape; nothing happens on the bottom row, otherwise the cell changes place with the first air candidate among down, down-left, down-right, right, left (spelled out by `RuleProperties.FlowedChain`) |
| Physics.FlowTest | src/Game.cpp:138-141 | one test of `flow` keeps the grid's shape, exchanging the cell with the neighbour only when that neighbour is on the grid and holds air |
| Physics.FlowTests | src/Game.cpp:138-157 | the first k tests of `flow` in the source's order, each on the grid the earlier ones left, keep the grid's shape (related to `Flowed` by `RuleProperties.FlowTestsAreFlowed`) |
| Physics.Visit | src/Game.cpp:42-50 | one visit keeps the grid's shape, handing water to `flow`, sand and dirt to `drop`, and leaving air and stone alone |
| Physics.ScanRow | src/Game.cpp:40-51 | the column loop over the first n columns of a row, left to right, keeps the grid's shape |
| Physics.ScanRows | src/Game.cpp:38-52 | the row loop over the bottom k rows, from the bottom up, keeps the grid's shape |
| Physics.Pass | src/Game.cpp:38-52 | the pass keeps the grid's shape |
| RuleProperties.DropsInto | src/Game.cpp:125-133 | when candidate k of `drop` is the first that is strictly lighter, the cell changes place with it and only with it |
| RuleProperties.DropStays | src/Game.cpp:125-133 | when no candidate of `drop` is strictly lighter, nothing changes |
| RuleProperties.DroppedChain | src/Game.cpp:115-134 | `drop` does nothing on the bottom row; otherwise it is the if/else chain over down, down-left, down-right with the strict weight test, one exchange at most, with an absent neighbour never taken |
| RuleProperties.FlowsInto | src/Game.cpp:138-157 | when candidate k of `flow` is the first air cell, the water changes place with it |
| RuleProperties.FlowStays | src/Game.cpp:138-157 | when no candidate of `flow` is air, nothing changes |
| RuleProperties.FlowedChain | src/Game.cpp:136-158 | `flow` does nothing on the bottom row; otherwise the water changes place with the first air cell among down, down-left, down-right, right, left, and with nothing when none is air |
| RuleProperties.FlowTestsFirstAir | src/Game.cpp:138-157 | after the first k of the five sequential tests, the cell has changed place with the first air candidate if that candidate is among the first k, and nothing has changed otherwise |
| RuleProperties.FlowTestsAreFlowed | src/Game.cpp:136-158 | the five sequential `std::swap` tests make exactly the single exchange with the first air cell: at most two cells change |
| RuleProperties.GrainsDoNotDisplaceGrains | src/Game.cpp:125-133 | dropping sand or dirt never moves another grain or a stone |
| RuleProperties.GrainSinksThroughWater | src/Game.cpp:125-127 | a grain with water or air directly below changes place with that cell |
| RuleProperties.BottomRowIsInert | src/Game.cpp:115-137 | no visit of a bottom-row cell changes the grid |
| PassProperties.VisitPartner | src/Game.cpp:38-52 | every visit exchanges the cell with one cell (itself when nothing moves) on the same row or the row below; stone never takes part; a grain that takes part moves one row down in place of air or water |
| PassProperties.VisitCount | src/Game.cpp:38-52 | a visit keeps the count of every material in each band reaching the bottom row, except the band starting just below the visited row |
| PassProperties.VisitGrains | src/Game.cpp:38-52 | a visit never lowers the number of grains in any band reaching the bottom row |
| PassProperties.VisitStone | src/Game.cpp:38-52 | a visit neither moves nor creates stone |
| PassProperties.ScanRowOtherRows | src/Game.cpp:40-51 | scanning row r changes rows r and r + 1 only |
| PassProperties.ScanRowCount | src/Game.cpp:40-51 | scanning a row keeps the material counts of every band reaching the bottom, except the band starting just below it |
| PassProperties.ScanRowGrains | src/Game.cpp:40-51 | scanning a row never lowers the grains of a band reaching the bottom |
| PassProperties.ScanRowStone | src/Game.cpp:40-51 | scanning a row neither moves nor creates stone |
| PassProperties.ScanRowsCount | src/Game.cpp:38-52 | scanning the bottom k rows keeps the material counts of every band starting at row size_h - k or above |
| PassProperties.ScanRowsGrains | src/Game.cpp:38-52 | scanning the bottom k rows never lowers the grains of a band reaching the bottom |
| PassProperties.ScanRowsStone | src/Game.cpp:38-52 | scanning the bottom k rows neither moves nor creates stone |
| PassProperties.ScanRowsSettled | src/Game.cpp:38-52 | once the bottom k rows are scanned, the rows below row size_h - k do not change for the rest of the pass |
| PassProperties.PassIsPermutation | src/Game.cpp:38-52 | the pass only exchanges cells: afterwards the grid holds the same materials with the same multiplicities, water included |
| PassProperties.PassKeepsStone | src/Game.cpp:38-52 | a cell holds stone after the pass exactly when it did before |
| PassProperties.GrainsFallAtMostOneRow | src/Game.cpp:38-52 | grains never rise, and fall at most one row per pass: the grains below row r after the pass are at least those there before and at most those in row r and below before |
| Controls.OnKey | src/Game.cpp:69-90 | keys 1-5 select entries 0-4 of the material table, and no other key changes the material; the brush grows by one exactly on key 61 and shrinks by one exactly on key 45 when not zero; running is untouched and a non-negative brush stays non-negative |
| Controls.OnEvents | src/Game.cpp:58-93 | the events of one tick, in order, up to the first quit: the material afterwards is the old one or an entry of the material table, and a stopped game is never started again |
| Controls.BrushNeverNegative | src/Game.cpp:87-90 | no sequence of events makes a non-negative brush size negative |
| Controls.RunningUnlessQuit | src/Game.cpp:60-63 | after the events of a tick the game runs exactly when it ran before and no quit event came |
| Controls.QuitStopsProcessing | src/Game.cpp:58-63 | events after the first quit event have no effect |
| Controls.BrushMovesOneStepPerEvent | src/Game.cpp:84-90 | each event changes the brush size by at most one |
| Sandbox.Painted | src/Game.cpp:27-36 | painting keeps the grid's shape; a cell holds the brush material afterwards exactly when it lies in the stamp `InStamp` describes, and keeps its material otherwise |
| Sandbox.Game.constructor | src/Game.cpp:160-195 | the grid is size_w = display width / cell size by size_h = display height / cell size, every cell air; brush size 2, running, first material of the table selected |
| Sandbox.Game.SwitchMaterial | src/Game.cpp:111-113 | selects entry index of the material table |
| Sandbox.Game.Input | src/Game.cpp:55-95 | the brush, material and running state become what the key handling of the event list (stopping at a quit) gives; the mouse is recorded unless a quit came first |
| Sandbox.Game.SwapCells | src/Game.cpp:10-14 | the grid after the call is the exchange of the two cells |
| Sandbox.Game.Drop | src/Game.cpp:115-134 | the in-place `drop` leaves the grid as the drop rule says (the chain of `RuleProperties.DroppedChain`) |
| Sandbox.Game.SwapIfAir | src/Game.cpp:138-157 | one flow test: exchange with the neighbour if it is on the grid and holds air, which advances the sequence of tests by one |
| Sandbox.Game.Flow | src/Game.cpp:136-158 | the five in-place tests leave the grid as the flow rule says: one exchange with the first air neighbour |
| Sandbox.Game.Paint | src/Game.cpp:27-36 | a cell is overwritten with the material exactly when its row is in range and within size of the pointer row, the leftmost stamp column is not negative, and its column lies between the leftmost stamp column and pointer column + size; every other cell keeps its material |
| Sandbox.Game.VisitCell | src/Game.cpp:42-50 | one visit of the pass, dispatched on the cell's current material |
| Sandbox.Game.RunPass | src/Game.cpp:38-52 | the nested bottom-up, left-to-right loops leave the grid as the whole pass `Physics.Pass` says |
| Sandbox.Game.Update | src/Game.cpp:21-53 | the grid becomes the pass applied to the grid painted with size brush_size / 2 at the pointer cell (mouse position divided by the cell size, truncating) when the left button is down, and to the unpainted grid otherwise |
| Sandbox.Game.Tick | src/Game.cpp:103-104 | one frame without drawing: the input step and then the update step, which runs even when the input step saw a quit |
| Scenarios.InertRow | src/Game.cpp:47-50 | scanning a row of air and stone changes nothing |
| Scenarios.SandFallsOneRowPerPass | src/Game.cpp:38-52 | a grain above two air cells is one row lower after one pass, not on the floor |
| Scenarios.SandDropsStraightDown | src/Game.cpp:125-127 | sand above air changes place with the cell below |
| Scenarios.SandInTheMiddleFalls | src/Game.cpp:38-52 | on an empty 3-by-3 grid, sand at (0, 1) is at (1, 1) after one pass |
| Scenarios.WaterDropsStraightDown | src/Game.cpp:138-141 | water above air changes place with the cell below |
| Scenarios.WaterInTheCornerFalls | src/Game.cpp:38-52 | on an empty 2-by-2 grid, water at (0, 0) is at (1, 0) after one pass |
| Scenarios.SandSinksIntoWater | src/Game.cpp:125-127 | sand on water changes place with it |
| Scenarios.WaterStepsRight | src/Game.cpp:150-153 | on a stone floor, water with air to its right moves right |
| Scenarios.WaterReachesWall | src/Game.cpp:150-153 | water reached again at its new place moves right once more |
| Scenarios.WaterStepsBackFromWall | src/Game.cpp:154-157 | at the right edge, with neighbours outside the grid absent, water with air to its left moves left |
| Scenarios.WaterIsRevisitedAfterMovingRight | src/Game.cpp:38-52 | water that moves right is visited again in the same pass: on a stone floor of width 3, with neighbours outside the grid absent, it goes from column 0 to column 2 and back to column 1 |
| StoredRows.Stored | src/Game.cpp:165-181 | each stored row is the visible row followed by as many hidden air cells |
| StoredRows.VisibleOfStored | src/Game.cpp:165-181 | dropping the hidden tail of the stored rows gives the visible grid back |
| StoredRows.HiddenColumnSwallowsSand | src/Game.cpp:115-134 | as written, sand on stone at the last visible column changes place with the hidden air cell to its lower right and disappears from the visible grid |
| StoredRows.EdgeGrainStaysOnStone | src/Game.cpp:115-134 | with the grid's edge as the neighbour bound, the same grain stays on the stone |
| StoredRows.HiddenColumnSwallowsWater | src/Game.cpp:138-157 | as written, the five tests of `flow` move water at the last visible column, above stone, into the hidden air cell to its lower right before the test of the visible air cell to its left, so it disappears from the visible grid |
| StoredRows.EdgeWaterStepsLeft | src/Game.cpp:138-157 | with the grid's edge as the neighbour bound, the same water steps left into the visible air cell |

## Findings

| source | as written | input that shows it | evidently intended | confidence | as-written member | corrected member |
|---|---|---|---|---|---|---|
| src/Game.cpp:165-181 | each row is created with size_w cells and then receives size_w more air cells. `drop` tests the lower-right neighbour of the last visible column against the stored row, so it finds a hidden air cell | size_w = 2, grid [[stone, sand], [stone, stone]]: `drop` at (0, 1) moves the sand into hidden cell (1, 2), and the visible grid loses its only grain | rows of exactly size_w cells, with the right edge blocking the neighbour: the grain stays on the stone (`StoredRows.EdgeGrainStaysOnStone`) and no material leaves the grid | not executed; high | StoredRows.HiddenColumnSwallowsSand | PassProperties.PassIsPermutation |
| src/Game.cpp:146-153 | the same hidden cells are tested by `flow`: at the last visible column the down-right test (:146) and the right test (:150) find hidden air and come before the left test (:154) | size_w = 2, grid [[air, water], [stone, stone]]: `flow` at (0, 1) moves the water into hidden cell (1, 2), and the visible grid loses its only water | rows of exactly size_w cells: the water steps left into the visible air cell (`StoredRows.EdgeWaterStepsLeft`) and no material leaves the grid | not executed; high | StoredRows.HiddenColumnSwallowsWater | PassProperties.PassIsPermutation |

## Left out

- Rendering, the window and SDL initialisation (`render`, constructor lines 170-174): display and foreign calls.
- Event polling and `SDL_GetMouseState`: `Input` receives the tick's events as a list and the mouse state as a value.
- The mouse button mask: `SDL_BUTTON(SDL_BUTTON_LEFT)` tested against the mouse state is reduced to the flag `Mouse.leftDown`.
- The `run` loop with its timer and floating-point frame rate: clock and I/O. `Sandbox.Game.Tick` models one frame's `input` and `update` only.
- `Material.hpp` and `Game.hpp` are not part of this model. The numeric order of the material enum, the colours, `cast` and the value of `size_p` are unknown. The material table is a constructor parameter, and so is the cell size.
- Neighbours outside the visible grid are absent and never take part in an exchange. This deliberately deviates from the source at both edges:
  - At column 0 the source reads `grid[r+1][c-1]` and `grid[r][c-1]`, which is undefined behaviour.
  - At column size_w - 1 it reads the hidden cells described under Findings.
  - The `Game` class stores only the visible columns. `StoredRows` models the as-written layout for the findings alone.
- The visible cells of a fresh grid are value-initialised characters. The model takes them to be air, as the constructor's comment intends, because the enum's numbering is not part of this model.
- The effect of `unordered_map::operator[]` on a code outside the table: `Weight` is total on the five materials.
- Integer widths: mouse coordinates, brush size and grid indices are unbounded integers. `int` overflow of `brush_size` after about 2^31 presses of `+` is not modelled.

## Verification

Every member above verifies with Dafny. The members of `Scenarios` and
`StoredRows` are about the fixed grids they name; the others hold for all
inputs their preconditions admit. Nothing here was executed.
