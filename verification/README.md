# Gray-Scott reaction-diffusion engine, modelled in Dafny

This project models the simulation engine of a Gray-Scott reaction-diffusion
program, a C++ application with an SFML window. The engine has these parts:

- **The grid.** `ReactionState<CellDim, ChemicalCount>` holds `CellDim * CellDim` cells in row-major order.
- **The cells.** Each `CellConcentration` is a fixed-length vector of chemical concentrations.
- **The convolution.** `ClassicConvolution` is a 3x3 weighted sum per chemical, with no boundary handling.
- **The reaction model.** `GrayScottModel` is the local rule. Both of its outputs are clamped to [0,1].
- **The seeders.** There are four: a centred square, random spots with a fixed value, random spots with random cells, and a fully random grid.
- **The step protocol.** `ReactionDiffusion::update` recomputes the interior cells into a second, persistent grid. It then swaps the two grids by move assignment.

Doubles are modelled as `real`. Grids are immutable values, and every operation is a pure function of its inputs. Random draws are parameters:

- a spot seeder's `RandomRange` draws are a sequence of `SpotDraw(size, x, y)` values, in call order;
- `makeRandom`'s uniform [0,1) engine is a stream `draw: nat -> real`, where `draw(i)` is the i-th value it produces.

The source's two nested `for` loops (x outer, y inner) appear twice in the model:

- as methods, `Seeders.FillRectLoop` and `Engine.UpdateLoop`, which follow the loops statement by statement;
- as closed forms, `Seeders.FillRect` and `Engine.Update`, which the methods are proved to compute.

Modules follow the headers:

| module | file |
|---|---|
| `Util` | `util.dfy` |
| `Cells` | `cells.dfy` |
| `Grid` | `grid.dfy` |
| `Convolution` | `convolution.dfy` |
| `ReactionModel` | `reaction_model.dfy` |
| `Seeders` | `seeders.dfy` |
| `Engine` | `engine.dfy` |

Behaviour of the code that the model makes explicit:

- **The centred square uses unsigned bounds.** `SquareCenterSeed` stores `size/2`. Its loops run from `CellDim/2 - size/2` to `CellDim/2 + size/2` in unsigned arithmetic. When `size/2 > CellDim/2`, the start wraps past the end and nothing is written (include/Seeders.hpp:25-26); the square is not clamped to the grid. Otherwise the square is `2*(size/2)` cells on a side, so an odd `size` loses one row and one column.
- **Spots are clipped to `[0, CellDim-1)` on each axis.** The end bound is `CellDim - 1` and the loop stops before it. As a result, spot seeders never write the last row or column, and a spot centred on the last row or column does not cover its own centre.
- **`RandomSeeder` draws in column order.** Its loop has x outer and y inner, so cell `(x, y)` receives the `(x*CellDim + y)`-th `makeRandom` result.
- **Border cells alternate between the two grids.** A step never computes border cells. It carries them over from the buffer, and the buffer's borders are those of the grid before the previous step. So after two steps both grids have their old borders back (`Engine.BordersAlternate`).
- **`update` needs a non-empty grid.** The bound `CellDim - 1` is unsigned. With `CellDim == 0` it would wrap and the loop would read out of range, so `Engine.UpdateLoop` requires a non-empty grid.
- **The engine has one boundary behaviour and one reaction model.** `ClassicConvolution` reads all nine neighbours without any wrap-around or clipping (include/Convolution.hpp:38). `ReactionDiffusion::update` therefore recomputes only the interior cells (include/ReactionDiffusion.hpp:52-58). `GrayScottModel` is the only reaction model.
- **Spot sizes are drawn from `[minSize, maxSize - 1]`.** `RandomRange(a, b)` draws from `[a, b - 1]` (include/Random.hpp:12), and `b - 1` is itself computed in unsigned arithmetic.
- **`makeRandom` draws from [0,1).** It uses `uniform_real_distribution` (include/Random.hpp:26).

## Model

| member | source | states |
|---|---|---|
| Util.ConstrainZeroOne | include/Util.hpp:12-14 | The result is always in [0,1]. It equals the input on [0,1], is 0 below 0 and is 1 above 1. |
| Util.ConstrainIdempotent | include/Util.hpp:12-14 | Clamping twice gives the same result as clamping once. |
| Util.ConstrainIsNearest | include/Util.hpp:12-14 | The clamped value is the point of [0,1] nearest to the input. |
| Cells.Default | include/CellConcentration.hpp:22-23 | A default-constructed cell has exactly `ChemicalCount` chemicals, all 0. |
| Cells.FromArray | include/CellConcentration.hpp:24 | The explicit constructor gives a cell of length `ChemicalCount` whose k-th chemical is the k-th array entry. |
| Cells.Chemical | include/CellConcentration.hpp:61-63 | The const `operator[]` may only be called with an index below the chemical count. It returns one of the cell's concentrations, which is in [0,1] whenever the cell is. |
| Cells.SetChemical | include/CellConcentration.hpp:65-67 | A write through the mutable `operator[]` sets index k and leaves every other index and the length unchanged. |
| Cells.MakeRandom | include/CellConcentration.hpp:27-37 | The b-th `makeRandom` call gives a cell of `ChemicalCount` entries. Entry k is draw `b*ChemicalCount + k` of the shared stream, taken in chemical order. |
| Cells.MakeRandomInUnit | include/CellConcentration.hpp:28-34 | A cell built from draws in [0,1) has every entry in [0,1]. |
| Cells.MakeRandomBlocksDisjoint | include/CellConcentration.hpp:27-37 | Successive `makeRandom` calls read disjoint runs of the stream, in increasing order. |
| Grid.Index | include/ReactionState.hpp:32-34 | The row-major index `y*CellDim + x` of in-range coordinates is below `NumCells`. |
| Grid.IndexCoords | include/ReactionState.hpp:32-34 | Dividing the index by `CellDim` gives back y, and the remainder gives back x. |
| Grid.IndexInjective | include/ReactionState.hpp:32-38 | Two in-range coordinate pairs have the same index exactly when they are equal. |
| Grid.IndexOnto | include/ReactionState.hpp:21 | Every index below `NumCells` is the index of some in-range (x, y). |
| Grid.Get | include/ReactionState.hpp:32-34 | The const `getConcentration(x, y)` may only be called with both coordinates below `CellDim`; the source does not check them. The cell it returns has `ChemicalCount` chemicals. `Grid.Set` and `Grid.IndexInjective` relate its reads to writes at other coordinates. |
| Grid.Set | include/ReactionState.hpp:36-38 | Assigning through the mutable `getConcentration(x, y)` changes cell (x, y) only. The grid keeps its shape. |
| Grid.DefaultState | include/ReactionState.hpp:74 | A default-constructed grid has `NumCells` all-zero cells. |
| Grid.Init | include/ReactionState.hpp:26-30 | The explicit constructor sets every one of the `CellDim*CellDim` cells to `initialAmounts`. |
| Grid.MoveAssign | include/ReactionState.hpp:63-66 | Move assignment exchanges the two cell buffers. The target gets the source's cells and the source gets the target's. |
| Grid.MoveAssignInvolution | include/ReactionState.hpp:63-66 | Two move assignments restore both grids, so the move is a swap and not a copy. |
| Grid.GetColoring | include/ReactionState.hpp:41-55 | Exactly `4*NumCells` bytes are produced. Bytes `4i..4i+3` are the r, g, b, a of cell i's colour, so cell (x, y)'s colour sits at its row-major index. |
| Convolution.OffsetShapes | include/Convolution.hpp:72-94 | The edges are the four orthogonal neighbours, top first, then clockwise. The corners are the four diagonal neighbours, top-left first, then clockwise. Together with the centre they make up the 3x3 stencil. |
| Convolution.NeighboursInRangeIffInterior | include/Convolution.hpp:76-91 | All nine reads lie in the grid exactly when `1 <= x, y <= CellDim-2`. |
| Convolution.GetEdges | include/Convolution.hpp:72-82 | The k-th edge is the cell at the k-th clockwise edge offset from (x, y). |
| Convolution.GetCorners | include/Convolution.hpp:84-94 | The k-th corner is the cell at the k-th clockwise corner offset from (x, y). |
| Convolution.ConvolveChemicalIsKernel | include/Convolution.hpp:46-62 | The program's accumulation (edge sum, then corner sum, then centre) equals a 3x3 kernel whose weight is set by Manhattan distance. |
| Convolution.Apply | include/Convolution.hpp:37-65 | Only interior cells may be convolved. The result has `ChemicalCount` entries. Entry c is the kernel-weighted sum of chemical c over the 3x3 block. |
| Convolution.ApplyIsLocal | include/Convolution.hpp:46-62 | Two grids that agree on chemical c at the nine block cells give the same result for chemical c. |
| Convolution.ApplyUniform | include/Convolution.hpp:46-62 | If all nine cells equal v, then result[c] = (center + 4*edge + 4*corner) * v[c]. |
| Convolution.MainConvolutionUniformIsZero | src/main.cpp:17 | With the program's weights (-1, 0.2, 0.05), a uniform block convolves to 0 for every chemical. |
| ReactionModel.Make | include/ReactionModel.hpp:18-19 | The constructor arguments (feed, kill, dA, dB) land in the matching fields. The defaults are 0.055, 0.062, 1.0 and 0.5. |
| ReactionModel.Coral | include/ReactionModel.hpp:21-23 | `coral` uses exactly the default parameters. |
| ReactionModel.Mitosis | include/ReactionModel.hpp:25-27 | `mitosis` has feed 0.0367 and kill 0.0649. Its diffusion rates are coral's. |
| ReactionModel.Update | include/ReactionModel.hpp:29-37 | Both outputs lie in [0,1] for any input. Each output equals its unclamped Gray-Scott expression when that expression is in [0,1], is 0 when it is below 0, and is 1 when it is above 1. |
| ReactionModel.BackgroundIsFixedPoint | include/ReactionModel.hpp:30-36 | The input conc = (1, 0) with conv = (0, 0) returns (1, 0). |
| ReactionModel.NoBStaysNoB | include/ReactionModel.hpp:33-34 | With B = 0 and B's convolution 0, the new B is 0. |
| ReactionModel.UpdateIgnoresOtherDiffusion | include/ReactionModel.hpp:30-33 | The new A does not depend on conv[1], and the new B does not depend on conv[0]. |
| Seeders.RectCellsCount | include/Seeders.hpp:69-73 | A loop rectangle holds exactly Width*Height cells. |
| Seeders.FillRect | include/Seeders.hpp:69-73 | Each rectangle cell gets the setter's value for its visit number. Every other cell is unchanged. |
| Seeders.FillRectLoop | include/Seeders.hpp:69-73 | The nested loops, one setter call per cell, compute exactly `FillRect`. |
| Seeders.VisitIndex | include/Seeders.hpp:69-73 | With x outer, cell (x, y) is setter call `(x-x0)*Height + (y-y0)`, and this number is below the area. |
| Seeders.SquareRect | include/Seeders.hpp:25-26 | When `size/2 <= CellDim/2`, the bounds are `[CellDim/2 - size/2, CellDim/2 + size/2)` on both axes. Otherwise the unsigned start wraps and the rectangle is empty. Either way it fits the grid. |
| Seeders.SeedSquare | include/Seeders.hpp:24-30 | Exactly the cells with both coordinates in the centred range are set to `setTo`. All others are unchanged. |
| Seeders.SquareCellCount | include/Seeders.hpp:25-26 | The square covers `(2*(size/2))^2` cells. |
| Seeders.SquareExample | include/Seeders.hpp:22-30 | Size 4 on an 8x8 grid sets exactly the block [2,6) x [2,6). |
| Seeders.NewSquareCenterSeed | include/Seeders.hpp:22 | The seeder keeps `size/2`, which is size rounded down to even, halved. |
| Seeders.SpotRange | include/Seeders.hpp:58-67 | If no wrap occurs, the clipped range is the intersection of `[c-half, c+half)` with `[0, CellDim-1)`. The range ends below `CellDim`, spans at most `2*half`, and is empty when `half == 0`. |
| Seeders.SpotRect | include/Seeders.hpp:58-70 | A spot's rectangle fits the grid. It never reaches row or column `CellDim-1`, and each side is at most `2*(size/2)`. |
| Seeders.SpotDrawsInGrid | include/Seeders.hpp:54-60 | The draws `RandomRange` can produce (centres in [0, CellDim-1], sizes in [minSize, maxSize-1]) put every spot centre in the grid. |
| Seeders.CoveredIffSomeSpot | include/Seeders.hpp:57-74 | A cell is covered exactly when some drawn spot's rectangle contains it. |
| Seeders.SetCells | include/Seeders.hpp:53-75 | Filling the spots one after another keeps the grid's shape. |
| Seeders.SetCellsEffect | include/Seeders.hpp:53-75 | Cells outside every spot are unchanged. With a fixed setter, covered cells hold `setTo`. With `makeRandom`, a covered cell holds the result of some `makeRandom` call made during this seeding. The call number lies in `[first, first + SpotCalls)`, where `SpotCalls` counts one setter call per visited cell of each clipped spot. |
| Seeders.SetCellsDrawnCall | include/Seeders.hpp:57-74 | For `makeRandom`, it names the call whose result a covered cell finally holds. The call number is at least the stream position the seeding starts from and below that position plus the seeding's total number of setter calls (`Seeders.SpotCalls`). The cell equals that call's result. |
| Seeders.SetCellsRandomInUnit | include/Seeders.hpp:110-112 | With `makeRandom` drawing from [0,1), every covered cell is in [0,1]. |
| Seeders.SpotSeedOrderIndependent | include/Seeders.hpp:84-86 | `SpotSeeder`'s result depends only on the set of spots drawn, not on their order. |
| Seeders.Seed | include/Seeders.hpp:10 | Every seeder keeps the grid's shape. |
| Seeders.RandomSeederOverwritesAll | include/Seeders.hpp:95-100 | Every cell (x, y) is replaced by the `(x*CellDim + y)`-th `makeRandom` result. |
| Seeders.SpotSeedersSpareLastRowAndColumn | include/Seeders.hpp:66-70 | Both spot seeders leave the last row and the last column unchanged. |
| Seeders.SeedPreservesUnit | include/Seeders.hpp:24-113 | Seeding a [0,1] grid with [0,1] values leaves every concentration in [0,1]. |
| Engine.SeedReaction | include/ReactionDiffusion.hpp:35-41 | The current grid becomes the seeder applied once to an all-{1,0} grid. The buffer, convolution and model are untouched. |
| Engine.SeedReactionResets | include/ReactionDiffusion.hpp:35-38 | The seeded grid does not depend on the grid it replaces. |
| Engine.SquareSeededReaction | include/ReactionDiffusion.hpp:35-38 | After seeding with a centred square, the square holds `setTo` and every other cell holds {1,0}. |
| Engine.New | include/ReactionDiffusion.hpp:26-32 | Construction gives a seeded grid and an all-{1,0} buffer. |
| Engine.NextCell | include/ReactionDiffusion.hpp:54-58 | The value written for an interior cell has two chemicals, both in [0,1]. |
| Engine.WriteInterior | include/ReactionDiffusion.hpp:52-60 | The interior loop writes `model.update(old cell, conv(x, y, old grid))` into exactly the interior cells of the buffer. Border cells keep the buffer's values. |
| Engine.Update | include/ReactionDiffusion.hpp:47-64 | After the step, the current grid is the old buffer with its interior recomputed from the old grid. The new buffer is the old current grid. |
| Engine.UpdateLoop | include/ReactionDiffusion.hpp:52-62 | The loops read only the old grid, so their result equals the order-free closed form `Update`. |
| Engine.UpdatePreservesUnit | include/ReactionDiffusion.hpp:58-62 | If both grids are in [0,1] before a step, both are in [0,1] after it. |
| Engine.BordersAlternate | include/ReactionDiffusion.hpp:48-62 | Border cells are never recomputed. After two steps, both grids have their old borders. |
| Engine.NextCellOnBackground | include/ReactionDiffusion.hpp:54-58 | With the program's weights, an interior cell of an all-{1,0} grid is recomputed as {1,0}. |
| Engine.BackgroundIsSteady | include/ReactionDiffusion.hpp:47-62 | With the program's weights, a step leaves all-{1,0} grids unchanged. |
| Engine.Run | src/main.cpp:47-52 | Repeated updates keep the grids' shape. |
| Engine.RunPreservesUnit | src/main.cpp:47-52 | Any number of steps keeps both grids in [0,1]. |
| Engine.ReachableStatesInUnit | include/ReactionDiffusion.hpp:26-64 | From construction with a [0,1] seeder, every reachable state has all concentrations in [0,1]. |

## Left out

- **Rendering and GUI.** `draw`, `image.create`, `onEvent` and the window and event loop of `src/main.cpp` are left out. They are SFML glue.
- **Colour computation.**
  - `toColor` is a parameter of `Grid.GetColoring`. Its float-to-byte arithmetic is not modelled, and neither is the unreachable code after its `return`.
  - `hueToRGB` and `colorFromHSL` are left out. They are floating-point colour conversion.
- Grid.MoveAssign: does not model the `coloring` byte buffer, which move assignment leaves in place. `getColoring` rewrites all `4*NumCells` bytes before they are read, so which object holds which byte buffer is not observable. The model returns the bytes instead of storing them.
- Seeders.SetCellsEffect: for `RandomSpotSeeder`, it states that a covered cell holds the result of a `makeRandom` call made during this seeding, bounded by the seeding's first and last calls. It does not say which call that is when several spots cover the cell. `Seeders.FillRect` gives the exact call for each single spot.
- **Random engines.** `std::random_device`, `mt19937` and the distributions are replaced by draw parameters with range preconditions. A spot seeder's draws must be producible by its `RandomRange` generators.
- **Function-local statics.**
  - `update`'s static `nextState` is the explicit field `nextState`. It is initialised to all {1,0} at construction rather than at the first `update`. It is per instance rather than shared between instances.
  - The static `randSize` keeps the `minSize`/`maxSize` of the first spot seeder ever used. The model checks draws against the seeder's own range.
  - `makeRandom`'s static engine is the stream parameter, and callers pass it already at its current position.
- **OpenMP.** The parallel loop in `getColoring` is modelled sequentially. Its iterations write disjoint bytes.
- **Heap ownership.** `new[]`/`delete[]`, the destructor and the move constructor are not modelled. The move constructor leaves the source aliasing the moved cells.
- **Floating point.** Doubles are reals. Rounding, NaN and infinity are not modelled, and nothing is claimed bit-exactly.
- **32-bit overflow of grid indices.** `NumCells = CellDim*CellDim` and `y*CellDim + x` are assumed to fit in 32 bits (the program uses `CellDim = 300`). Only the seeders' loop bounds model unsigned wrap-around, because there it changes which cells are written.
- **Polymorphism.** The abstract base classes for convolution, reaction model and seeder are not modelled. The convolution and the model are concrete, and `Seeders.Seed` dispatches over a datatype of the four seeders.
- **Chemical count of the engine.** The engine is fixed to two chemicals, because the only reaction model (`GrayScottModel`) and the `{1, 0}` initialiser are for two. Cells, grid, convolution and seeders are modelled for any chemical count.
- **Iterators.** `CellConcentration`'s `begin`/`end` iterators only expose the array and are not modelled.
