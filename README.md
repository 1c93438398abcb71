# Game of Life on a ring of ranks, in Dafny

`gol.c` runs Game of Life on a grid split across `p` MPI ranks. From the
dimension `n >= p`, every rank gets `rows = n / p` rows of `cols = (n * n / p) / rows`
cells, so the global grid is `(p * rows) x cols`, which is n x n only when `p`
divides `n`. Rank `r` owns a band of `rows` consecutive rows, held as
`CELL localRow[rows][cols]`. A `CELL` is a state, 'A' or 'D', plus eight
scratch fields for the previous-generation states of its neighbours. Every
generation, each rank does the following:

1. It copies its first and last rows into `top` and `bottom`.
2. It sends them to the ranks above and below on the ring.
3. It receives the neighbours' boundary rows into `rTop` and `rBottom`.
4. It runs three passes over its band:
   - Pass 1 fills `up`, `down`, `left` and `right`.
   - Pass 2 fills the four diagonals from the left and right neighbours' `up` and `down` fields.
   - Pass 3 overwrites every cell in place with `DetermineState`.

This project models that core and proves it correct.

- `cell_rule.dfy` (`CellRule`):
  - the `CELL` record;
  - C's truncating `%` and the source's `mod`;
  - the neighbour count and the transition rule, with its birth-on-3-or-more clause as written;
  - the even/odd seeding of a state.
- `torus.dfy` (`Torus`) is the reference semantics: one generation of a band with two borrowed rows around it, and one generation of a whole grid as a torus.
- `partition.dfy` (`Partition`) holds the rank's band as an `array2<Cell>`:
  - boundary-row extraction, the three passes and the seeding loop are methods with loop invariants;
  - each pass is proved equal to a function on the array's contents;
  - lemmas show that passes 1 and 2 together give every cell the states of its eight torus neighbours;
  - the in-place pass 3 gives the band's next generation.
- `ring.dfy` (`Ring`) is the exchange:
  - the rows every rank sends and receives, with their tags;
  - the ring's sends and receives deliver every rank exactly its halo;
  - stacking the bands of all ranks, a ring generation is one torus generation of the global `p * rows` x `cols` grid, and so is any number of them.

The code is followed where a plain description of the program would say otherwise:

- Under the source's rule a dead cell is born on 3 or more live neighbours. So a 4 x 4 checkerboard inverts in one generation instead of dying out (`Torus.CheckerboardInverts`).
- A fully live 3 x 3 square is not a still life: its centre dies (`Torus.FullSquareChanges`). The 2 x 2 block is one (`Torus.BlockIsStillLife`).
- Pass 3 overwrites cells in place rather than into a second buffer. This is still a clean generation, because each cell's new state depends only on its own scratch fields (`Partition.ComputeGeneration`).

## Model

| member | source | states |
|---|---|---|
| CellRule.CRem | gol.c:310 | C's remainder is smaller than the divisor in magnitude and has the sign of the dividend |
| CellRule.CRemPositiveDivisor | gol.c:310 | for a positive divisor, C's remainder equals the Euclidean one, except for a negative non-multiple, where it is one divisor lower |
| CellRule.Mod | gol.c:308-312 | for a positive divisor the result lies in [0, y) |
| CellRule.ModIsEuclidean | gol.c:308-312 | for a positive divisor `mod` is the Euclidean remainder, also for negative arguments such as `j - 1 == -1` |
| CellRule.AliveCount | gol.c:280-288 | the count of live neighbour fields is at most 8 |
| CellRule.DetermineState | gol.c:278-305 | only the state changes; a live cell stays alive iff it has 2 or 3 live neighbours, otherwise it dies; a non-live cell becomes alive iff it has at least 3, and with fewer it comes back unchanged |
| CellRule.DeviationFromConway | gol.c:290-302 | on 'A'/'D' cells the rule equals Conway's, except that a dead cell with 4 to 8 live neighbours is born |
| CellRule.InitialState | gol.c:95-100 | the seeded state is 'A' or 'D', and 'A' exactly when the seed is even |
| Torus.ModIsCyclic | gol.c:164-165 | `mod(j - 1, n)` and `mod(j + 1, n)` are the positions before and after j on a cycle of n, at both row ends too |
| Torus.NextRow | gol.c:182-186 | the next states of a row have the row's length |
| Torus.LocalStep | gol.c:149-186 | one generation of a band keeps its number of rows and columns: no cell is created or dropped |
| Torus.TorusStep | gol.c:149-186 | one generation of the whole torus keeps its shape |
| Torus.TorusRun | gol.c:122-204 | any number of torus generations keeps the grid's shape |
| Torus.SingleCellTorus | gol.c:278-305 | on a 1 x 1 torus the cell is its own eight neighbours, so the cell ends dead whatever its state |
| Torus.BlockIsStillLife | gol.c:278-305 | a 2 x 2 live block on a 4 x 4 torus is unchanged by a generation |
| Torus.CheckerboardInverts | gol.c:290-302 | a 4 x 4 checkerboard turns into its inverse in one generation, because birth needs only 3 or more |
| Torus.FullSquareChanges | gol.c:290-302 | an isolated fully live 3 x 3 square changes in one generation: its centre dies, its corners live |
| Partition.OrthogonalPass | gol.c:149-167 | pass 1 keeps the band's shape |
| Partition.DiagonalPass | gol.c:171-178 | pass 2 keeps the band's shape |
| Partition.RulePass | gol.c:182-186 | pass 3 keeps the band's shape |
| Partition.Snapshot | gol.c:149-178 | the cells with their torus neighbourhoods filled in form a band of the grid's shape |
| Partition.OrthogonalPassNeighbours | gol.c:149-167 | after pass 1 each cell's up, down, left and right are the old states above, below and beside it on the torus, with `rTop`/`rBottom` at the band's edges; its state and diagonals are unchanged |
| Partition.TwoPassesFillNeighbourhood | gol.c:149-178 | pass 2 after pass 1 gives every cell the old states of all eight torus neighbours, the diagonals included |
| Partition.RuleOnSnapshotIsLocalStep | gol.c:182-186 | the rule on the filled-in cells is the reference band generation `LocalStep` |
| Partition.ExtractBoundaryRows | gol.c:129-132 | `top` and `bottom` hold the states of the first and last rows; the rest of both buffers is unchanged |
| Partition.OrthogonalUpdate | gol.c:151-165 | the cell built for (i, j) is pass 1's cell, provided every state in the array is still the old one |
| Partition.AssignOrthogonalNeighbours | gol.c:149-167 | the array afterwards is pass 1 applied to its old contents, with the first `cols` characters of `rTop`/`rBottom` as the received rows |
| Partition.DiagonalUpdate | gol.c:173-176 | the cell built for (i, j) is pass 2's cell, provided row i's up/down fields are still the old ones |
| Partition.AssignDiagonalNeighbours | gol.c:171-178 | the array afterwards is pass 2 applied to its old contents, although the pass writes the array it reads |
| Partition.ApplyRule | gol.c:182-186 | the array afterwards is the rule applied to every old cell |
| Partition.ComputeGeneration | gol.c:149-186 | after the three in-place passes every cell holds its old neighbourhood and its new state, and the band's states are one local generation with `rTop`/`rBottom` around it: overwriting in place gives the same result as a double-buffered step |
| Partition.SeedStates | gol.c:93-102 | every state is 'A' or 'D', 'A' exactly when its seed is even; the other fields are untouched |
| Ring.OffsetIsProduct | gol.c:232 | the first global row of rank r's band, counted band by band, is `r * rows` |
| Ring.StackAt | gol.c:223-235 | row i of rank r's band is row `Offset(r, rows) + i` (that is `r * rows + i`) of the global grid, which has `Offset(p, rows)` (`p * rows`) rows of `cols` states |
| Ring.GlobalRowSplits | gol.c:232-235 | every global row index is row i < rows of some rank r < p |
| Ring.Halo | gol.c:141-143 | the two rows a rank needs around its band have `cols` states each |
| Ring.Outbox | gol.c:137-139 | each rank sends two messages, both from itself |
| Ring.Posted | gol.c:137-139 | every message posted by ranks 0 .. n-1 comes from one of them |
| Ring.ReceiveNoMatch | gol.c:141-143 | a receive naming a source that sent nothing finds nothing |
| Ring.ReceiveAppend | gol.c:141-143 | a receive over two batches takes the first batch's match if there is one, else the second's |
| Ring.ReceiveFromSender | gol.c:137-143 | a receive naming source s finds exactly what rank s itself sent |
| Ring.ExchangeDeliversHalo | gol.c:137-143 | every rank's two receives succeed: `rTop` is the bottom row of the rank above, `rBottom` is the top row of the rank below |
| Ring.SentRowsArriveAtNeighbours | gol.c:137-143 | rank r's top row is what rank `mod(r - 1, p)` receives as `rBottom`, and its bottom row is what rank `mod(r + 1, p)` receives as `rTop` |
| Ring.RingStep | gol.c:129-186 | a generation on every rank keeps p bands of `rows` x `cols` |
| Ring.RingStepTakesReceivedRows | gol.c:137-186 | both receives of every rank succeed, and its band's next generation is the local step with exactly the received rows as `rTop` and `rBottom` |
| Ring.AboveIsTorusPred | gol.c:151-161 | the row above a band row on the global torus is the one the rank reads there: its own previous row, or `rTop` at the band's top |
| Ring.BelowIsTorusSucc | gol.c:155-162 | the row below a band row on the global torus is its own next row, or `rBottom` at the band's bottom |
| Ring.StackedNeighbours | gol.c:149-162 | every global row is a band row whose torus rows above and below are the ones its rank reads |
| Ring.RingStepRow | gol.c:129-186 | each global row after a ring generation equals the torus generation's row at that index |
| Ring.RingStepIsTorusStep | gol.c:129-186 | the exchange plus the local passes on every rank is exactly one torus generation of the stacked global grid |
| Ring.RingRun | gol.c:122-204 | any number of ring generations keeps p bands of `rows` x `cols` |
| Ring.RingRunIsTorusRun | gol.c:122-204 | G ring generations are G torus generations of the stacked global grid |

## Left out

- The MPI runtime, `MPI_Scatter` of the seeds and the gather to rank 0 are not modelled. The exchange is a pure function over all ranks' bands. Message matching takes the first message with the right source, destination and tag.
- Blocking is not modelled. This includes the hazard that two standard-mode `MPI_Send`s before the receives may deadlock if they are not buffered.
- Timing with `gettimeofday` and the time counters are not modelled. They never influence control flow.
- `DisplayGoL`, `printCellStates` and all printing are output only. Only the global row layout of the gathered matrix is used (`Ring.StackAt`).
- Random seeds are an input: `SeedStates` takes the seed matrix as a parameter.
- Partition sizing from `n` and `p` via `pow` is not modelled. `rows` and `cols` are parameters.
- The generation loop's counter is not modelled. The source reuses `i` for the inner loops, so after one generation `i` is `rows + 1`. The loop therefore runs once or never stops, and the display test `i % 2 == 0` depends on `rows`. `Ring.RingRun` counts its generations with a counter of its own.
- The sends carry `cols + 1` characters, one past the row. The model carries exactly `cols` states, and `Partition.ComputeGeneration` requires `cols <= 254` so that these fit the 255-character buffers.
- A band of one row is not modelled. Pass 1 and the ring (`Ring.Uniform`) require `rows >= 2`, because with one row the source reads `localRow[1]`, past the band, and never uses `rBottom`.
- `int` is unbounded in the model; 32-bit overflow of seeds or indices is not modelled.
- CellRule.Mod: its contract speaks only of positive divisors, the only ones the source passes (`cols` and `p`). Its body follows the source for any non-zero divisor.
- Torus.LocalStep, Torus.TorusStep, Torus.NextRow: their own contracts state only shape. What they compute is tied to the source by `Partition.ComputeGeneration` and `Ring.RingStepIsTorusStep`.
