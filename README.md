# Block-distributed Mandelbrot set, modelled in Dafny

`mandelbrot_mpi.py` computes the escape-time image of a rectangle of the
complex plane on a grid of `height` rows and `width` columns. It splits the
rows over the `size` ranks of an MPI communicator in contiguous blocks:

- each rank works out its row count `N` (l.87) and its first row
  `start_i = scan(N) - N` (l.94);
- each rank samples its block between `start_y` and `end_y` (l.95-96) and
  fills a local matrix with `mandel_set` (l.100), which calls `mandel` once
  per cell (l.49-69);
- rank 0 gathers the row counts with `Gather` (l.114-116), and then the
  local matrices with `Gatherv` into the zeroed `height`-by-`width` matrix
  `C` (l.126-128).

The project models these steps and proves that they fit together. The counts
partition the rows. Each rank's rows land where its start row says. When
the grid has at least two rows and one column, `maxiter >= 1` and every rank
has a row, the matrix `C` on rank 0 is, cell for cell, the matrix one
`mandel_set` over the whole viewport would compute. Otherwise the run stops
at line 42, line 100 or line 102 (`Assembly.RunSucceedsExactlyWhen`; for
line 102 see "## Findings").

Modules, in dependency order:

- `Wrappers`: `Result`, for the error paths.
- `Sums`: sums, MPI's inclusive `scan`, and the row-major flattening of a
  matrix (how `C` is laid out in memory).
- `Partition`: `N`, `rowcounts`, `start_i`, and which rank owns a row.
- `Escape`: `mandel`.
- `Grid`: `np.linspace` and `mandel_set`.
- `Gather`: `Gather` of one integer per rank, and `Gatherv` with the
  displacements mpi4py derives from `None`.
- `Assembly`: the whole run as rank 0 sees it.

Floating-point numbers are modelled as Dafny `real`s, so computation is exact.
`mandel`'s control flow (which iteration it reports) is proved separately from
the arithmetic: it is stated over an arbitrary escape outcome per iteration.

Edge cases of the code, as the model captures them:

- A point that never escapes gets `maxiter - 1`. The `return n` after the
  loop (l.59) returns the loop variable's last value. So every cell of `C`
  lies in `[0, maxiter - 1]`; the origin with `maxiter = 100` gets 99.
  `Escape.LastIterationIsAmbiguous` shows the consequence: a point that
  escapes in the last iteration and a point that never escapes get the
  same value.
- With `maxiter <= 0`, `range(maxiter)` is empty and `n` is never bound, so
  `mandel` raises at the first cell of a non-empty local matrix. The model
  returns `Err(UnboundLoopVariable)` there.
- `height == 1` makes `dy` divide by zero (l.42), which raises before any
  rank computes; the model returns `Err(RowSpacingUndefined)`.
- A rank whose `Cl` is empty raises at `Cl.max()` (l.102). This happens to
  every rank from `height` on when there are more ranks than rows, and to
  every rank when `width == 0`. The model returns `Err(EmptyLocalMaximum)`.
  `Assembly.RunSucceedsExactlyWhen` states the result: the run succeeds
  exactly when `height >= 2`, `width >= 1`, `size <= height` and
  `maxiter >= 1`.
- The program does not check `xmax <= xmin` or `ymax <= ymin`, and neither
  does the model.

## Model

| member | source | states |
|---|---|---|
| Partition.RowCount | parallel_code_examples/mandelbrot_mpi.py:87 | defines `N = height // size + (height % size > rank)`; its contract says a rank never gets more than `height` rows |
| Partition.RowCounts | parallel_code_examples/mandelbrot_mpi.py:108-116 | the row counts of all ranks in rank order, as `rowcounts` holds them after the `Gather`: one per rank, entry k being rank k's `N` |
| Partition.StartRow | parallel_code_examples/mandelbrot_mpi.py:94 | defines `start_i = scan(N) - N` from the inclusive scan of the row counts; its properties are the lemmas below |
| Partition.RowCountExtraRow | parallel_code_examples/mandelbrot_mpi.py:81-87 | a rank gets `height // size + 1` rows exactly when its rank is below `height % size`, and `height // size` rows exactly otherwise |
| Partition.RowCountsBalanced | parallel_code_examples/mandelbrot_mpi.py:87 | the row counts never increase with the rank, and any two differ by at most one |
| Partition.RowCountsSumToHeight | parallel_code_examples/mandelbrot_mpi.py:87 | the row counts of all ranks add up to `height` |
| Partition.RowCountsPrefixSum | parallel_code_examples/mandelbrot_mpi.py:87 | the first k ranks together have `k * (height // size) + min(k, height % size)` rows |
| Partition.RowCountZeroExactly | parallel_code_examples/mandelbrot_mpi.py:87 | a rank gets no row exactly when its rank is at least `height` |
| Partition.ExcessRanksIdle | parallel_code_examples/mandelbrot_mpi.py:87-94 | with more ranks than rows, every rank from `height` on gets no row and starts at `height` |
| Partition.PartitionExamples | parallel_code_examples/mandelbrot_mpi.py:81-87 | 100 rows over 8 ranks give 13, 13, 13, 13, 12, 12, 12, 12; 10 rows over 3 ranks give counts 4, 3, 3 starting at rows 0, 4, 7 |
| Sums.ScanFrom | parallel_code_examples/mandelbrot_mpi.py:92-94 | the running total of `comm.scan` from a starting sum; one entry per rank |
| Sums.Scan | parallel_code_examples/mandelbrot_mpi.py:92-94 | `comm.scan(N)` for every rank at once, one entry per rank |
| Sums.ScanIsInclusivePrefixSum | parallel_code_examples/mandelbrot_mpi.py:92-94 | `scan` returns to rank i the sum of the values of ranks 0 to i |
| Partition.StartRowIsExclusivePrefixSum | parallel_code_examples/mandelbrot_mpi.py:91-94 | `scan(N) - N` is the number of rows of all lower-numbered ranks |
| Partition.StartRowClosedForm | parallel_code_examples/mandelbrot_mpi.py:87-94 | the first row of rank r is `r * (height // size) + min(r, height % size)` |
| Partition.StartRowsContiguous | parallel_code_examples/mandelbrot_mpi.py:1-5 | rank 0 starts at row 0, each rank starts where the previous one ends, and the last one ends at `height` |
| Partition.StartRowInRange | parallel_code_examples/mandelbrot_mpi.py:91-96 | every rank's row range lies within `[0, height)` |
| Partition.RangesDisjoint | parallel_code_examples/mandelbrot_mpi.py:1-5 | the row ranges of two different ranks do not overlap |
| Partition.OwnerFrom | parallel_code_examples/mandelbrot_mpi.py:1-5 | walking up from any rank that starts at or before row y finds a rank at or above it whose range contains y |
| Partition.Owner | parallel_code_examples/mandelbrot_mpi.py:1-5 | every row of the grid has a rank whose range contains it |
| Partition.OwnerUnique | parallel_code_examples/mandelbrot_mpi.py:1-5 | the rank that owns a row is unique |
| Escape.Escaped | parallel_code_examples/mandelbrot_mpi.py:53-55 | defines the escape test `real2 + imag2 > 4.0` |
| Escape.Step | parallel_code_examples/mandelbrot_mpi.py:53-58 | defines one pass of the loop body: the new imaginary part is computed from the old real part |
| Escape.Orbit | parallel_code_examples/mandelbrot_mpi.py:50-58 | defines the iterate tested in iteration n, starting from `c` |
| Escape.FirstEscape | parallel_code_examples/mandelbrot_mpi.py:52-59 | the loop's answer lies in `[n, maxiter)`; no iteration before it escapes; it escapes itself or is the last iteration |
| Escape.EscapeTime | parallel_code_examples/mandelbrot_mpi.py:49-59 | `mandel` returns a value exactly when `maxiter >= 1` |
| Escape.FirstEscapeUnique | parallel_code_examples/mandelbrot_mpi.py:52-59 | any iteration that is the first to escape, or the last one with no escape before it, is the loop's answer |
| Escape.EscapeTimeCharacterized | parallel_code_examples/mandelbrot_mpi.py:49-59 | `mandel` returns n if and only if `0 <= n < maxiter`, no earlier iteration escapes, and iteration n escapes or is the last |
| Escape.NeverEscapingGetsLastIteration | parallel_code_examples/mandelbrot_mpi.py:52-59 | a point that never escapes gets `maxiter - 1` |
| Escape.Mandel | parallel_code_examples/mandelbrot_mpi.py:49-59 | the loop with its leaked loop variable returns exactly the escape time, or the unbound-variable error when `maxiter <= 0` |
| Escape.OriginIsFixed | parallel_code_examples/mandelbrot_mpi.py:53-58 | the orbit of 0 stays at 0 |
| Escape.OriginNeverEscapes | parallel_code_examples/mandelbrot_mpi.py:49-59 | with 100 iterations the origin gets 99 |
| Escape.FarPointEscapesAtOnce | parallel_code_examples/mandelbrot_mpi.py:52-56 | 2 + 2i gets 0 whenever `maxiter >= 1` |
| Escape.OneEscapesAtIterationTwo | parallel_code_examples/mandelbrot_mpi.py:52-58 | the point 1 passes the test in iterations 0 and 1 and escapes in iteration 2 |
| Escape.LastIterationIsAmbiguous | parallel_code_examples/mandelbrot_mpi.py:52-59 | with 3 iterations, the point 1 (escapes in the last iteration) and the origin (never escapes) both get 2 |
| Grid.Linspace | parallel_code_examples/mandelbrot_mpi.py:63-64 | defines `np.linspace`; its contract says it has `num` samples, the first being `start` |
| Grid.LinspaceEvenlySpaced | parallel_code_examples/mandelbrot_mpi.py:63-64 | with two or more samples, sample k is k spacings of `(stop - start) / (num - 1)` past `start`, and the last sample is `stop` |
| Grid.BlockSamplesOnGlobalGrid | parallel_code_examples/mandelbrot_mpi.py:95-96 | sampling a block of n rows from `ymin + first * dy` to `ymin + (first + n - 1) * dy` puts its row j at `ymin + (first + j) * dy` |
| Grid.GlobalSamples | parallel_code_examples/mandelbrot_mpi.py:42 | row y of the whole grid is y steps of `dy` above `ymin` |
| Grid.BlockRowIsGlobalRow | parallel_code_examples/mandelbrot_mpi.py:95-100 | row i of a block is sampled at the same y as global row `first + i` |
| Grid.MandelGrid | parallel_code_examples/mandelbrot_mpi.py:62-69 | `mandel_set` succeeds exactly when `maxiter >= 1` or the matrix is empty; the result has `height` rows of `width` cells, each in `[0, maxiter)` |
| Grid.MandelGridSameRow | parallel_code_examples/mandelbrot_mpi.py:63-68 | two grids over the same columns agree on cells whose rows are sampled at the same y |
| Grid.MandelSet | parallel_code_examples/mandelbrot_mpi.py:62-69 | the column-by-column loop fills a fresh `height`-by-`width` array with the grid's cells, or stops with `mandel`'s error |
| Gather.GatherToRoot | parallel_code_examples/mandelbrot_mpi.py:111-116 | after `Gather`, `rowcounts[k]` is what rank k sent |
| Gather.DisplacementsFrom | parallel_code_examples/mandelbrot_mpi.py:127 | the displacements mpi4py derives for `None`, one per count, from a starting offset |
| Gather.Displacements | parallel_code_examples/mandelbrot_mpi.py:127 | the displacements mpi4py derives for `None`, one per count, starting at 0 |
| Gather.DisplacementsArePrefixSums | parallel_code_examples/mandelbrot_mpi.py:126-128 | the displacement mpi4py derives for rank k is the sum of the counts of ranks 0 to k - 1 |
| Gather.Gatherv | parallel_code_examples/mandelbrot_mpi.py:126-128 | `Gatherv` succeeds exactly when there is one count per rank, each rank sends its count, and the counts fit the buffer; the buffer keeps its length |
| Gather.GathervPlacesContributions | parallel_code_examples/mandelbrot_mpi.py:126-128 | element j of rank k's contribution lands at rank k's displacement plus j |
| Gather.GathervKeepsTail | parallel_code_examples/mandelbrot_mpi.py:126-128 | the buffer past the last contribution is unchanged |
| Gather.GathervInto | parallel_code_examples/mandelbrot_mpi.py:126-128 | the check-then-copy loops leave the buffer as `Gatherv` says, fail exactly as it does, and leave the buffer unchanged on failure |
| Gather.CheckCounts | parallel_code_examples/mandelbrot_mpi.py:126-128 | the check loop reports a match exactly when every rank sends its count, and then yields their total |
| Gather.CopyContributions | parallel_code_examples/mandelbrot_mpi.py:126-128 | the copy loop puts the contributions back to back at the front of the buffer and leaves the rest |
| Gather.CopyAt | parallel_code_examples/mandelbrot_mpi.py:126-128 | one contribution is copied to its displacement, and nothing else changes |
| Sums.FlattenAt | parallel_code_examples/mandelbrot_mpi.py:112 | cell (i, x) of a matrix of width w is at flat index `i * w + x` of its row-major layout |
| Assembly.Dy | parallel_code_examples/mandelbrot_mpi.py:42 | defines `dy = (ymax - ymin) / (height - 1)`, defined only for `height != 1` |
| Assembly.StartY | parallel_code_examples/mandelbrot_mpi.py:95 | defines `start_y = ymin + start_i * dy` |
| Assembly.EndY | parallel_code_examples/mandelbrot_mpi.py:96 | defines `end_y = ymin + (start_i + N - 1) * dy` |
| Assembly.LocalMatrix | parallel_code_examples/mandelbrot_mpi.py:100 | defines `Cl = mandel_set(xmin, xmax, start_y, end_y, width, N, maxiter)` |
| Assembly.Zeros | parallel_code_examples/mandelbrot_mpi.py:112 | the zeroed `C`, with `height * width` cells |
| Assembly.AssembleOnRoot | parallel_code_examples/mandelbrot_mpi.py:108-128 | defines rank 0's gathers: `Gatherv` into the zeroed `C`, with `rowcounts[k] * width` cells from rank k |
| Assembly.Run | parallel_code_examples/mandelbrot_mpi.py:42-128 | defines the run once, with a flag for whether the report of `Cl.max()` is guarded; the two runs below differ only there |
| Assembly.RootMatrix | parallel_code_examples/mandelbrot_mpi.py:42-128 | defines the run as written: `dy`, every rank's `mandel_set`, the report of `Cl.max()`, then the gathers; each error stops it |
| Assembly.RootMatrixWithGuardedReport | parallel_code_examples/mandelbrot_mpi.py:42-128 | defines the same run with `Cl.max()` reported only for a non-empty `Cl` |
| Assembly.DisplacementIsStartRowTimesWidth | parallel_code_examples/mandelbrot_mpi.py:94-128 | with counts `rowcounts * width`, rank k's displacement in `C` is its start row times `width` |
| Assembly.AssembleSucceeds | parallel_code_examples/mandelbrot_mpi.py:108-128 | with well-shaped local matrices both gathers succeed, and the counts fill `C` exactly |
| Assembly.GatherAssemblesRows | parallel_code_examples/mandelbrot_mpi.py:108-128 | cell (y, x) of `C` is cell (y - start, x) of the local matrix of the one rank that owns row y |
| Assembly.LocalMatricesWellShaped | parallel_code_examples/mandelbrot_mpi.py:100 | every rank's `Cl` has `N` rows of `width` cells once `maxiter >= 1` |
| Assembly.LocalRowIsGlobalRow | parallel_code_examples/mandelbrot_mpi.py:94-100 | rank k samples its row i at the y of global row `start_k + i` |
| Assembly.LocalCellIsGlobalCell | parallel_code_examples/mandelbrot_mpi.py:94-100 | the owner's local cell for global row y and column x equals the whole grid's cell (y, x) |
| Assembly.CellMatches | parallel_code_examples/mandelbrot_mpi.py:94-128 | cell (y, x) of `C` is the whole grid's cell (y, x) |
| Assembly.FlatCellMatches | parallel_code_examples/mandelbrot_mpi.py:112-128 | flat cell p of `C` is flat cell p of the whole grid |
| Assembly.AssembledIsGlobal | parallel_code_examples/mandelbrot_mpi.py:94-128 | `C` is the whole grid, read row-major |
| Assembly.GuardedRunMatchesSequential | parallel_code_examples/mandelbrot_mpi.py:42-128 | with the report guarded, for any number of ranks, with `height != 1` and `maxiter >= 1`, the run leaves in `C` exactly what one `mandel_set` over the whole viewport computes |
| Assembly.ReportMattersOnlyForEmptyBlocks | parallel_code_examples/mandelbrot_mpi.py:100-102 | with `width >= 1` and at most `height` ranks, the run as written and the guarded run agree |
| Assembly.DistributedMatchesSequential | parallel_code_examples/mandelbrot_mpi.py:42-128 | with `height != 1`, `maxiter >= 1`, `width >= 1` and at most `height` ranks, the run as written leaves in `C` exactly what one `mandel_set` over the whole viewport computes |
| Assembly.EmptyBlockFails | parallel_code_examples/mandelbrot_mpi.py:87-102 | with more ranks than rows, or no column, the run as written stops with `Cl.max()`'s error, unless `dy` or `mandel` raised first |
| Assembly.RunSucceedsExactlyWhen | parallel_code_examples/mandelbrot_mpi.py:42-128 | the run as written succeeds exactly when `height >= 2`, `width >= 1`, `size <= height` and `maxiter >= 1` |
| Assembly.EmptyBlockExample | parallel_code_examples/mandelbrot_mpi.py:102 | 2 rows and 1 column over 3 ranks: the run as written stops at rank 2's `Cl.max()`, and the guarded run completes |
| Assembly.RunFailsWithoutIterations | parallel_code_examples/mandelbrot_mpi.py:49-100 | with `maxiter < 1` and a non-empty grid, the run fails with `mandel`'s unbound-variable error |
| Assembly.Area2OverEightRanks | parallel_code_examples/mandelbrot_mpi.py:37-94 | the program's 3000 rows over 8 ranks give 375 rows per rank, rank k starting at row 375k |

## Left out

- The MPI runtime is left out. The model has no processes, transport, blocking or `Barrier` (l.157), and no fail-stop behaviour. The ranks' values are sequences indexed by rank, and each collective is a function of all of them.
- Timing (`MPI.Wtime`, l.25 and l.130), the gathered run times and their statistics (l.132-139), and the output of every `print` are left out as I/O. Only the failure of `Cl.max()` inside the report at l.102 is modelled.
- When ranks fail in different ways, each failing rank raises its own error and the run does not complete. Some may fail in `mandel` (l.100) and others at `Cl.max()` (l.102). The model reports one error for the run: the first of `dy`'s, then `mandel`'s, then `Cl.max()`'s.
- The plot (l.141-156) is left out as I/O.
- `@jit` is dropped. It changes how the code runs, not what it computes, assuming numba compiles `mandel` and `mandel_set` with the same results.
- Floating point is not modelled; coordinates, `dy`, `start_y`, `end_y` and the orbit are exact reals. Rounding can make a double-precision orbit escape at a different iteration. It can also make double-precision `start_y + i * step` differ from the global row's coordinate. Neither is captured.
- `np.linspace` is modelled only for the non-negative sample counts the program passes. Its endpoint rule follows numpy: one sample is `start`, and the last of several is `stop`.
- Integer widths are not modelled. `Cl`, `C` and `rowcounts` are 32-bit (`dtype='i'`, `MPI.INT`) and the model's cells are unbounded. Cells are below `maxiter` (2048), so they fit. `rowcounts * width` wraps once one rank's cell count reaches 2^31, which the model does not capture.
- The displacements for `None` are modelled as running sums of the counts, the rule mpi4py follows. The model does not derive this from mpi4py's source.
- Gather.Gatherv: MPI leaves mismatched counts and buffer overruns to the caller and calls them erroneous. The model refuses them with an error instead. The program's own calls never hit them (`Assembly.AssembleSucceeds`).
- The model takes `rowcounts` to be the row counts the ranks sent, by `Gather.GatherToRoot`. Which rank is root, and `rowcounts = 0` on the other ranks (l.108), do not matter to rank 0's result and are not modelled.
- Python 2 integer semantics: `//` and `%` with a positive divisor agree with Dafny's, and `height % size > rank` adds its boolean as 0 or 1. `comm.Get_size()` is at least 1.

## Findings

| source | as written | input that shows it | evidently intended | confidence | as-written member | corrected member |
|---|---|---|---|---|---|---|
| parallel_code_examples/mandelbrot_mpi.py:102 | every rank reports `Cl.max()`, which raises `ValueError` on an empty `Cl`, so the run stops before the gathers whenever a rank has no row or the grid no column | `width = 1`, `height = 2`, `maxiter = 1` over 3 ranks: rank 2 gets no row | report the maximum only for a non-empty `Cl`, so ranks without rows take part in the gathers with empty contributions and `C` is complete | medium; not executed | Assembly.EmptyBlockExample | Assembly.GuardedRunMatchesSequential |
