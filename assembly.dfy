/**
 * The whole run as rank 0 sees it: every rank computes its block of rows with
 * `mandel_set`, rank 0 gathers the row counts and then, with `Gatherv`, the
 * blocks into the height-by-width matrix `C`, stored row-major and zeroed
 * beforehand.
 */
module Assembly {
  import opened Wrappers
  import opened Sums
  import opened Partition
  import opened Escape
  import opened Grid
  import opened Gather

  /** The module-level settings of the program: the viewport, the resolution and the iteration cap. */
  datatype Config = Config(xmin: real, xmax: real, ymin: real, ymax: real, width: nat, height: nat, maxiter: int)

  /** The settings the program runs with ("area2"). */
  const Area2: Config := Config(-0.74877, -0.74872, 0.06505, 0.06510, 3000, 3000, 2048)

  datatype RunError =
    | RowSpacingUndefined         // `dy` divides by `height - 1`, which is zero for a single row
    | LocalFailed(cause: MandelError) // some rank's `mandel_set` raised
    | EmptyLocalMaximum           // some rank's `Cl` is empty, and `Cl.max()` has no value to report
    | GatherFailed(reason: GatherError)

  /** The spacing between two grid rows. */
  function Dy(cfg: Config): real
    requires cfg.height != 1
  {
    (cfg.ymax - cfg.ymin) / ((cfg.height - 1) as real)
  }

  /** `start_y`: the y coordinate of rank `rank`'s first row. */
  function StartY(cfg: Config, size: nat, rank: nat, dy: real): real
    requires size > 0 && rank < size
  {
    cfg.ymin + (StartRow(cfg.height, size, rank) as real) * dy
  }

  /** `end_y`: the y coordinate of rank `rank`'s last row. */
  function EndY(cfg: Config, size: nat, rank: nat, dy: real): real
    requires size > 0 && rank < size
  {
    cfg.ymin + ((StartRow(cfg.height, size, rank) + RowCount(cfg.height, size, rank) - 1) as real) * dy
  }

  /** The local matrix `Cl` of rank `rank`: its rows, sampled from `start_y` to `end_y`. */
  function LocalMatrix(cfg: Config, size: nat, rank: nat, dy: real): Result<seq<seq<int>>, MandelError>
    requires size > 0 && rank < size
  {
    MandelGrid(cfg.xmin, cfg.xmax, StartY(cfg, size, rank, dy), EndY(cfg, size, rank, dy),
      cfg.width, RowCount(cfg.height, size, rank), cfg.maxiter)
  }

  /** The zeroed buffer `C` of `n` cells that rank 0 allocates before the gathers. */
  function Zeros(n: nat): (z: seq<int>)
    ensures |z| == n
  {
    seq(n, _ => 0)
  }

  /** Rank k's local matrix has its row count of rows, each `width` cells wide. */
  predicate WellShaped(height: nat, width: nat, size: nat, locals: seq<seq<seq<int>>>)
    requires size > 0
  {
    |locals| == size
    && (forall k :: 0 <= k < size ==> |locals[k]| == RowCount(height, size, k))
    && (forall k, i :: 0 <= k < size && 0 <= i < |locals[k]| ==> |locals[k][i]| == width)
  }

  /**
   * The two gathers on rank 0: `rowcounts` holds each rank's row count in rank
   * order, and `Gatherv` receives `rowcounts[k] * width` elements from rank k
   * into `C`.
   */
  function AssembleOnRoot(height: nat, width: nat, size: nat, locals: seq<seq<seq<int>>>): Result<seq<int>, GatherError>
    requires size > 0 && |locals| == size
  {
    var rowcounts := RowCounts(height, size);
    Gatherv(Zeros(height * width),
      seq(size, k requires 0 <= k < size => rowcounts[k] * width),
      seq(size, k requires 0 <= k < size => Flatten(locals[k])))
  }

  /** The local matrices of all ranks, in rank order, or the error each rank's `mandel_set` raises. */
  function LocalResults(cfg: Config, size: nat, dy: real): seq<Result<seq<seq<int>>, MandelError>>
    requires size > 0
  {
    seq(size, k requires 0 <= k < size => LocalMatrix(cfg, size, k, dy))
  }

  /** Rank k's `Cl` has no element: no row, or rows of no cell. */
  predicate EmptyBlock(cfg: Config, size: nat, k: nat)
    requires size > 0
  {
    RowCount(cfg.height, size, k) == 0 || cfg.width == 0
  }

  /** Rank 0's side of the two gathers, once every rank holds its local matrix. */
  function Collect(cfg: Config, size: nat, results: seq<Result<seq<seq<int>>, MandelError>>): Result<seq<int>, RunError>
    requires size > 0 && |results| == size && forall k :: 0 <= k < size ==> results[k].Ok?
  {
    match AssembleOnRoot(cfg.height, cfg.width, size, seq(size, k requires 0 <= k < size => results[k].value))
    case Ok(c) => Ok(c)
    case Err(e) => Err(GatherFailed(e))
  }

  /**
   * The matrix `C` on rank 0 at the end of the run, row-major, or the error
   * that stops the run: `dy` (line 42), then every rank's `mandel_set`
   * (line 100) and its report of `Cl.max()` (line 102), then the gathers.
   * With `guarded`, the report is made only for a non-empty `Cl`, so it
   * cannot fail.
   */
  function Run(cfg: Config, size: nat, guarded: bool): Result<seq<int>, RunError>
    requires size > 0
  {
    if cfg.height == 1 then Err(RowSpacingUndefined)
    else
      var results := LocalResults(cfg, size, Dy(cfg));
      if exists k :: 0 <= k < size && results[k].Err? then Err(LocalFailed(UnboundLoopVariable))
      else if !guarded && exists k :: 0 <= k < size && EmptyBlock(cfg, size, k) then Err(EmptyLocalMaximum)
      else Collect(cfg, size, results)
  }

  /** The run as written: the report of `Cl.max()` fails on an empty `Cl`. */
  function RootMatrix(cfg: Config, size: nat): Result<seq<int>, RunError>
    requires size > 0
  {
    Run(cfg, size, false)
  }

  /** The same run with the report of `Cl.max()` made only for a non-empty `Cl`. */
  function RootMatrixWithGuardedReport(cfg: Config, size: nat): Result<seq<int>, RunError>
    requires size > 0
  {
    Run(cfg, size, true)
  }

  // ---------------------------------------------------------------------------
  // Assembly

  /** Rank k's displacement in `C` is its start row times the width: its rows go where its row range says. */
  lemma DisplacementIsStartRowTimesWidth(height: nat, width: nat, size: nat, k: nat)
    requires size > 0 && k < size
    ensures var rowcounts := RowCounts(height, size);
      Displacements(seq(size, q requires 0 <= q < size => rowcounts[q] * width))[k] == StartRow(height, size, k) * width
  {
    var rowcounts := RowCounts(height, size);
    var counts := seq(size, q requires 0 <= q < size => rowcounts[q] * width);
    DisplacementsArePrefixSums(counts, k);
    SumScale(rowcounts[..k], width, counts[..k]);
    StartRowIsExclusivePrefixSum(height, size, k);
  }

  /**
   * With well-shaped local matrices, both gathers succeed, `C` is covered
   * exactly, and global row y is local row y - StartRow(k) of the one rank k
   * that owns y; this holds for any number of ranks, also more than rows.
   */
  lemma GatherAssemblesRows(height: nat, width: nat, size: nat, locals: seq<seq<seq<int>>>, y: nat, x: nat)
    requires size > 0 && WellShaped(height, width, size, locals)
    requires y < height && x < width
    ensures AssembleOnRoot(height, width, size, locals).Ok?
    ensures var c := AssembleOnRoot(height, width, size, locals).value;
      var k := Owner(height, size, y);
      |c| == height * width && y * width + x < |c| && c[y * width + x] == locals[k][y - StartRow(height, size, k)][x]
  {
    BlockOffset(0, y, height, width, x);
    AssembleSucceeds(height, width, size, locals);
    var rowcounts := RowCounts(height, size);
    var counts := seq(size, q requires 0 <= q < size => rowcounts[q] * width);
    var sends := seq(size, q requires 0 <= q < size => Flatten(locals[q]));
    var k := Owner(height, size, y);
    StartRowInRange(height, size, k);
    var first: nat := StartRow(height, size, k);
    var n := RowCount(height, size, k);
    var i: nat := y - first;
    var j := i * width + x;
    assert j < counts[k] && first * width + j == y * width + x by {
      BlockOffset(first, i, n, width, x);
    }
    assert sends[k][j] == locals[k][i][x] by {
      FlattenAt(locals[k], width, i, x);
    }
    DisplacementIsStartRowTimesWidth(height, width, size, k);
    GathervPlacesContributions(Zeros(height * width), counts, sends, k, j);
    var c := AssembleOnRoot(height, width, size, locals).value;
    assert c == Gatherv(Zeros(height * width), counts, sends).value;
    assert Displacements(counts)[k] + j == y * width + x;
  }

  /** Row i of a block of n rows starting at row `first` begins i*w cells into the block's n*w cells. */
  lemma BlockOffset(first: nat, i: nat, n: nat, w: nat, x: nat)
    requires i < n && x < w
    ensures i * w + x < n * w
    ensures first * w + (i * w + x) == (first + i) * w + x
  {
    assert i * w <= (n - 1) * w;
    assert (n - 1) * w + w == n * w;
    assert first * w + i * w == (first + i) * w;
  }

  /** The gathers of a run with well-shaped local matrices succeed and fill all of `C`. */
  lemma AssembleSucceeds(height: nat, width: nat, size: nat, locals: seq<seq<seq<int>>>)
    requires size > 0 && WellShaped(height, width, size, locals)
    ensures AssembleOnRoot(height, width, size, locals).Ok?
    ensures Sum(seq(size, q requires 0 <= q < size => RowCounts(height, size)[q] * width)) == height * width
  {
    var rowcounts := RowCounts(height, size);
    var counts := seq(size, q requires 0 <= q < size => rowcounts[q] * width);
    var sends := seq(size, q requires 0 <= q < size => Flatten(locals[q]));
    forall q | 0 <= q < size
      ensures counts[q] == |sends[q]|
    {
      FlattenUniformLength(locals[q], width);
    }
    SumScale(rowcounts, width, counts);
    RowCountsSumToHeight(height, size);
  }

  // ---------------------------------------------------------------------------
  // The run

  /** Every rank's local matrix is well shaped, once `mandel` can run. */
  lemma LocalMatricesWellShaped(cfg: Config, size: nat, dy: real, k: nat)
    requires size > 0 && k < size && cfg.maxiter >= 1
    ensures LocalMatrix(cfg, size, k, dy).Ok?
    ensures |LocalMatrix(cfg, size, k, dy).value| == RowCount(cfg.height, size, k)
    ensures forall i :: 0 <= i < RowCount(cfg.height, size, k) ==> |LocalMatrix(cfg, size, k, dy).value[i]| == cfg.width
  {
  }

  /**
   * With the report guarded, the distributed run computes what a single
   * `mandel_set` over the whole viewport computes: rank 0's `C`, read
   * row-major, is that matrix, whatever the number of ranks.
   */
  lemma GuardedRunMatchesSequential(cfg: Config, size: nat)
    requires size > 0 && cfg.height != 1 && cfg.maxiter >= 1
    ensures RootMatrixWithGuardedReport(cfg, size) ==
      Ok(Flatten(MandelGrid(cfg.xmin, cfg.xmax, cfg.ymin, cfg.ymax, cfg.width, cfg.height, cfg.maxiter).value))
  {
    var dy := Dy(cfg);
    var h, w := cfg.height, cfg.width;
    var results := LocalResults(cfg, size, dy);
    forall k | 0 <= k < size
      ensures results[k].Ok?
    {
      LocalMatricesWellShaped(cfg, size, dy, k);
    }
    assert !exists k :: 0 <= k < size && results[k].Err?;
    var locals := seq(size, k requires 0 <= k < size => results[k].value);
    forall k | 0 <= k < size
      ensures |locals[k]| == RowCount(h, size, k)
      ensures forall i :: 0 <= i < |locals[k]| ==> |locals[k][i]| == w
    {
      LocalMatricesWellShaped(cfg, size, dy, k);
    }
    assert WellShaped(h, w, size, locals);
    AssembleSucceeds(h, w, size, locals);
    var c := AssembleOnRoot(h, w, size, locals).value;
    assert RootMatrixWithGuardedReport(cfg, size) == Ok(c);
    assert forall k :: 0 <= k < size ==> LocalMatrix(cfg, size, k, dy).Ok? && locals[k] == LocalMatrix(cfg, size, k, dy).value;
    AssembledIsGlobal(cfg, size, dy, locals);
  }

  /** The report of `Cl.max()` changes the run only when some rank's block is empty. */
  lemma ReportMattersOnlyForEmptyBlocks(cfg: Config, size: nat)
    requires size > 0 && cfg.width >= 1 && size <= cfg.height
    ensures RootMatrix(cfg, size) == RootMatrixWithGuardedReport(cfg, size)
  {
    forall k | 0 <= k < size
      ensures !EmptyBlock(cfg, size, k)
    {
      RowCountZeroExactly(cfg.height, size, k);
    }
  }

  /**
   * The program's run computes what a single `mandel_set` over the whole
   * viewport computes, when every rank has at least one row and the grid at
   * least one column.
   */
  lemma DistributedMatchesSequential(cfg: Config, size: nat)
    requires size > 0 && cfg.height != 1 && cfg.maxiter >= 1
    requires cfg.width >= 1 && size <= cfg.height
    ensures RootMatrix(cfg, size) ==
      Ok(Flatten(MandelGrid(cfg.xmin, cfg.xmax, cfg.ymin, cfg.ymax, cfg.width, cfg.height, cfg.maxiter).value))
  {
    ReportMattersOnlyForEmptyBlocks(cfg, size);
    GuardedRunMatchesSequential(cfg, size);
  }

  /**
   * With more ranks than rows, or no column, some rank's `Cl` is empty and
   * its report of `Cl.max()` raises, unless `dy` or `mandel` raised first.
   */
  lemma EmptyBlockFails(cfg: Config, size: nat)
    requires size > 0 && cfg.height != 1
    requires cfg.width == 0 || size > cfg.height
    requires cfg.maxiter >= 1 || cfg.width == 0 || cfg.height == 0
    ensures RootMatrix(cfg, size) == Err(EmptyLocalMaximum)
  {
    var dy := Dy(cfg);
    var results := LocalResults(cfg, size, dy);
    forall k | 0 <= k < size
      ensures results[k].Ok?
    {
      if cfg.height == 0 {
        RowCountZeroExactly(cfg.height, size, k);
      }
    }
    RowCountZeroExactly(cfg.height, size, size - 1);
    assert EmptyBlock(cfg, size, size - 1);
  }

  /** The program's run succeeds exactly when `dy` is defined, `maxiter` is positive and no rank's `Cl` is empty. */
  lemma RunSucceedsExactlyWhen(cfg: Config, size: nat)
    requires size > 0
    ensures RootMatrix(cfg, size).Ok? <==>
      cfg.height >= 2 && cfg.width >= 1 && size <= cfg.height && cfg.maxiter >= 1
  {
    if cfg.height != 1 {
      if cfg.width >= 1 && size <= cfg.height && cfg.maxiter >= 1 {
        DistributedMatchesSequential(cfg, size);
      } else if cfg.width >= 1 && cfg.height >= 1 && cfg.maxiter < 1 {
        RunFailsWithoutIterations(cfg, size);
      } else if cfg.width == 0 || size > cfg.height {
        EmptyBlockFails(cfg, size);
      }
    }
  }

  /** Three ranks for two rows: the program stops at rank 2's report, the guarded run completes. */
  lemma EmptyBlockExample()
    ensures RootMatrix(Config(0.0, 1.0, 0.0, 1.0, 1, 2, 1), 3) == Err(EmptyLocalMaximum)
    ensures RootMatrixWithGuardedReport(Config(0.0, 1.0, 0.0, 1.0, 1, 2, 1), 3).Ok?
  {
    EmptyBlockFails(Config(0.0, 1.0, 0.0, 1.0, 1, 2, 1), 3);
    GuardedRunMatchesSequential(Config(0.0, 1.0, 0.0, 1.0, 1, 2, 1), 3);
  }

  /** Cell by cell, the gathered matrix is the whole grid, read row-major. */
  lemma AssembledIsGlobal(cfg: Config, size: nat, dy: real, locals: seq<seq<seq<int>>>)
    requires size > 0 && cfg.height != 1 && cfg.maxiter >= 1 && dy == Dy(cfg)
    requires |locals| == size
    requires forall k :: 0 <= k < size ==> LocalMatrix(cfg, size, k, dy).Ok? && locals[k] == LocalMatrix(cfg, size, k, dy).value
    requires WellShaped(cfg.height, cfg.width, size, locals)
    ensures AssembleOnRoot(cfg.height, cfg.width, size, locals).Ok?
    ensures AssembleOnRoot(cfg.height, cfg.width, size, locals).value
      == Flatten(MandelGrid(cfg.xmin, cfg.xmax, cfg.ymin, cfg.ymax, cfg.width, cfg.height, cfg.maxiter).value)
  {
    var h, w := cfg.height, cfg.width;
    AssembleSucceeds(h, w, size, locals);
    var c := AssembleOnRoot(h, w, size, locals).value;
    var global := MandelGrid(cfg.xmin, cfg.xmax, cfg.ymin, cfg.ymax, w, h, cfg.maxiter).value;
    FlattenUniformLength(global, w);
    assert |c| == h * w;
    forall p | 0 <= p < h * w
      ensures c[p] == Flatten(global)[p]
    {
      FlatCellMatches(cfg, size, dy, locals, p);
    }
    assert c == Flatten(global);
  }

  /** Flat cell p of the gathered matrix is flat cell p of the whole grid. */
  lemma FlatCellMatches(cfg: Config, size: nat, dy: real, locals: seq<seq<seq<int>>>, p: nat)
    requires size > 0 && cfg.height != 1 && cfg.maxiter >= 1 && dy == Dy(cfg)
    requires |locals| == size
    requires forall k :: 0 <= k < size ==> LocalMatrix(cfg, size, k, dy).Ok? && locals[k] == LocalMatrix(cfg, size, k, dy).value
    requires WellShaped(cfg.height, cfg.width, size, locals)
    requires p < cfg.height * cfg.width
    ensures AssembleOnRoot(cfg.height, cfg.width, size, locals).Ok?
    ensures var c := AssembleOnRoot(cfg.height, cfg.width, size, locals).value;
      var global := MandelGrid(cfg.xmin, cfg.xmax, cfg.ymin, cfg.ymax, cfg.width, cfg.height, cfg.maxiter).value;
      p < |c| && p < |Flatten(global)| && c[p] == Flatten(global)[p]
  {
    var h, w := cfg.height, cfg.width;
    RowMajorIndex(p, h, w);
    var y, x := p / w, p % w;
    assert p == y * w + x;
    var k := Owner(h, size, y);
    assert LocalMatrix(cfg, size, k, dy).Ok? && locals[k] == LocalMatrix(cfg, size, k, dy).value;
    CellMatches(cfg, size, dy, locals, y, x);
    FlattenAt(MandelGrid(cfg.xmin, cfg.xmax, cfg.ymin, cfg.ymax, w, h, cfg.maxiter).value, w, y, x);
  }

  /** A flat index into an h-by-w row-major matrix splits into a row and a column. */
  lemma RowMajorIndex(p: nat, h: nat, w: nat)
    requires p < h * w
    ensures w > 0 && p / w < h && p % w < w && p == (p / w) * w + p % w
  {
  }

  /** Cell (y, x) of the gathered matrix is the escape time at the global sample point of row y and column x. */
  lemma CellMatches(cfg: Config, size: nat, dy: real, locals: seq<seq<seq<int>>>, y: nat, x: nat)
    requires size > 0 && cfg.height != 1 && cfg.maxiter >= 1 && dy == Dy(cfg)
    requires y < cfg.height && x < cfg.width
    requires WellShaped(cfg.height, cfg.width, size, locals)
    requires var k := Owner(cfg.height, size, y);
      LocalMatrix(cfg, size, k, dy).Ok? && locals[k] == LocalMatrix(cfg, size, k, dy).value
    ensures AssembleOnRoot(cfg.height, cfg.width, size, locals).Ok?
    ensures var c := AssembleOnRoot(cfg.height, cfg.width, size, locals).value;
      var g := MandelGrid(cfg.xmin, cfg.xmax, cfg.ymin, cfg.ymax, cfg.width, cfg.height, cfg.maxiter);
      |c| == cfg.height * cfg.width && y * cfg.width + x < |c| && g.Ok? && y < |g.value| && x < |g.value[y]|
      && c[y * cfg.width + x] == g.value[y][x]
  {
    var k := Owner(cfg.height, size, y);
    var i := y - StartRow(cfg.height, size, k);
    var local := LocalMatrix(cfg, size, k, dy).value;
    var g := MandelGrid(cfg.xmin, cfg.xmax, cfg.ymin, cfg.ymax, cfg.width, cfg.height, cfg.maxiter).value;
    LocalCellIsGlobalCell(cfg, size, dy, k, y, x);
    assert 0 <= i < |local| && x < |local[i]| && y < |g| && x < |g[y]| && local[i][x] == g[y][x];
    GatherAssemblesRows(cfg.height, cfg.width, size, locals, y, x);
  }

  /** Each rank's cell for global row y and column x holds the whole grid's cell (y, x). */
  lemma LocalCellIsGlobalCell(cfg: Config, size: nat, dy: real, k: nat, y: nat, x: nat)
    requires size > 0 && cfg.height != 1 && cfg.maxiter >= 1 && dy == Dy(cfg)
    requires Owns(cfg.height, size, k, y) && y < cfg.height && x < cfg.width
    ensures var local := LocalMatrix(cfg, size, k, dy);
      var global := MandelGrid(cfg.xmin, cfg.xmax, cfg.ymin, cfg.ymax, cfg.width, cfg.height, cfg.maxiter);
      local.Ok? && global.Ok? && 0 <= y - StartRow(cfg.height, size, k) < |local.value| && |global.value| == cfg.height
      && |local.value[y - StartRow(cfg.height, size, k)]| == cfg.width
      && local.value[y - StartRow(cfg.height, size, k)][x] == global.value[y][x]
  {
    var h, w := cfg.height, cfg.width;
    StartRowInRange(h, size, k);
    var first: nat := StartRow(h, size, k);
    var n := RowCount(h, size, k);
    var i: nat := y - first;
    var lo, hi := StartY(cfg, size, k, dy), EndY(cfg, size, k, dy);
    assert LocalMatrix(cfg, size, k, dy) == MandelGrid(cfg.xmin, cfg.xmax, lo, hi, w, n, cfg.maxiter);
    LocalRowIsGlobalRow(cfg, size, dy, k, i);
    MandelGridSameRow(cfg.xmin, cfg.xmax, w, cfg.maxiter, x, lo, hi, n, i, cfg.ymin, cfg.ymax, h, y);
  }

  /** Rank k samples its row i at the y coordinate of global row StartRow(k) + i. */
  lemma LocalRowIsGlobalRow(cfg: Config, size: nat, dy: real, k: nat, i: nat)
    requires size > 0 && cfg.height != 1 && dy == Dy(cfg)
    requires k < size && i < RowCount(cfg.height, size, k)
    ensures var first := StartRow(cfg.height, size, k);
      0 <= first + i < cfg.height
      && Linspace(StartY(cfg, size, k, dy), EndY(cfg, size, k, dy), RowCount(cfg.height, size, k))[i]
        == Linspace(cfg.ymin, cfg.ymax, cfg.height)[first + i]
  {
    StartRowInRange(cfg.height, size, k);
    var first: nat := StartRow(cfg.height, size, k);
    BlockRowIsGlobalRow(cfg.ymin, cfg.ymax, cfg.height, dy, first, RowCount(cfg.height, size, k), i,
      StartY(cfg, size, k, dy), EndY(cfg, size, k, dy));
  }

  /** Without a single iteration, each rank with rows raises, and so does the run. */
  lemma RunFailsWithoutIterations(cfg: Config, size: nat)
    requires size > 0 && cfg.height >= 2 && cfg.width > 0 && cfg.maxiter < 1
    ensures RootMatrix(cfg, size) == Err(LocalFailed(UnboundLoopVariable))
  {
    var results := LocalResults(cfg, size, Dy(cfg));
    RowCountZeroExactly(cfg.height, size, 0);
    assert results[0].Err?;
  }

  /** The program's own settings over 8 ranks: 375 rows each, starting every 375 rows. */
  lemma Area2OverEightRanks(k: nat)
    requires k < 8
    ensures RowCount(Area2.height, 8, k) == 375
    ensures StartRow(Area2.height, 8, k) == 375 * k
  {
    StartRowClosedForm(Area2.height, 8, k);
  }
}
