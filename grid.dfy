/**
 * `mandel_set`: the escape time of every point of a width-by-height sample
 * grid of a rectangle of the complex plane, column x and row y at cell [y, x].
 * Sample coordinates are exact `real`s, an idealisation of the source's doubles.
 */
module Grid {
  import opened Wrappers
  import opened Escape

  /**
   * `np.linspace(start, stop, num)`: `num` evenly spaced samples from `start`
   * to `stop`, both included; a single sample is `start`.
   */
  function Linspace(start: real, stop: real, num: nat): (s: seq<real>)
    ensures |s| == num
    ensures num >= 1 ==> s[0] == start
  {
    seq(num, k requires 0 <= k < num =>
      if num == 1 then start
      else if k == num - 1 then stop
      else start + (k as real) * ((stop - start) / ((num - 1) as real)))
  }

  /** With two or more samples, sample k sits k spacings of (stop - start) / (num - 1) after `start`. */
  lemma LinspaceEvenlySpaced(start: real, stop: real, num: nat, k: nat)
    requires 2 <= num && k < num
    ensures Linspace(start, stop, num)[k] == start + (k as real) * ((stop - start) / ((num - 1) as real))
    ensures Linspace(start, stop, num)[num - 1] == stop
  {
    var div := (num - 1) as real;
    var step := (stop - start) / div;
    assert div * step == stop - start;
  }

  /** The rows of the block [first, first + n) sampled over [ymin + first*dy, ymin + (first + n - 1)*dy] lie on the global grid. */
  lemma BlockSamplesOnGlobalGrid(ymin: real, dy: real, first: nat, n: nat, j: nat)
    requires j < n
    ensures Linspace(ymin + (first as real) * dy, ymin + ((first + n - 1) as real) * dy, n)[j] == ymin + ((first + j) as real) * dy
  {
    if n >= 2 {
      var start, stop := ymin + (first as real) * dy, ymin + ((first + n - 1) as real) * dy;
      var div := (n - 1) as real;
      assert div != 0.0;
      assert ((first + n - 1) as real) == (first as real) + div;
      assert ((first as real) + div) * dy == (first as real) * dy + div * dy;
      assert stop - start == div * dy;
      assert (div * dy) / div == dy;
      LinspaceEvenlySpaced(start, stop, n, j);
      assert ((first + j) as real) * dy == (first as real) * dy + (j as real) * dy;
    }
  }

  /** The full grid: row y of `np.linspace(ymin, ymax, height)` is y spacings of `dy` above `ymin`. */
  lemma GlobalSamples(ymin: real, ymax: real, height: nat, y: nat)
    requires 2 <= height && y < height
    ensures Linspace(ymin, ymax, height)[y] == ymin + (y as real) * ((ymax - ymin) / ((height - 1) as real))
  {
    LinspaceEvenlySpaced(ymin, ymax, height, y);
  }

  /**
   * Row i of a block of n rows starting at global row `first`, sampled between
   * the block's first and last row coordinates, is global row first + i: every
   * rank samples the same global grid.
   */
  lemma BlockRowIsGlobalRow(ymin: real, ymax: real, height: nat, dy: real, first: nat, n: nat, i: nat, lo: real, hi: real)
    requires 2 <= height && i < n && first + i < height
    requires dy == (ymax - ymin) / ((height - 1) as real)
    requires lo == ymin + (first as real) * dy && hi == ymin + ((first + n - 1) as real) * dy
    ensures Linspace(lo, hi, n)[i] == Linspace(ymin, ymax, height)[first + i]
  {
    BlockSamplesOnGlobalGrid(ymin, dy, first, n, i);
    GlobalSamples(ymin, ymax, height, first + i);
  }

  /**
   * The matrix `mandel_set(xmin, xmax, ymin, ymax, width, height, maxiter)`
   * returns as a sequence of rows, or the error `mandel` raises at the first
   * grid point when `maxiter` is not positive.
   */
  function MandelGrid(xmin: real, xmax: real, ymin: real, ymax: real, width: nat, height: nat, maxiter: int)
    : (g: Result<seq<seq<int>>, MandelError>)
    ensures g.Ok? <==> maxiter >= 1 || width == 0 || height == 0
    ensures g.Ok? ==> |g.value| == height
    ensures g.Ok? ==> forall y :: 0 <= y < height ==> |g.value[y]| == width
    ensures g.Ok? ==> forall y, x :: 0 <= y < height && 0 <= x < width ==> 0 <= g.value[y][x] < maxiter
  {
    if width > 0 && height > 0 && maxiter < 1 then Err(UnboundLoopVariable)
    else
      var r, i := Linspace(xmin, xmax, width), Linspace(ymin, ymax, height);
      Ok(seq(height, y requires 0 <= y < height =>
        seq(width, x requires 0 <= x < width => EscapeTime(Complex(r[x], i[y]), maxiter).value)))
  }

  /** Cell (y, x) of the grid, as one equation. */
  lemma MandelGridCell(xmin: real, xmax: real, ymin: real, ymax: real, width: nat, height: nat, maxiter: int, y: nat, x: nat)
    requires maxiter >= 1 && y < height && x < width
    ensures MandelGrid(xmin, xmax, ymin, ymax, width, height, maxiter).Ok?
    ensures |MandelGrid(xmin, xmax, ymin, ymax, width, height, maxiter).value| == height
    ensures |MandelGrid(xmin, xmax, ymin, ymax, width, height, maxiter).value[y]| == width
    ensures MandelGrid(xmin, xmax, ymin, ymax, width, height, maxiter).value[y][x]
      == EscapeTime(Complex(Linspace(xmin, xmax, width)[x], Linspace(ymin, ymax, height)[y]), maxiter).value
  {
  }

  /** Two grids over the same columns agree on a cell whose rows are sampled at the same y coordinate. */
  lemma MandelGridSameRow(xmin: real, xmax: real, width: nat, maxiter: int, x: nat,
                          ymin1: real, ymax1: real, height1: nat, y1: nat,
                          ymin2: real, ymax2: real, height2: nat, y2: nat)
    requires maxiter >= 1 && x < width && y1 < height1 && y2 < height2
    requires Linspace(ymin1, ymax1, height1)[y1] == Linspace(ymin2, ymax2, height2)[y2]
    ensures MandelGrid(xmin, xmax, ymin1, ymax1, width, height1, maxiter).Ok?
    ensures MandelGrid(xmin, xmax, ymin2, ymax2, width, height2, maxiter).Ok?
    ensures MandelGrid(xmin, xmax, ymin1, ymax1, width, height1, maxiter).value[y1][x]
      == MandelGrid(xmin, xmax, ymin2, ymax2, width, height2, maxiter).value[y2][x]
  {
    MandelGridCell(xmin, xmax, ymin1, ymax1, width, height1, maxiter, y1, x);
    MandelGridCell(xmin, xmax, ymin2, ymax2, width, height2, maxiter, y2, x);
  }

  /** `mandel_set`: fills a fresh height-by-width matrix column by column with `mandel`. */
  method MandelSet(xmin: real, xmax: real, ymin: real, ymax: real, width: nat, height: nat, maxiter: int)
    returns (res: Result<array2<int>, MandelError>)
    ensures res.Ok? <==> MandelGrid(xmin, xmax, ymin, ymax, width, height, maxiter).Ok?
    ensures res.Err? ==> res.error == UnboundLoopVariable
    ensures res.Ok? ==> fresh(res.value) && res.value.Length0 == height && res.value.Length1 == width
    ensures res.Ok? ==> forall y, x :: 0 <= y < height && 0 <= x < width ==>
      res.value[y, x] == MandelGrid(xmin, xmax, ymin, ymax, width, height, maxiter).value[y][x]
  {
    var r := Linspace(xmin, xmax, width);
    var i := Linspace(ymin, ymax, height);
    ghost var g := MandelGrid(xmin, xmax, ymin, ymax, width, height, maxiter);
    var cm := new int[height, width];
    for x := 0 to width
      invariant x > 0 && height > 0 ==> maxiter >= 1
      invariant forall yy, xx :: 0 <= yy < height && 0 <= xx < x ==> g.Ok? && cm[yy, xx] == g.value[yy][xx]
    {
      for y := 0 to height
        invariant y > 0 || (x > 0 && height > 0) ==> maxiter >= 1
        invariant forall yy, xx :: 0 <= yy < height && 0 <= xx < x ==> g.Ok? && cm[yy, xx] == g.value[yy][xx]
        invariant forall yy :: 0 <= yy < y ==> g.Ok? && cm[yy, x] == g.value[yy][x]
      {
        var v := Mandel(r[x], i[y], maxiter);
        if v.Err? {
          return Err(v.error);
        }
        cm[y, x] := v.value;
      }
    }
    return Ok(cm);
  }
}
