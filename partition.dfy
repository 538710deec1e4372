/**
 * Block distribution of the grid's rows over the ranks of the communicator:
 * rank k computes the contiguous rows [StartRow(k), StartRow(k) + RowCount(k)).
 * Rank numbers are 0-based and a communicator has at least one rank.
 */
module Partition {
  import opened Sums

  /**
   * The number of rows rank `rank` computes: an equal share, plus one row for
   * each of the lowest-numbered `height % size` ranks.
   */
  function RowCount(height: nat, size: nat, rank: nat): (n: nat)
    requires size > 0
    ensures n <= height
  {
    var share, extra := height / size, height % size;
    assert share * size + extra == height;
    assert share <= share * size by { MulMonotone(share, size); }
    share + (if extra > rank then 1 else 0)
  }

  /** Every rank's row count, in rank order: the values gathered into `rowcounts`. */
  function RowCounts(height: nat, size: nat): (r: seq<int>)
    requires size > 0
    ensures |r| == size
    ensures forall k :: 0 <= k < size ==> r[k] == RowCount(height, size, k)
  {
    seq(size, k requires 0 <= k < size => RowCount(height, size, k))
  }

  /** First global row of rank `rank`: its inclusive scan of the row counts minus its own count. */
  function StartRow(height: nat, size: nat, rank: nat): int
    requires size > 0 && rank < size
  {
    Scan(RowCounts(height, size))[rank] - RowCount(height, size, rank)
  }

  /** Rank `rank` computes global row `y`. */
  predicate Owns(height: nat, size: nat, rank: nat, y: int)
    requires size > 0
  {
    rank < size && StartRow(height, size, rank) <= y < StartRow(height, size, rank) + RowCount(height, size, rank)
  }

  // ---------------------------------------------------------------------------
  // Row counts

  /** A rank has one row more than the equal share exactly when its number is below the remainder; otherwise it has the share. */
  lemma RowCountExtraRow(height: nat, size: nat, rank: nat)
    requires size > 0
    ensures RowCount(height, size, rank) == height / size + 1 <==> rank < height % size
    ensures RowCount(height, size, rank) == height / size <==> rank >= height % size
  {
  }

  /** No two ranks' row counts differ by more than one, and earlier ranks never have fewer rows. */
  lemma RowCountsBalanced(height: nat, size: nat, j: nat, k: nat)
    requires size > 0 && j <= k < size
    ensures 0 <= RowCount(height, size, j) - RowCount(height, size, k) <= 1
  {
  }

  /** The first k ranks together compute k equal shares plus one row for each of them below the remainder. */
  lemma {:induction false} RowCountsPrefixSum(height: nat, size: nat, k: nat)
    requires size > 0 && k <= size
    ensures Sum(RowCounts(height, size)[..k]) == k * (height / size) + Min(k, height % size)
  {
    var counts := RowCounts(height, size);
    var q, r := height / size, height % size;
    if k > 0 {
      RowCountsPrefixSum(height, size, k - 1);
      assert counts[..k][..k - 1] == counts[..k - 1];
      assert Sum(counts[..k]) == Sum(counts[..k - 1]) + counts[k - 1];
      assert counts[k - 1] == q + (if r > k - 1 then 1 else 0);
      assert (k - 1) * q + q == k * q;
    }
  }

  /** Multiplying by a positive factor does not make a natural number smaller. */
  lemma MulMonotone(a: nat, b: nat)
    requires b >= 1
    ensures a <= a * b
  {
  }

  /** The smaller of two integers, as Python's `min`. */
  function Min(a: int, b: int): int
  {
    if a <= b then a else b
  }

  /** The row counts of all ranks add up to the height of the grid. */
  lemma RowCountsSumToHeight(height: nat, size: nat)
    requires size > 0
    ensures Sum(RowCounts(height, size)) == height
  {
    RowCountsPrefixSum(height, size, size);
    assert RowCounts(height, size)[..size] == RowCounts(height, size);
  }

  /** With more ranks than rows, the ranks from `height` on compute no row and start at the end of the grid. */
  lemma ExcessRanksIdle(height: nat, size: nat, rank: nat)
    requires size > height && height <= rank < size
    ensures RowCount(height, size, rank) == 0
    ensures StartRow(height, size, rank) == height
  {
    StartRowClosedForm(height, size, rank);
  }

  /** A rank gets no row exactly when its rank is at least `height`: with at most `height` ranks, every rank has work. */
  lemma RowCountZeroExactly(height: nat, size: nat, rank: nat)
    requires size > 0 && rank < size
    ensures RowCount(height, size, rank) == 0 <==> height <= rank
  {
    var q, r := height / size, height % size;
    assert height == q * size + r && r < size;
    if height < size {
      assert q == 0 && r == height;
    } else {
      assert q >= 1 by {
        assert q * size > 0;
      }
    }
  }

  // ---------------------------------------------------------------------------
  // Start rows

  /** `scan(N) - N` is the exclusive prefix sum: the rows of all lower-numbered ranks. */
  lemma StartRowIsExclusivePrefixSum(height: nat, size: nat, rank: nat)
    requires size > 0 && rank < size
    ensures StartRow(height, size, rank) == Sum(RowCounts(height, size)[..rank])
  {
    var counts := RowCounts(height, size);
    ScanIsInclusivePrefixSum(counts, rank);
    assert counts[..rank + 1][..rank] == counts[..rank];
  }

  /** The start row in closed form, as every rank could compute it without communicating. */
  lemma StartRowClosedForm(height: nat, size: nat, rank: nat)
    requires size > 0 && rank < size
    ensures StartRow(height, size, rank) == rank * (height / size) + Min(rank, height % size)
  {
    StartRowIsExclusivePrefixSum(height, size, rank);
    RowCountsPrefixSum(height, size, rank);
  }

  /** Rank 0 starts at row 0, each next rank starts where the previous one ends, and the last one ends at `height`. */
  lemma StartRowsContiguous(height: nat, size: nat, rank: nat)
    requires size > 0 && rank < size
    ensures StartRow(height, size, 0) == 0
    ensures rank + 1 < size ==> StartRow(height, size, rank + 1) == StartRow(height, size, rank) + RowCount(height, size, rank)
    ensures rank + 1 == size ==> StartRow(height, size, rank) + RowCount(height, size, rank) == height
  {
    var q, r := height / size, height % size;
    StartRowClosedForm(height, size, 0);
    StartRowClosedForm(height, size, rank);
    assert (rank + 1) * q == rank * q + q;
    if rank + 1 < size {
      StartRowClosedForm(height, size, rank + 1);
    } else {
      assert height == size * q + r;
    }
  }

  /** Every rank's row range lies within [0, height). */
  lemma StartRowInRange(height: nat, size: nat, rank: nat)
    requires size > 0 && rank < size
    ensures 0 <= StartRow(height, size, rank)
    ensures StartRow(height, size, rank) + RowCount(height, size, rank) <= height
  {
    var counts := RowCounts(height, size);
    StartRowIsExclusivePrefixSum(height, size, rank);
    StartRowsContiguous(height, size, rank);
    SumPrefixMonotone(counts, rank, size);
    if rank + 1 < size {
      StartRowIsExclusivePrefixSum(height, size, rank + 1);
      SumPrefixMonotone(counts, rank + 1, size);
      assert counts[..size] == counts;
      RowCountsSumToHeight(height, size);
    }
  }

  /** The row ranges of two different ranks do not overlap: the lower one ends before the higher one starts. */
  lemma RangesDisjoint(height: nat, size: nat, j: nat, k: nat)
    requires size > 0 && j < k < size
    ensures StartRow(height, size, j) + RowCount(height, size, j) <= StartRow(height, size, k)
  {
    var counts := RowCounts(height, size);
    StartRowIsExclusivePrefixSum(height, size, j);
    StartRowIsExclusivePrefixSum(height, size, k);
    assert counts[..j + 1][..j] == counts[..j];
    assert Sum(counts[..j + 1]) == Sum(counts[..j]) + counts[j];
    SumPrefixMonotone(counts, j + 1, k);
  }

  /** The rank that computes row `y`, found by walking the ranks from `rank` upwards. */
  function OwnerFrom(height: nat, size: nat, y: nat, rank: nat): (k: nat)
    requires size > 0 && y < height && rank < size && StartRow(height, size, rank) <= y
    ensures rank <= k && Owns(height, size, k, y)
    decreases size - rank
  {
    StartRowsContiguous(height, size, rank);
    if y < StartRow(height, size, rank) + RowCount(height, size, rank) then rank
    else OwnerFrom(height, size, y, rank + 1)
  }

  /** The rank that computes global row `y` of the grid. */
  function Owner(height: nat, size: nat, y: nat): (k: nat)
    requires size > 0 && y < height
    ensures Owns(height, size, k, y)
  {
    StartRowsContiguous(height, size, 0);
    OwnerFrom(height, size, y, 0)
  }

  /** Every row of the grid is computed by exactly one rank. */
  lemma OwnerUnique(height: nat, size: nat, y: nat, k: nat)
    requires size > 0 && y < height && Owns(height, size, k, y)
    ensures k == Owner(height, size, y)
  {
    var o := Owner(height, size, y);
    if k < o {
      RangesDisjoint(height, size, k, o);
    } else if o < k {
      RangesDisjoint(height, size, o, k);
    }
  }

  /** The example of the comment in the source: 100 rows over 8 ranks, and 10 rows over 3 ranks. */
  lemma PartitionExamples()
    ensures RowCounts(100, 8) == [13, 13, 13, 13, 12, 12, 12, 12]
    ensures RowCounts(10, 3) == [4, 3, 3]
    ensures [StartRow(10, 3, 0), StartRow(10, 3, 1), StartRow(10, 3, 2)] == [0, 4, 7]
  {
    StartRowClosedForm(10, 3, 0);
    StartRowClosedForm(10, 3, 1);
    StartRowClosedForm(10, 3, 2);
  }
}
