/**
 * Sums over the ranks of a communicator, in rank order: the arithmetic behind
 * the MPI reduction `comm.scan` and the row-major flattening of local matrices.
 */
module Sums {

  /** The sum of a sequence, peeled from the back so that prefixes extend naturally. */
  function Sum(s: seq<int>): int
  {
    if s == [] then 0 else Sum(s[..|s| - 1]) + s[|s| - 1]
  }

  /** The sum of a concatenation is the sum of its parts. */
  lemma {:induction false} SumAppend(a: seq<int>, b: seq<int>)
    ensures Sum(a + b) == Sum(a) + Sum(b)
  {
    if b != [] {
      assert (a + b)[..|a + b| - 1] == a + b[..|b| - 1];
      assert (a + b)[|a + b| - 1] == b[|b| - 1];
      SumAppend(a, b[..|b| - 1]);
    } else {
      assert a + b == a;
    }
  }

  /** Adding a term at the front adds it to the sum. */
  lemma SumCons(x: int, s: seq<int>)
    ensures Sum([x] + s) == x + Sum(s)
  {
    SumAppend([x], s);
    assert Sum([x]) == Sum([]) + x;
  }

  /** A sum of non-negative terms is non-negative and dominates every prefix sum. */
  lemma {:induction false} SumPrefixMonotone(s: seq<int>, i: nat, j: nat)
    requires i <= j <= |s|
    requires forall k :: 0 <= k < |s| ==> s[k] >= 0
    ensures 0 <= Sum(s[..i]) <= Sum(s[..j])
  {
    if j > i {
      assert s[..j][..j - 1] == s[..j - 1];
      SumPrefixMonotone(s, i, j - 1);
    } else if i > 0 {
      assert s[..i][..i - 1] == s[..i - 1];
      SumPrefixMonotone(s, i - 1, i - 1);
    }
  }

  /** Multiplying every term by `w` multiplies the sum by `w`. */
  lemma {:induction false} SumScale(s: seq<int>, w: int, t: seq<int>)
    requires |t| == |s|
    requires forall k :: 0 <= k < |s| ==> t[k] == s[k] * w
    ensures Sum(t) == Sum(s) * w
  {
    if s != [] {
      SumScale(s[..|s| - 1], w, t[..|t| - 1]);
      assert Sum(t) == Sum(t[..|t| - 1]) + t[|t| - 1];
    }
  }

  /**
   * The MPI sum-scan as the ranks pass it along: rank i receives the running
   * total `acc` of the ranks before it plus its own contribution.
   */
  function ScanFrom(acc: int, s: seq<int>): (r: seq<int>)
    ensures |r| == |s|
    decreases s
  {
    if s == [] then [] else [acc + s[0]] + ScanFrom(acc + s[0], s[1..])
  }

  /** `comm.scan(x)` with the default sum operation, one entry per rank. */
  function Scan(s: seq<int>): (r: seq<int>)
    ensures |r| == |s|
  {
    ScanFrom(0, s)
  }

  lemma {:induction false} ScanFromIsPrefixSum(acc: int, s: seq<int>, i: nat)
    requires i < |s|
    ensures ScanFrom(acc, s)[i] == acc + Sum(s[..i + 1])
    decreases s
  {
    if i == 0 {
      assert s[..1] == [s[0]];
      assert Sum([s[0]]) == Sum([]) + s[0];
    } else {
      ScanFromIsPrefixSum(acc + s[0], s[1..], i - 1);
      assert s[..i + 1] == [s[0]] + s[1..][..i];
      SumCons(s[0], s[1..][..i]);
    }
  }

  /** Rank i's scan result is the sum of the contributions of ranks [0, i]. */
  lemma ScanIsInclusivePrefixSum(s: seq<int>, i: nat)
    requires i < |s|
    ensures Scan(s)[i] == Sum(s[..i + 1])
  {
    ScanFromIsPrefixSum(0, s, i);
  }

  /** Row-major flattening of a matrix given as a sequence of rows. */
  function Flatten(rows: seq<seq<int>>): seq<int>
  {
    if rows == [] then [] else Flatten(rows[..|rows| - 1]) + rows[|rows| - 1]
  }

  lemma {:induction false} FlattenAppend(a: seq<seq<int>>, b: seq<seq<int>>)
    ensures Flatten(a + b) == Flatten(a) + Flatten(b)
  {
    if b == [] {
      assert a + b == a;
    } else {
      var front, last := b[..|b| - 1], b[|b| - 1];
      assert (a + b)[..|a + b| - 1] == a + front;
      assert (a + b)[|a + b| - 1] == last;
      assert Flatten(a + b) == Flatten(a + front) + last;
      FlattenAppend(a, front);
      assert Flatten(b) == Flatten(front) + last;
      assert (Flatten(a) + Flatten(front)) + last == Flatten(a) + (Flatten(front) + last);
    }
  }

  /** The flattening has as many cells as the rows hold together. */
  lemma {:induction false} FlattenLength(rows: seq<seq<int>>, lens: seq<int>)
    requires |lens| == |rows|
    requires forall k :: 0 <= k < |rows| ==> lens[k] == |rows[k]|
    ensures |Flatten(rows)| == Sum(lens)
  {
    if rows != [] {
      FlattenLength(rows[..|rows| - 1], lens[..|lens| - 1]);
    }
  }

  /** A matrix of r rows of width w has r * w cells. */
  lemma {:induction false} FlattenUniformLength(rows: seq<seq<int>>, w: nat)
    requires forall k :: 0 <= k < |rows| ==> |rows[k]| == w
    ensures |Flatten(rows)| == |rows| * w
  {
    if rows != [] {
      FlattenUniformLength(rows[..|rows| - 1], w);
      assert (|rows| - 1) * w + w == |rows| * w;
    }
  }

  /** In a row-major layout with rows of width w, cell x of row i comes before the end of row n - 1 when i < n. */
  lemma CellBeforeRowEnd(i: nat, n: nat, w: nat, x: nat)
    requires i < n && x < w
    ensures i * w + x < n * w
  {
    var m := n - 1 - i;
    assert n * w == i * w + m * w + w;
  }

  /** Cell x of row i of a matrix with rows of width w sits at flat index i*w + x. */
  lemma {:induction false} FlattenAt(rows: seq<seq<int>>, w: nat, i: nat, x: nat)
    requires forall k :: 0 <= k < |rows| ==> |rows[k]| == w
    requires i < |rows| && x < w
    ensures |Flatten(rows)| == |rows| * w
    ensures i * w + x < |Flatten(rows)| && Flatten(rows)[i * w + x] == rows[i][x]
  {
    var front, last := rows[..|rows| - 1], rows[|rows| - 1];
    FlattenUniformLength(rows, w);
    FlattenUniformLength(front, w);
    CellBeforeRowEnd(i, |rows|, w, x);
    assert Flatten(rows) == Flatten(front) + last;
    if i < |front| {
      CellBeforeRowEnd(i, |front|, w, x);
      FlattenAt(front, w, i, x);
      assert rows[i] == front[i];
    } else {
      assert i * w == |Flatten(front)|;
      assert Flatten(rows)[i * w + x] == last[x];
    }
  }
}
